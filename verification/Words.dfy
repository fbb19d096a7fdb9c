/** Bytes, little-endian words and two's-complement readings of them. */
module Words {

  const TWO_32 := 0x1_0000_0000
  const TWO_64 := 0x1_0000_0000_0000_0000
  const MAX_64 := TWO_64 - 1

  function Min(a: nat, b: nat): nat {
    if a <= b then a else b
  }

  function Max(a: nat, b: nat): nat {
    if a >= b then a else b
  }

  type byte = x: int | 0 <= x < 256
  type address = x: int | 0 <= x < 0x1_0000_0000_0000_0000

  function Pow256(n: nat): (p: nat)
    ensures p > 0
  {
    if n == 0 then 1 else 256 * Pow256(n - 1)
  }

  /** The low `n` bytes of `v`, least significant first. A negative `v` gives its
      two's-complement bytes, because `/` and `%` by 256 round towards minus infinity. */
  function LittleEndian(v: int, n: nat): (s: seq<byte>)
    ensures |s| == n
    decreases n
  {
    if n == 0 then [] else [v % 256] + LittleEndian(v / 256, n - 1)
  }

  function FromLittleEndian(s: seq<byte>): nat {
    if s == [] then 0 else s[0] + 256 * FromLittleEndian(s[1..])
  }

  /** The signed value that `n` little-endian bytes hold. */
  function Signed(u: nat, n: nat): int {
    if 2 * u < Pow256(n) then u else u - Pow256(n)
  }

  function Signed64(a: nat): int {
    if a < 0x8000_0000_0000_0000 then a else a - TWO_64
  }

  /** The signed reading of a 64-bit word is the one number of the signed range that agrees with it. */
  lemma Signed64Means(a: address)
    ensures -0x8000_0000_0000_0000 <= Signed64(a) <= 0x7FFF_FFFF_FFFF_FFFF && Signed64(a) % TWO_64 == a
  {
  }

  lemma {:induction false} ModuloSplit(v: int, m: nat)
    requires m > 0
    ensures v % (256 * m) == v % 256 + 256 * ((v / 256) % m)
  {
    var r := v % 256 + 256 * ((v / 256) % m);
    var k := (v / 256) / m;
    assert v == 256 * (m * k + (v / 256) % m) + v % 256;
    assert v == (256 * m) * k + r;
    assert 0 <= r < 256 * m;
    ModuloUnique(v, 256 * m, k, r);
  }

  lemma MultipleAway(d: int, x: int)
    requires d > 0
    ensures x >= 1 ==> d * x >= d
    ensures x <= -1 ==> d * x <= -d
  {
    if x >= 1 {
      assert d * x >= d * 1;
    } else if x <= -1 {
      assert d * x <= d * -1;
    }
  }

  lemma ModuloUnique(v: int, d: nat, k: int, r: nat)
    requires r < d && v == d * k + r
    ensures v % d == r && v / d == k
  {
    var q, m := v / d, v % d;
    assert v == d * q + m && 0 <= m < d;
    assert d * (q - k) == d * q - d * k == r - m;
    MultipleAway(d, q - k);
  }

  lemma {:induction false} LittleEndianRoundTrip(v: int, n: nat)
    ensures FromLittleEndian(LittleEndian(v, n)) == v % Pow256(n)
    decreases n
  {
    if n > 0 {
      LittleEndianRoundTrip(v / 256, n - 1);
      ModuloSplit(v, Pow256(n - 1));
    }
  }

  /** Byte `i` counts multiples of 256 to the power of `i`. */
  lemma {:induction false} LittleEndianDigit(v: int, n: nat, i: nat)
    requires i < n
    ensures LittleEndian(v, n)[i] == (v / Pow256(i)) % 256
    decreases n
  {
    if i > 0 {
      LittleEndianDigit(v / 256, n - 1, i - 1);
      DivideTwice(v, Pow256(i - 1));
    }
  }

  lemma DivideTwice(v: int, m: nat)
    requires m > 0
    ensures v / (256 * m) == (v / 256) / m
  {
    var u := v / 256;
    var q, rest := u / m, u % m;
    assert u == m * q + rest;
    assert 256 * (m * q) == (256 * m) * q;
    assert v == (256 * m) * q + (256 * rest + v % 256);
    assert 256 * rest + v % 256 < 256 * m;
    ModuloUnique(v, 256 * m, q, 256 * rest + v % 256);
  }

  lemma {:induction false} FromLittleEndianRoundTrip(s: seq<byte>)
    ensures FromLittleEndian(s) < Pow256(|s|)
    ensures LittleEndian(FromLittleEndian(s), |s|) == s
  {
    if s != [] {
      FromLittleEndianRoundTrip(s[1..]);
      ModuloUnique(FromLittleEndian(s), 256, FromLittleEndian(s[1..]), s[0]);
    }
  }

  lemma {:induction false} SignedRoundTrip(v: int, n: nat)
    requires 0 <= 2 * v + Pow256(n) && 2 * v < Pow256(n)
    ensures Signed(FromLittleEndian(LittleEndian(v, n)), n) == v
  {
    LittleEndianRoundTrip(v, n);
    if v >= 0 {
      ModuloUnique(v, Pow256(n), 0, v);
    } else {
      ModuloUnique(v, Pow256(n), -1, v + Pow256(n));
    }
  }

  lemma PowValues()
    ensures Pow256(4) == TWO_32 && Pow256(8) == TWO_64
  {
    assert Pow256(2) == 65536;
    assert Pow256(4) == TWO_32;
    assert Pow256(6) == 0x1_0000_0000_0000;
  }
}
