/** Unsigned 64-bit decimals as the wire formats and marker names print and read them. */
module Decimals {
  import opened Words

  predicate IsDigit(c: char) {
    '0' <= c <= '9'
  }

  predicate AllDigits(s: string) {
    forall i :: 0 <= i < |s| ==> IsDigit(s[i])
  }

  /** No superfluous leading zero. */
  predicate Canonical(s: string) {
    s != [] && AllDigits(s) && (|s| > 1 ==> s[0] != '0')
  }

  function Decimal(n: nat): (s: string)
    ensures Canonical(s) && (n > 0 ==> s[0] != '0')
  {
    if n < 10 then [('0' as int + n) as char] else Decimal(n / 10) + [('0' as int + n % 10) as char]
  }

  function Number(s: string): nat
    requires AllDigits(s)
  {
    if s == [] then 0 else 10 * Number(s[..|s| - 1]) + (s[|s| - 1] as int - '0' as int)
  }

  lemma {:induction false} NumberOfDecimal(n: nat)
    ensures Number(Decimal(n)) == n
  {
    if n >= 10 {
      NumberOfDecimal(n / 10);
      assert Decimal(n)[..|Decimal(n)| - 1] == Decimal(n / 10);
    }
  }

  lemma {:induction false} DecimalOfNumber(s: string)
    requires Canonical(s)
    ensures Decimal(Number(s)) == s
    ensures Number(s) == 0 ==> s == "0"
  {
    var n := |s| - 1;
    assert s == s[..n] + [s[n]];
    if n > 0 {
      DecimalOfNumber(s[..n]);
    }
  }

  /** One token read as an unsigned 64-bit decimal; `leadingZero` flags a form that is not canonical. */
  datatype UnsignedParse = UnsignedParse(value: nat, ok: bool, leadingZero: bool)

  function ParseUnsigned(token: string): (r: UnsignedParse)
  {
    var ok := token != [] && AllDigits(token) && Number(token) <= MAX_64;
    UnsignedParse(if ok then Number(token) else 0, ok, |token| > 1 && token[0] == '0')
  }

  /** The canonical tokens are exactly the printed 64-bit numbers, and each reads back as itself. */
  lemma CanonicalTokens(token: string, n: nat)
    ensures var p := ParseUnsigned(token); p.ok && !p.leadingZero && p.value == n <==> n <= MAX_64 && token == Decimal(n)
  {
    NumberOfDecimal(n);
    if Canonical(token) {
      DecimalOfNumber(token);
    }
  }

  /** A colon ends a printed number, so the number and what follows can be told apart. */
  lemma {:induction false} PrefixUnique(a: string, b: string, x: string, y: string, mark: char)
    requires mark !in a && mark !in b && a + [mark] + x == b + [mark] + y
    ensures a == b && x == y
  {
    var s, t := a + [mark] + x, b + [mark] + y;
    assert s[|a|] == mark && t[|b|] == mark;
    assert forall i :: 0 <= i < |b| ==> t[i] in b;
    assert forall i :: 0 <= i < |a| ==> s[i] in a;
    assert a == s[..|a|] && b == t[..|b|];
    assert x == s[|a| + 1..] && y == t[|b| + 1..];
  }

  lemma DecimalHasNo(n: nat, mark: char)
    requires !IsDigit(mark)
    ensures mark !in Decimal(n)
  {
  }
}
