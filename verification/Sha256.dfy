/** SHA-256: the standard's definition (FIPS 180-4), and the streaming context that computes it. */
module Sha256 {

  type Word = bv32
  type Octet = bv8

  // ---- FIPS 180-4 ----

  /** Section 4.2.2: the sixty-four round constants. */
  const K: seq<Word> := K0 + K16 + K32 + K48

  const K0: seq<Word> := [
    0x428a2f98, 0x71374491, 0xb5c0fbcf, 0xe9b5dba5, 0x3956c25b, 0x59f111f1, 0x923f82a4, 0xab1c5ed5,
    0xd807aa98, 0x12835b01, 0x243185be, 0x550c7dc3, 0x72be5d74, 0x80deb1fe, 0x9bdc06a7, 0xc19bf174]

  const K16: seq<Word> := [
    0xe49b69c1, 0xefbe4786, 0x0fc19dc6, 0x240ca1cc, 0x2de92c6f, 0x4a7484aa, 0x5cb0a9dc, 0x76f988da,
    0x983e5152, 0xa831c66d, 0xb00327c8, 0xbf597fc7, 0xc6e00bf3, 0xd5a79147, 0x06ca6351, 0x14292967]

  const K32: seq<Word> := [
    0x27b70a85, 0x2e1b2138, 0x4d2c6dfc, 0x53380d13, 0x650a7354, 0x766a0abb, 0x81c2c92e, 0x92722c85,
    0xa2bfe8a1, 0xa81a664b, 0xc24b8b70, 0xc76c51a3, 0xd192e819, 0xd6990624, 0xf40e3585, 0x106aa070]

  const K48: seq<Word> := [
    0x19a4c116, 0x1e376c08, 0x2748774c, 0x34b0bcb5, 0x391c0cb3, 0x4ed8aa4a, 0x5b9cca4f, 0x682e6ff3,
    0x748f82ee, 0x78a5636f, 0x84c87814, 0x8cc70208, 0x90befffa, 0xa4506ceb, 0xbef9a3f7, 0xc67178f2]

  /** Section 5.3.3: the initial hash value. */
  const H0: seq<Word> := [
    0x6a09e667, 0xbb67ae85, 0x3c6ef372, 0xa54ff53a, 0x510e527f, 0x9b05688c, 0x1f83d9ab, 0x5be0cd19]

  /** Section 3.2: rotation to the right. */
  function Rotr(x: Word, n: Word): Word
    requires 0 < n < 32
  {
    (x >> n) | (x << (32 - n))
  }

  /** Section 4.1.2. */
  function Ch(x: Word, y: Word, z: Word): Word { (x & y) ^ (!x & z) }
  function Maj(x: Word, y: Word, z: Word): Word { (x & y) ^ (x & z) ^ (y & z) }
  function BigSigma0(x: Word): Word { Rotr(x, 2) ^ Rotr(x, 13) ^ Rotr(x, 22) }
  function BigSigma1(x: Word): Word { Rotr(x, 6) ^ Rotr(x, 11) ^ Rotr(x, 25) }
  function SmallSigma0(x: Word): Word { Rotr(x, 7) ^ Rotr(x, 18) ^ (x >> 3) }
  function SmallSigma1(x: Word): Word { Rotr(x, 17) ^ Rotr(x, 19) ^ (x >> 10) }

  /** Section 2.2.1: addition of words, modulo 2^32. */
  function Plus(x: Word, y: Word): Word { x + y }
  function Sum4(x: Word, y: Word, z: Word, u: Word): Word { x + y + z + u }

  type Block = b: seq<Octet> | |b| == 64 witness seq(64, _ => 0)
  type Hash = h: seq<Word> | |h| == 8 witness H0

  /** Section 5.2.1: a word is four bytes, most significant first. */
  function WordAt(block: Block, i: nat): Word
    requires i < 16
  {
    ((block[4 * i] as Word) << 24) | ((block[4 * i + 1] as Word) << 16) | ((block[4 * i + 2] as Word) << 8) | (block[4 * i + 3] as Word)
  }

  /** Section 6.2.2, step 1: the message schedule. */
  function Schedule(block: Block, t: nat): Word
    requires t < 64
  {
    if t < 16 then WordAt(block, t)
    else Expand(Schedule(block, t - 2), Schedule(block, t - 7), Schedule(block, t - 15), Schedule(block, t - 16))
  }

  function Expand(w2: Word, w7: Word, w15: Word, w16: Word): Word {
    Sum4(SmallSigma1(w2), w7, SmallSigma0(w15), w16)
  }

  datatype Working = Working(a: Word, b: Word, c: Word, d: Word, e: Word, f: Word, g: Word, h: Word)

  /** Section 6.2.2, step 3: one round. */
  function Round(v: Working, k: Word, w: Word): Working {
    var t1 := Plus(Plus(Plus(Plus(v.h, BigSigma1(v.e)), Ch(v.e, v.f, v.g)), k), w);
    var t2 := Plus(BigSigma0(v.a), Maj(v.a, v.b, v.c));
    Working(Plus(t1, t2), v.a, v.b, v.c, Plus(v.d, t1), v.e, v.f, v.g)
  }

  /** Section 6.2.2, steps 2 and 3: the working variables after the first `t` rounds. */
  function Rounds(hash: Hash, block: Block, t: nat): Working
    requires t <= 64
  {
    if t == 0 then Working(hash[0], hash[1], hash[2], hash[3], hash[4], hash[5], hash[6], hash[7])
    else Round(Rounds(hash, block, t - 1), K[t - 1], Schedule(block, t - 1))
  }

  /** Section 6.2.2, step 4: the intermediate hash value. */
  function Mix(hash: Hash, v: Working): Hash {
    [Plus(hash[0], v.a), Plus(hash[1], v.b), Plus(hash[2], v.c), Plus(hash[3], v.d),
     Plus(hash[4], v.e), Plus(hash[5], v.f), Plus(hash[6], v.g), Plus(hash[7], v.h)]
  }

  function Compress(hash: Hash, block: Block): Hash {
    Mix(hash, Rounds(hash, block, |K|))
  }

  /** The hash value after the first `n` blocks of `m`. */
  function HashFirst(m: seq<Octet>, n: nat): Hash
    requires 64 * n <= |m|
  {
    if n == 0 then H0 else Compress(HashFirst(m, n - 1), m[64 * (n - 1)..64 * n])
  }

  /** The hash value after all complete blocks of `m`, in order. */
  function HashBlocks(m: seq<Octet>): Hash {
    HashFirst(m, |m| / 64)
  }

  function ZeroOctets(n: nat): (z: seq<Octet>)
    ensures |z| == n
  {
    seq(n, _ => 0)
  }

  /** `v` as `n` bytes, most significant first. */
  function BigEndian(v: nat, n: nat): (s: seq<Octet>)
    ensures |s| == n
  {
    if n == 0 then [] else BigEndian(v / 256, n - 1) + [(v % 256) as Octet]
  }

  function ByteOf(v: nat, i: nat): Octet {
    if i == 0 then (v % 256) as Octet else ByteOf(v / 256, i - 1)
  }

  lemma {:induction false} BigEndianAt(v: nat, n: nat, i: nat)
    requires i < n
    ensures BigEndian(v, n)[i] == ByteOf(v, n - 1 - i)
  {
    if i < n - 1 {
      BigEndianAt(v / 256, n - 1, i);
    }
  }

  /** `m`, a one bit, the smallest number of zero bits that leaves room for the length, and `bits`
      as a 64-bit number. */
  function PadTo(m: seq<Octet>, bits: nat): seq<Octet> {
    m + [0x80] + ZeroOctets((55 - |m|) % 64) + BigEndian(bits, 8)
  }

  /** Section 5.1.1: a one bit, the smallest number of zero bits that leaves room for the length,
      and the length in bits as a 64-bit number. */
  function Pad(m: seq<Octet>): seq<Octet>
    requires |m| < 0x2000_0000_0000_0000
  {
    PadTo(m, 8 * |m|)
  }

  function WordOctets(w: Word): (s: seq<Octet>)
    ensures |s| == 4
  {
    [((w >> 24) & 0xFF) as Octet, ((w >> 16) & 0xFF) as Octet, ((w >> 8) & 0xFF) as Octet, (w & 0xFF) as Octet]
  }

  function DigestOf(hash: Hash): (d: seq<Octet>)
    ensures |d| == 32
  {
    WordOctets(hash[0]) + WordOctets(hash[1]) + WordOctets(hash[2]) + WordOctets(hash[3])
    + WordOctets(hash[4]) + WordOctets(hash[5]) + WordOctets(hash[6]) + WordOctets(hash[7])
  }

  /** The SHA-256 message digest. */
  function Digest(m: seq<Octet>): (d: seq<Octet>)
    requires |m| < 0x2000_0000_0000_0000
    ensures |d| == 32
  {
    DigestOf(HashBlocks(Pad(m)))
  }

  /** Where `x` has ones, `Ch` has the bits of `y`, and elsewhere those of `z`. */
  lemma ChoiceChooses(x: Word, y: Word, z: Word)
    ensures Ch(x, y, z) & x == y & x && Ch(x, y, z) & !x == z & !x
  {
  }

  /** `Maj` has the bits that two of the words have. */
  lemma MajorityDecides(x: Word, y: Word, z: Word)
    ensures Maj(x, y, z) == (x & y) | (x & z) | (y & z)
  {
  }

  /** Rotation moves every bit down by `n`, and the low `n` bits to the top. */
  lemma RotationMoves(x: Word, n: Word)
    requires 0 < n < 32
    ensures Rotr(x, n) & (0xFFFF_FFFF >> n) == x >> n && Rotr(x, n) >> (32 - n) == x & ((1 << n) - 1)
  {
  }

  /** The padding ends a block, and no shorter one has room for the marker and the length. */
  lemma PadIsMinimal(m: seq<Octet>)
    requires |m| < 0x2000_0000_0000_0000
    ensures |Pad(m)| % 64 == 0 && |m| + 9 <= |Pad(m)| < |m| + 9 + 64
    ensures m <= Pad(m)
  {
    hide BigEndian, ZeroOctets;
    PadArithmetic(|m|, |m| / 64, |m| % 64);
    var blocks := if |m| % 64 <= 55 then |m| / 64 + 1 else |m| / 64 + 2;
    assert |Pad(m)| == 64 * blocks;
  }

  lemma PadArithmetic(n: nat, q: nat, r: nat)
    requires n == 64 * q + r && r < 64
    ensures n + 9 + (55 - n) % 64 == if r <= 55 then 64 * (q + 1) else 64 * (q + 2)
  {
    var back: int := q;
    if r <= 55 {
      assert 55 - n == 64 * -back + (55 - r);
    } else {
      assert 55 - n == 64 * (-back - 1) + (119 - r);
    }
  }

  // ---- the streaming context ----

  lemma StartOfRounds(hash: Hash, block: Block)
    ensures Rounds(hash, block, 0) == Working(hash[0], hash[1], hash[2], hash[3], hash[4], hash[5], hash[6], hash[7])
  {
  }

  /** One block: the schedule is filled, sixty-four rounds run, and the state takes the result. */
  method CompressBlock(block: Block, state: array<Word>)
    requires state.Length == 8
    modifies state
    ensures state[..] == Compress(old(state[..]), block)
  {
    hide Rounds, Schedule, Round, Plus;
    ghost var hash: Hash := state[..];
    var w := BlockSchedule(block);
    var v := Working(state[0], state[1], state[2], state[3], state[4], state[5], state[6], state[7]);
    StartOfRounds(hash, block);
    v := RunRounds(hash, block, w, v);
    AddInto(state, v);
  }

  /** The working variables are added to the state. */
  method AddInto(state: array<Word>, v: Working)
    requires state.Length == 8
    modifies state
    ensures state[..] == Mix(old(state[..]), v)
  {
    hide Plus;
    state[0] := Plus(state[0], v.a);
    state[1] := Plus(state[1], v.b);
    state[2] := Plus(state[2], v.c);
    state[3] := Plus(state[3], v.d);
    state[4] := Plus(state[4], v.e);
    state[5] := Plus(state[5], v.f);
    state[6] := Plus(state[6], v.g);
    state[7] := Plus(state[7], v.h);
    assert state[..] == Mix(old(state[..]), v);
  }

  method RunRounds(ghost hash: Hash, ghost block: Block, w: array<Word>, start: Working) returns (v: Working)
    requires w.Length == 64 && forall t :: 0 <= t < 64 ==> w[t] == Schedule(block, t)
    requires start == Rounds(hash, block, 0)
    ensures v == Rounds(hash, block, |K|)
  {
    hide Schedule, Round;
    v := start;
    for i := 0 to |K|
      invariant v == Rounds(hash, block, i)
    {
      v := OneRound(v, K[i], w[i]);
    }
  }

  method OneRound(v: Working, k: Word, w: Word) returns (r: Working)
    ensures r == Round(v, k, w)
  {
    hide Plus, BigSigma0, BigSigma1, Ch, Maj;
    var a, b, c, d, e, f, g, h := v.a, v.b, v.c, v.d, v.e, v.f, v.g, v.h;
    var s1 := BigSigma1(e);
    var choose := Ch(e, f, g);
    var temp1 := Plus(Plus(Plus(Plus(h, s1), choose), k), w);
    var s0 := BigSigma0(a);
    var majority := Maj(a, b, c);
    var temp2 := Plus(s0, majority);
    h := g;
    g := f;
    f := e;
    e := Plus(d, temp1);
    d := c;
    c := b;
    b := a;
    a := Plus(temp1, temp2);
    r := Working(a, b, c, d, e, f, g, h);
  }

  method ExpandWord(w2: Word, w7: Word, w15: Word, w16: Word) returns (r: Word)
    ensures r == Expand(w2, w7, w15, w16)
  {
    hide Sum4, SmallSigma0, SmallSigma1;
    var s0 := SmallSigma0(w15);
    var s1 := SmallSigma1(w2);
    r := Sum4(w16, s0, w7, s1);
    SumOrder(w16, s0, w7, s1);
  }

  lemma SumOrder(x: Word, y: Word, z: Word, u: Word)
    ensures Sum4(x, y, z, u) == Sum4(u, z, y, x)
  {
  }

  method BlockSchedule(block: Block) returns (w: array<Word>)
    ensures fresh(w) && w.Length == 64 && forall t :: 0 <= t < 64 ==> w[t] == Schedule(block, t)
  {
    hide WordAt, Expand;
    w := new Word[64];
    for i := 0 to 16
      invariant forall t :: 0 <= t < i ==> w[t] == Schedule(block, t)
    {
      w[i] := WordAt(block, i);
    }
    for i := 16 to 64
      invariant forall t :: 0 <= t < i ==> w[t] == Schedule(block, t)
    {
      var next := ExpandWord(w[i - 2], w[i - 7], w[i - 15], w[i - 16]);
      w[i] := next;
    }
  }

  lemma {:induction false} HashPrefix(m: seq<Octet>, t: seq<Octet>, n: nat)
    requires 64 * n <= |m|
    ensures HashFirst(m + t, n) == HashFirst(m, n)
  {
    hide Compress;
    if n > 0 {
      HashPrefix(m, t, n - 1);
      assert (m + t)[64 * (n - 1)..64 * n] == m[64 * (n - 1)..64 * n];
    }
  }

  /** Bytes that do not complete a block do not change the hash value. */
  lemma HashPartial(m: seq<Octet>, t: seq<Octet>)
    requires |m| % 64 + |t| < 64
    ensures HashBlocks(m + t) == HashBlocks(m)
  {
    hide Compress, HashFirst;
    HashPrefix(m, t, |m| / 64);
  }

  /** Bytes that complete a block compress it. */
  lemma HashFull(m: seq<Octet>, t: seq<Octet>)
    requires |m| % 64 + |t| == 64
    ensures HashBlocks(m + t) == Compress(HashBlocks(m), (m + t)[|m + t| - 64..])
  {
    hide Compress;
    HashPrefix(m, t, |m| / 64);
    var n := |m + t| / 64;
    assert n == |m| / 64 + 1 && 64 * n == |m + t|;
    assert (m + t)[64 * (n - 1)..64 * n] == (m + t)[|m + t| - 64..];
  }

  lemma LengthInBits(n: nat)
    ensures n % 0x1_0000_0000_0000_0000 * 8 % 0x1_0000_0000_0000_0000 == 8 * n % 0x1_0000_0000_0000_0000
  {
    var m := 0x1_0000_0000_0000_0000;
    var q, r := n / m, n % m;
    assert n == m * q + r;
    assert 8 * n == m * (8 * q) + 8 * r;
  }

  /** A message with its marker byte and some zeros. */
  ghost function Padded(m: seq<Octet>, zeros: nat): seq<Octet> {
    m + [0x80] + ZeroOctets(zeros)
  }

  lemma PaddedNext(m: seq<Octet>, zeros: nat)
    ensures Padded(m, 0) == m + [0x80]
    ensures Padded(m, zeros) + [0] == Padded(m, zeros + 1)
  {
  }

  /** Just eight bytes are left in the block after the least number of zeros that makes it so. */
  lemma ZerosNeeded(m: seq<Octet>, zeros: nat)
    requires zeros <= (55 - |m|) % 64
    ensures |Padded(m, zeros)| % 64 == 56 <==> zeros == (55 - |m|) % 64
  {
  }

  lemma NothingHashed()
    ensures HashBlocks([]) == H0
  {
    hide Compress;
  }

  /** The streaming state: eight words, a partial block, and the number of bytes seen, modulo 2^64. */
  class Context {
    const state: array<Word>
    const buffer: array<Octet>
    var bufferSize: nat
    var byteCount: nat
    /** Everything absorbed so far, padding included. */
    ghost var absorbed: seq<Octet>

    ghost predicate Absorbing()
      reads this`bufferSize, this`absorbed, state, buffer
    {
      && state.Length == 8 && buffer.Length == 64
      && bufferSize == |absorbed| % 64
      && buffer[..bufferSize] == absorbed[|absorbed| - bufferSize..]
      && state[..] == HashBlocks(absorbed)
    }

    ghost predicate Valid()
      reads this, state, buffer
    {
      Absorbing() && byteCount == |absorbed| % 0x1_0000_0000_0000_0000
    }

    constructor ()
      ensures Valid() && absorbed == [] && fresh(state) && fresh(buffer)
    {
      hide HashBlocks, Valid, Absorbing;
      state := new Word[8];
      buffer := new Octet[64];
      bufferSize, byteCount, absorbed := 0, 0, [];
      new;
      SetInitial(state);
      StartsValid();
    }

    lemma StartsValid()
      requires state.Length == 8 && buffer.Length == 64 && bufferSize == byteCount == 0 && absorbed == []
      requires state[..] == HashBlocks([])
      ensures Valid()
    {
      hide HashBlocks;
    }

    lemma Counted()
      requires Absorbing()
      ensures bufferSize == |absorbed| % 64 && state.Length == 8 && buffer.Length == 64
    {
    }

    static method SetInitial(state: array<Word>)
      requires state.Length == 8
      modifies state
      ensures state[..] == HashBlocks([])
    {
      hide HashBlocks;
      NothingHashed();
      for i := 0 to 8
        invariant forall j :: 0 <= j < i ==> state[j] == H0[j]
      {
        state[i] := H0[i];
      }
    }

    /** A full buffer is hashed and emptied. */
    method Flush(ghost before: seq<Octet>, ghost added: seq<Octet>)
      requires state.Length == 8 && buffer.Length == 64 && bufferSize <= 64
      requires |before| % 64 + |added| == bufferSize
      requires state[..] == HashBlocks(before) && buffer[..bufferSize] == (before + added)[|before + added| - bufferSize..]
      modifies this`bufferSize, this`absorbed, state
      ensures Absorbing() && absorbed == before + added
    {
      hide Compress, HashBlocks;
      absorbed := before + added;
      if bufferSize == 64 {
        assert buffer[..] == buffer[..64];
        HashFull(before, added);
        CompressBlock(buffer[..], state);
        bufferSize := 0;
      } else {
        HashPartial(before, added);
      }
    }

    method AppendPaddingByte(value: Octet)
      requires Absorbing()
      modifies this`bufferSize, this`absorbed, state, buffer
      ensures Absorbing() && absorbed == old(absorbed) + [value]
    {
      hide Compress, HashBlocks;
      buffer[bufferSize] := value;
      bufferSize := bufferSize + 1;
      Flush(absorbed, [value]);
    }

    /** Absorb any number of bytes: whole blocks straight from the input when nothing is buffered,
        otherwise through the buffer. */
    method Update(data: seq<Octet>)
      requires Valid()
      modifies this`bufferSize, this`byteCount, this`absorbed, state, buffer
      ensures Valid() && absorbed == old(absorbed) + data
    {
      hide Absorbing;
      ghost var before := absorbed;
      CountAdds(byteCount, |before|, |data|);
      byteCount := (byteCount + |data|) % 0x1_0000_0000_0000_0000;
      var cursor := 0;
      assert before + data[..0] == before;
      while cursor < |data|
        invariant 0 <= cursor <= |data| && Absorbing()
        invariant absorbed == before + data[..cursor]
        invariant byteCount == (|before| + |data|) % 0x1_0000_0000_0000_0000
      {
        cursor := AbsorbNext(data, cursor, before);
      }
      assert data[..|data|] == data;
    }

    static lemma CountAdds(count: nat, before: nat, more: nat)
      requires count == before % 0x1_0000_0000_0000_0000
      ensures (count + more) % 0x1_0000_0000_0000_0000 == (before + more) % 0x1_0000_0000_0000_0000
    {
    }

    static lemma Joined(before: seq<Octet>, data: seq<Octet>, cursor: nat, next: nat)
      requires cursor <= next <= |data|
      ensures before + data[..cursor] + data[cursor..next] == before + data[..next]
    {
    }

    method AbsorbNext(data: seq<Octet>, cursor: nat, ghost before: seq<Octet>) returns (next: nat)
      requires Absorbing() && cursor < |data| && absorbed == before + data[..cursor]
      modifies this`bufferSize, this`absorbed, state, buffer
      ensures Absorbing() && cursor < next <= |data| && absorbed == before + data[..next]
    {
      hide Absorbing;
      Counted();
      if bufferSize == 0 && |data| - cursor >= 64 {
        next := cursor + 64;
        AbsorbBlock(data[cursor..next]);
      } else {
        next := cursor + if |data| - cursor < 64 - bufferSize then |data| - cursor else 64 - bufferSize;
        AbsorbChunk(data[cursor..next]);
      }
      Joined(before, data, cursor, next);
    }

    /** A block straight from the input. */
    method AbsorbBlock(block: Block)
      requires Absorbing() && bufferSize == 0
      modifies this`absorbed, state
      ensures Absorbing() && absorbed == old(absorbed) + block
    {
      hide Compress, HashBlocks;
      HashFull(absorbed, block);
      assert (absorbed + block)[|absorbed + block| - 64..] == block;
      CompressBlock(block, state);
      absorbed := absorbed + block;
    }

    /** Bytes that go through the buffer. */
    method AbsorbChunk(chunk: seq<Octet>)
      requires Absorbing() && bufferSize + |chunk| <= 64
      modifies this`bufferSize, this`absorbed, state, buffer
      ensures Absorbing() && absorbed == old(absorbed) + chunk
    {
      hide Compress, HashBlocks;
      for i := 0 to |chunk|
        invariant bufferSize == old(bufferSize) && absorbed == old(absorbed)
        invariant buffer[..bufferSize + i] == old(buffer[..bufferSize]) + chunk[..i]
        invariant state[..] == old(state[..])
      {
        buffer[bufferSize + i] := chunk[i];
      }
      bufferSize := bufferSize + |chunk|;
      Flush(absorbed, chunk);
    }

    /** Zero bytes until exactly the length fits into the block. */
    method PadZeros(ghost m: seq<Octet>)
      requires Absorbing() && absorbed == m + [0x80]
      modifies this`bufferSize, this`absorbed, state, buffer
      ensures Absorbing() && absorbed == Padded(m, (55 - |m|) % 64)
    {
      hide Compress, HashBlocks, Padded, Absorbing;
      ghost var zeros := 0;
      PaddedNext(m, zeros);
      ZerosNeeded(m, zeros);
      Counted();
      while bufferSize != 56
        invariant Absorbing() && absorbed == Padded(m, zeros)
        invariant bufferSize == |absorbed| % 64 && (zeros == (55 - |m|) % 64 <==> bufferSize == 56)
        invariant zeros <= (55 - |m|) % 64
        decreases (55 - |m|) % 64 - zeros
      {
        AppendPaddingByte(0);
        PaddedNext(m, zeros);
        zeros := zeros + 1;
        ZerosNeeded(m, zeros);
        Counted();
      }
    }

    method AppendLength(bitLength: nat)
      requires Absorbing()
      modifies this`bufferSize, this`absorbed, state, buffer
      ensures Absorbing() && absorbed == old(absorbed) + BigEndian(bitLength, 8)
    {
      hide Compress, HashBlocks, BigEndian, ByteOf;
      ghost var length := BigEndian(bitLength, 8);
      ghost var before := absorbed;
      assert before + length[..0] == before;
      for i := 0 to 8
        invariant Absorbing() && absorbed == before + length[..i]
      {
        BigEndianAt(bitLength, 8, i);
        AppendPaddingByte(ByteOf(bitLength, 7 - i));
        assert length[..i] + [length[i]] == length[..i + 1];
      }
      assert length[..8] == length;
    }

    /** Pad and produce the digest. The length is taken modulo 2^64 bits, as the counter holds it. */
    method Final() returns (digest: seq<Octet>)
      requires Valid()
      modifies this`bufferSize, this`absorbed, state, buffer
      ensures digest == DigestOf(HashBlocks(PadTo(old(absorbed), 8 * |old(absorbed)| % 0x1_0000_0000_0000_0000)))
    {
      hide Compress, HashBlocks, DigestOf, BigEndian, ZeroOctets;
      ghost var m := absorbed;
      var bitLength := byteCount * 8 % 0x1_0000_0000_0000_0000;
      LengthInBits(|m|);
      AppendPaddingByte(0x80);
      PadZeros(m);
      AppendLength(bitLength);
      digest := DigestOf(state[..]);
    }
  }

  function Concat(chunks: seq<seq<Octet>>): seq<Octet> {
    if chunks == [] then [] else Concat(chunks[..|chunks| - 1]) + chunks[|chunks| - 1]
  }

  /** Below 2^61 bytes the counted length is the length the standard asks for. */
  lemma CountedLength(m: seq<Octet>)
    requires |m| < 0x2000_0000_0000_0000
    ensures DigestOf(HashBlocks(PadTo(m, 8 * |m| % 0x1_0000_0000_0000_0000))) == Digest(m)
  {
    hide DigestOf, HashBlocks, PadTo;
    assert 8 * |m| % 0x1_0000_0000_0000_0000 == 8 * |m|;
  }

  method AbsorbChunks(chunks: seq<seq<Octet>>) returns (context: Context)
    ensures fresh(context) && fresh(context.state) && fresh(context.buffer)
    ensures context.Valid() && context.absorbed == Concat(chunks)
  {
    hide HashBlocks;
    context := new Context();
    for i := 0 to |chunks|
      invariant context.Valid() && context.absorbed == Concat(chunks[..i])
      invariant fresh(context) && fresh(context.state) && fresh(context.buffer)
    {
      assert chunks[..i + 1][..i] == chunks[..i];
      context.Update(chunks[i]);
    }
    assert chunks[..|chunks|] == chunks;
  }

  /** However a message is split into updates, the digest is the standard's digest of the whole. */
  method DigestOfChunks(chunks: seq<seq<Octet>>) returns (digest: seq<Octet>)
    requires |Concat(chunks)| < 0x2000_0000_0000_0000
    ensures digest == Digest(Concat(chunks))
  {
    hide DigestOf, HashBlocks, PadTo, Digest;
    CountedLength(Concat(chunks));
    var context := AbsorbChunks(chunks);
    digest := context.Final();
  }

  // ---- the textual digest ----

  function HexDigit(v: int): char
    requires 0 <= v < 16
  {
    if v < 10 then '0' + v as char else 'a' + (v - 10) as char
  }

  function Hex(digest: seq<Octet>): (text: string)
    ensures |text| == 2 * |digest|
  {
    if digest == [] then [] else [HexDigit((digest[0] >> 4) as int), HexDigit((digest[0] & 0x0F) as int)] + Hex(digest[1..])
  }

  predicate LowerHex(c: char) {
    '0' <= c <= '9' || 'a' <= c <= 'f'
  }

  /** The text of a digest determines the digest, and is spelled as the manifests demand. */
  lemma {:induction false} HexFaithful(a: seq<Octet>, b: seq<Octet>)
    ensures forall c :: c in Hex(a) ==> LowerHex(c)
    ensures |a| == |b| && Hex(a) == Hex(b) ==> a == b
  {
    hide HexDigit, LowerHex;
    HexLower(a);
    if a != [] {
      HexFaithful(a[1..], if b == [] then [] else b[1..]);
      if |a| == |b| && Hex(a) == Hex(b) {
        assert Hex(a)[2..] == Hex(a[1..]) && Hex(b)[2..] == Hex(b[1..]);
        assert Hex(a)[0] == Hex(b)[0] && Hex(a)[1] == Hex(b)[1];
        NibblesDetermine(a[0], b[0]);
      }
    }
  }

  lemma {:induction false} HexLower(a: seq<Octet>)
    ensures forall c :: c in Hex(a) ==> LowerHex(c)
  {
    if a != [] {
      HexLower(a[1..]);
    }
  }

  lemma NibblesDetermine(a: Octet, b: Octet)
    requires HexDigit((a >> 4) as int) == HexDigit((b >> 4) as int)
    requires HexDigit((a & 0x0F) as int) == HexDigit((b & 0x0F) as int)
    ensures a == b
  {
    assert a == ((a >> 4) << 4) | (a & 0x0F);
    assert b == ((b >> 4) << 4) | (b & 0x0F);
  }

  /** File contents that the digest is defined for. */
  type Content = s: seq<Octet> | |s| < 0x2000_0000_0000_0000

  function Fingerprint(c: Content): (text: string)
    ensures |text| == 64 && forall x :: x in text ==> LowerHex(x)
  {
    var d := Digest(c);
    HexFaithful(d, d);
    Hex(d)
  }
}
