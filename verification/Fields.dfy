/** Relocation fields and trampolines of section 4.4 of the System V AMD64 ABI supplement: how a value is
    written into code and what the processor reads back. */
module Fields {
  import opened Words
  import opened Wrappers

  datatype FieldKind = Relative32 | Absolute32 | Absolute32Signed | Absolute64

  function Width(kind: FieldKind): nat {
    if kind == Absolute64 then 8 else 4
  }

  function Fits32(v: int): bool {
    -0x8000_0000 <= v <= 0x7FFF_FFFF
  }

  /** The bytes for symbol address `s`, addend `a` and field address `p`, unless the value does not fit.
      All three 32-bit kinds are held to the signed range. */
  function Encode(kind: FieldKind, s: address, a: int, p: address): (r: Option<seq<byte>>)
    ensures r.Some? ==> |r.value| == Width(kind)
  {
    var v := Signed64(s) + a - if kind == Relative32 then Signed64(p) else 0;
    if kind == Absolute64 then Some(LittleEndian(v, 8))
    else if Fits32(v) then Some(LittleEndian(v, 4))
    else None
  }

  /** The 64-bit address an instruction computes from a field at `p`: relative fields are added to
      `p`, signed ones sign-extended and the others zero-extended. */
  function Decode(kind: FieldKind, field: seq<byte>, p: address): address
  {
    match kind
    case Relative32 => (p + Signed(FromLittleEndian(field), 4)) % TWO_64
    case Absolute32 => FromLittleEndian(field) % TWO_64
    case Absolute32Signed => Signed(FromLittleEndian(field), 4) % TWO_64
    case Absolute64 => FromLittleEndian(field) % TWO_64
  }

  /** A field decodes to S + A. A zero-extended field does so only for a value that is not negative,
      although the loader accepts the signed range for it. */
  lemma EncodeDecodes(kind: FieldKind, s: address, a: int, p: address)
    requires Encode(kind, s, a, p).Some?
    ensures Decode(kind, Encode(kind, s, a, p).value, p) == (s + a) % TWO_64
            <==> (kind == Absolute32 ==> Signed64(s) + a >= 0)
  {
    hide Signed64, LittleEndian, FromLittleEndian, Signed, Pow256;
    PowValues();
    var v := Signed64(s) + a;
    Congruent(s, a, p);
    match kind
    case Relative32 =>
      SignedRoundTrip(v - Signed64(p), 4);
    case Absolute32 =>
      LittleEndianRoundTrip(v, 4);
      ZeroExtended(v);
    case Absolute32Signed =>
      SignedRoundTrip(v, 4);
    case Absolute64 =>
      LittleEndianRoundTrip(v, 8);
  }

  /** Against a symbol at 0x400000 the loader accepts an addend that leads below zero for a zero-extended field,
      which then reads as another address. */
  lemma NegativeMisread()
    ensures var r := Encode(Absolute32, 0x40_0000, -0x40_0001, 0);
      r.Some? && Decode(Absolute32, r.value, 0) != (0x40_0000 - 0x40_0001) % TWO_64
  {
    EncodeDecodes(Absolute32, 0x40_0000, -0x40_0001, 0);
  }

  lemma Congruent(s: address, a: int, p: address)
    ensures (Signed64(s) + a) % TWO_64 == (s + a) % TWO_64
    ensures (p + (Signed64(s) + a - Signed64(p))) % TWO_64 == (s + a) % TWO_64
  {
  }

  lemma ZeroExtended(v: int)
    requires Fits32(v)
    ensures (v % TWO_32) % TWO_64 == v % TWO_64 <==> v >= 0
  {
  }

  // ---- trampolines ----

  const TRAMPOLINE_SIZE: nat := 13

  /** movabs r11, target; jmp r11 */
  function Stub(target: address): (r: seq<byte>)
    ensures |r| == TRAMPOLINE_SIZE
  {
    [0x49, 0xBB] + LittleEndian(target, 8) + [0x41, 0xFF, 0xE3]
  }

  /** Where the processor goes from thirteen bytes that load r11 and jump through it. */
  function StubTarget(code: seq<byte>): Option<nat> {
    if |code| == TRAMPOLINE_SIZE && code[0] == 0x49 && code[1] == 0xBB && code[10] == 0x41 && code[11] == 0xFF && code[12] == 0xE3
    then Some(FromLittleEndian(code[2..10]))
    else None
  }

  lemma StubJumps(target: address)
    ensures StubTarget(Stub(target)) == Some(target)
  {
    hide LittleEndian, FromLittleEndian, Pow256;
    var code := Stub(target);
    assert code[2..10] == LittleEndian(target, 8);
    LittleEndianRoundTrip(target, 8);
    PowValues();
  }
}
