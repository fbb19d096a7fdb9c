/** The five-byte `jmp rel32` a reload writes over a function entry. */
module Redirect {
  import opened Words
  import opened Patching

  const JMP: byte := 0xE9

  /** The 64-bit signed difference the backend computes between target and next instruction. */
  function Displacement(entry: nat, target: nat): int {
    Signed64(target) - Signed64((entry + WINDOW) % TWO_64)
  }

  predicate InReach(entry: nat, target: nat) {
    -0x8000_0000 <= Displacement(entry, target) <= 0x7FFF_FFFF
  }

  function Jump(entry: nat, target: nat): (code: Window)
    ensures code[0] == JMP
  {
    [JMP] + LittleEndian(Displacement(entry, target), 4)
  }

  /** Where the processor goes on executing the `jmp rel32` in `code` at `entry`. */
  function JumpTarget(entry: nat, code: Window): nat
  {
    (Signed64(entry) + 5 + Signed(FromLittleEndian(code[1..]), 4)) % TWO_64
  }

  lemma DisplacementLands(entry: nat, target: nat)
    requires entry < TWO_64 && target < TWO_64
    ensures (Signed64(entry) + 5 + Displacement(entry, target)) % TWO_64 == target
  {
  }

  /** A redirect written by the backend decodes to the address it was written for. */
  lemma JumpDecodes(entry: nat, target: nat)
    requires entry < TWO_64 && target < TWO_64 && InReach(entry, target)
    ensures JumpTarget(entry, Jump(entry, target)) == target
  {
    var d := Displacement(entry, target);
    assert Jump(entry, target)[1..] == LittleEndian(d, 4);
    assert Signed(FromLittleEndian(LittleEndian(d, 4)), 4) == d by {
      PowValues();
      SignedRoundTrip(d, 4);
    }
    DisplacementLands(entry, target);
  }

  /** In user space a target is in reach exactly when some `jmp rel32` at the entry goes there. */
  lemma InReachJustWhen(entry: nat, target: nat)
    requires entry + WINDOW < 0x8000_0000_0000_0000 && target < 0x8000_0000_0000_0000
    ensures InReach(entry, target) <==> exists code: Window :: code[0] == JMP && JumpTarget(entry, code) == target
  {
    if InReach(entry, target) {
      JumpDecodes(entry, target);
    }
    forall code: Window | code[0] == JMP && JumpTarget(entry, code) == target
      ensures InReach(entry, target)
    {
      FourBytes(code[1..]);
    }
  }

  lemma FourBytes(s: seq<byte>)
    requires |s| == 4
    ensures -0x8000_0000 <= Signed(FromLittleEndian(s), 4) <= 0x7FFF_FFFF
  {
    PowValues();
    FromLittleEndianRoundTrip(s);
  }

  /** Two addresses of user space closer than the allocator's limit reach each other by `jmp rel32`. */
  lemma NearIsInReach(entry: nat, target: nat)
    requires entry + WINDOW < 0x8000_0000_0000_0000 && target < 0x8000_0000_0000_0000
    requires entry - 0x7FFF_F000 < target < entry + 0x7FFF_F000
    ensures InReach(entry, target)
  {
  }
}
