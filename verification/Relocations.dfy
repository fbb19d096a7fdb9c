/** Applying an object's relocations to its candidate image. */
module Relocations {
  import opened Words
  import opened Wrappers
  import opened Fields
  import opened Layout

  /** Storage a mutable symbol is bound to. */
  datatype Storage = Storage(address: address, size: nat)

  datatype Role = Code | Variable
  datatype FixupKind = InPlace(field: FieldKind) | ThroughStub

  /** A field left for the linking of the generation. Offsets are recorded in 32 bits. */
  datatype Fixup = Fixup(name: string, role: Role, kind: FixupKind, offset: nat, addend: int)

  function FixupWidth(f: Fixup): nat {
    match f.kind
    case InPlace(field) => Width(field)
    case ThroughStub => TRAMPOLINE_SIZE
  }

  predicate FixupsSeparate(a: Fixup, b: Fixup) {
    a.offset + FixupWidth(a) <= b.offset || b.offset + FixupWidth(b) <= a.offset
  }

  /** The fields still to be filled do not overlap. */
  predicate FixupsApart(fixups: seq<Fixup>) {
    forall k, l :: 0 <= k < l < |fixups| ==> FixupsSeparate(fixups[k], fixups[l])
  }

  /** What the relocation loop reads. The maps hold what the process answers for each symbol index: its
      definition as a call target and as itself, its storage, and the storage base of a data section. */
  datatype Link = Link(
    obj: ObjectFile, plan: Plan, base: nat,
    calls: map<nat, address>, externals: map<nat, address>, storage: map<nat, Storage>, anchors: map<nat, address>)
  {
    predicate Defers(s: nat) {
      s in plan.trampoline && s !in calls
    }
  }

  datatype Target = Known(address: address) | Undefined | Unmapped

  datatype Effect = Skip | Reject | Store(at: nat, bytes: seq<byte>) | Defer(at: nat, width: nat, fixup: Fixup) {
    /** Where the image changes. */
    function Start(): nat {
      if Store? || Defer? then at else 0
    }

    /** What is written there: a deferred field is cleared. */
    function Bytes(): seq<byte> {
      match this
      case Store(_, bytes) => bytes
      case Defer(_, width, _) => seq(width, _ => 0)
      case _ => []
    }
  }

  function Field(typ: RelocationType): Option<FieldKind> {
    match typ
    case Pc32 => Some(Relative32)
    case Plt32 => Some(Relative32)
    case Abs32 => Some(Absolute32)
    case Abs32Signed => Some(Absolute32Signed)
    case Abs64 => Some(Absolute64)
    case Unsupported => None
  }

  function OffsetOf(plan: Plan, section: nat): nat {
    if section in plan.sectionOffset then plan.sectionOffset[section] else 0
  }

  /** The offset in a data section that an access relative to it is taken to reach: the assembler folds
      the distance from the field to the end of the instruction into the addend. */
  function Landing(rel: Relocation): int {
    if rel.typ == Pc32 || rel.typ == Plt32 then rel.addend + 4 else rel.addend
  }

  predicate Covers(link: Link, section: nat, i: nat, off: int) {
    i < |link.obj.symbols| && link.obj.symbols[i].typ == Object && link.obj.symbols[i].section == section
    && i in link.storage && link.obj.symbols[i].value <= off < link.obj.symbols[i].value + link.obj.symbols[i].size
  }

  /** The first object symbol of the section that covers the offset. */
  function Cover(link: Link, section: nat, off: int, from: nat): (r: Option<nat>)
    requires from <= |link.obj.symbols|
    ensures r.Some? ==> Covers(link, section, r.value, off) && from <= r.value
    ensures forall i: nat :: from <= i && Covers(link, section, i, off) ==> r.Some? && r.value <= i
    decreases |link.obj.symbols| - from
  {
    if from == |link.obj.symbols| then None
    else if Covers(link, section, from, off) then Some(from)
    else Cover(link, section, off, from + 1)
  }

  /** Where the storage behind symbol `i` puts the start of the symbol's section. */
  function Bias(link: Link, i: nat): address
    requires i in link.storage && i < |link.obj.symbols|
  {
    (link.storage[i].address - link.obj.symbols[i].value) % TWO_64
  }

  /** A defined symbol: in the image, or bound to storage. */
  function Defined(link: Link, s: nat): Target
    requires s < |link.obj.symbols|
  {
    var sym := link.obj.symbols[s];
    if sym.section >= |link.obj.sections| then Unmapped
    else if link.obj.sections[sym.section].cls == Data then
      if sym.typ == SectionSymbol then
        if sym.section in link.anchors then Known(link.anchors[sym.section]) else Unmapped
      else if s in link.storage then Known(link.storage[s].address)
      else Unmapped
    else if sym.typ == SectionSymbol then Known((link.base + OffsetOf(link.plan, sym.section)) % TWO_64)
    else Known((link.base + OffsetOf(link.plan, sym.section) + sym.value) % TWO_64)
  }

  function TargetOf(link: Link, rel: Relocation): Target
    requires rel.symbol < |link.obj.symbols|
  {
    var sym := link.obj.symbols[rel.symbol];
    if rel.typ == Plt32 && sym.section == 0 then
      if rel.symbol in link.plan.trampoline then Known((link.base + link.plan.trampoline[rel.symbol]) % TWO_64) else Unmapped
    else if sym.typ == SectionSymbol && sym.section < |link.obj.sections| && link.obj.sections[sym.section].cls == Data then
      if rel.typ in {Pc32, Plt32} && rel.addend > 0x7FFF_FFFF_FFFF_FFFF - 4 then Unmapped
      else
        var cover := Cover(link, sym.section, Landing(rel), 0);
        if cover.Some? then Known(Bias(link, cover.value)) else Defined(link, rel.symbol)
    else if sym.section == 0 then
      if rel.symbol in link.externals then Known(link.externals[rel.symbol]) else Undefined
    else Defined(link, rel.symbol)
  }

  /** What the loop does for one relocation. */
  function EffectOf(link: Link, rel: Relocation): Effect
  {
    if rel.target >= |link.obj.sections| then Skip
    else if link.obj.sections[rel.target].cls != Text then
      if link.obj.sections[rel.target].cls == Rodata && !(".eh_frame" <= link.obj.sections[rel.target].name) then Reject else Skip
    else if rel.symbol >= |link.obj.symbols| || Field(rel.typ).None? then Reject
    else FieldEffect(link, rel, Field(rel.typ).value, (OffsetOf(link.plan, rel.target) + rel.offset) % TWO_64)
  }

  function FieldEffect(link: Link, rel: Relocation, field: FieldKind, at: nat): Effect
    requires rel.symbol < |link.obj.symbols|
  {
    var sym := link.obj.symbols[rel.symbol];
    match TargetOf(link, rel)
    case Unmapped => Reject
    case Known(s) =>
      var bytes := Encode(field, s, rel.addend, (link.base + at) % TWO_64);
      if bytes.Some? then Store(at, bytes.value) else Reject
    case Undefined =>
      if at > link.plan.imageSize || Width(field) > link.plan.imageSize - at then Reject
      else Defer(at, Width(field), Fixup(sym.name, if sym.typ == Function then Code else Variable, InPlace(field), at % TWO_32, rel.addend))
  }

  // ---- the loop over all relocations ----

  function Overwrite(image: seq<byte>, at: nat, s: seq<byte>): (r: seq<byte>)
    ensures |r| == |image|
    ensures forall i :: 0 <= i < |image| ==> r[i] == if at <= i < at + |s| then s[i - at] else image[i]
  {
    seq(|image|, i requires 0 <= i < |image| => if at <= i < at + |s| then s[i - at] else image[i])
  }

  function Effects(link: Link): (r: seq<Effect>)
    ensures |r| == |link.obj.relocations|
  {
    seq(|link.obj.relocations|, k requires 0 <= k < |link.obj.relocations| => EffectOf(link, link.obj.relocations[k]))
  }

  /** The image after the first `n` effects. */
  function Applied(effects: seq<Effect>, image: seq<byte>, n: nat): (r: seq<byte>)
    requires n <= |effects|
    ensures |r| == |image|
  {
    if n == 0 then image
    else Overwrite(Applied(effects, image, n - 1), effects[n - 1].Start(), effects[n - 1].Bytes())
  }

  /** The fields the first `n` effects leave to the linking of the generation, in order. */
  function Deferred(effects: seq<Effect>, n: nat): seq<Fixup>
    requires n <= |effects|
  {
    if n == 0 then []
    else Deferred(effects, n - 1) + if effects[n - 1].Defer? then [effects[n - 1].fixup] else []
  }

  predicate Touches(e: Effect, i: int) {
    e.Start() <= i < e.Start() + |e.Bytes()|
  }

  /** The fields lie in the image and no two of them share a byte. */
  ghost predicate FieldsApart(effects: seq<Effect>, size: nat) {
    && (forall k :: 0 <= k < |effects| ==> effects[k].Start() + |effects[k].Bytes()| <= size)
    && (forall k, l, i :: 0 <= k < l < |effects| && Touches(effects[k], i) ==> !Touches(effects[l], i))
  }

  ghost predicate Inside(effects: seq<Effect>, size: nat) {
    forall k :: 0 <= k < |effects| && effects[k].Store? ==> effects[k].at + |effects[k].bytes| <= size
  }

  /** The store reaches beyond the image. */
  predicate Wild(effects: seq<Effect>, size: nat, k: nat) {
    k < |effects| && effects[k].Store? && effects[k].at + |effects[k].bytes| > size
  }

  /** Among the first `n` effects none is refused and none is wild. */
  predicate Tame(effects: seq<Effect>, size: nat, n: nat) {
    forall k: nat :: k < n <= |effects| ==> !effects[k].Reject? && !Wild(effects, size, k)
  }

  predicate Accepted(effects: seq<Effect>) {
    forall k :: 0 <= k < |effects| ==> !effects[k].Reject?
  }

  /** The loop itself checks the bounds of deferred fields only. What a store beyond the image does is undefined: `wild` tells
      that the loop came to one. */
  method ApplyRelocations(link: Link, image: array<byte>) returns (ok: bool, wild: bool, fixups: seq<Fixup>)
    requires image.Length == link.plan.imageSize
    modifies image
    ensures ok <==> Accepted(Effects(link)) && Inside(Effects(link), image.Length)
    ensures wild ==> !ok
    ensures wild <==> exists k: nat :: Wild(Effects(link), image.Length, k) && Tame(Effects(link), image.Length, k)
    ensures ok ==> image[..] == Applied(Effects(link), old(image[..]), |link.obj.relocations|)
    ensures ok ==> fixups == Deferred(Effects(link), |link.obj.relocations|)
  {
    hide EffectOf, Overwrite, Effect.Bytes, Effect.Start;
    fixups := [];
    ghost var effects := Effects(link);
    for k := 0 to |link.obj.relocations|
      invariant Tame(effects, image.Length, k)
      invariant image[..] == Applied(effects, old(image[..]), k)
      invariant fixups == Deferred(effects, k)
    {
      var e := EffectOf(link, link.obj.relocations[k]);
      assert e == effects[k];
      if e.Reject? {
        return false, false, fixups;
      }
      if e.Store? && e.at + |e.bytes| > image.Length {
        assert Wild(effects, image.Length, k);
        return false, true, fixups;
      }
      DeferredInside(link, link.obj.relocations[k]);
      WriteField(image, e);
      if e.Defer? {
        fixups := fixups + [e.fixup];
      }
    }
    ok, wild := true, false;
  }

  method WriteField(image: array<byte>, e: Effect)
    requires e.Store? ==> e.at + |e.bytes| <= image.Length
    requires e.Defer? ==> e.at + e.width <= image.Length
    modifies image
    ensures image[..] == Overwrite(old(image[..]), e.Start(), e.Bytes())
  {
    if e.Store? || e.Defer? {
      WriteBytes(image, e.at, e.Bytes());
    }
  }

  lemma DeferredInside(link: Link, rel: Relocation)
    ensures var e := EffectOf(link, rel); e.Defer? ==> e.at + e.width <= link.plan.imageSize
  {
  }

  method WriteBytes(image: array<byte>, at: nat, s: seq<byte>)
    requires at + |s| <= image.Length
    modifies image
    ensures image[..] == Overwrite(old(image[..]), at, s)
  {
    for i := 0 to |s|
      invariant forall j :: 0 <= j < image.Length ==> image[j] == if at <= j < at + i then s[j - at] else old(image[j])
    {
      image[at + i] := s[i];
    }
  }

  /** After the loop every field still holds what its own relocation wrote. */
  lemma {:induction false} AppliedHolds(effects: seq<Effect>, image: seq<byte>, n: nat, k: nat, i: nat)
    requires k < n <= |effects| && FieldsApart(effects, |image|) && Touches(effects[k], i)
    ensures Applied(effects, image, n)[i] == effects[k].Bytes()[i - effects[k].Start()]
  {
    if k < n - 1 {
      AppliedHolds(effects, image, n - 1, k, i);
      assert !Touches(effects[n - 1], i);
    }
  }

  lemma {:induction false} AppliedFrame(effects: seq<Effect>, image: seq<byte>, n: nat, i: nat)
    requires n <= |effects| && i < |image|
    requires forall k :: 0 <= k < n ==> !Touches(effects[k], i)
    ensures Applied(effects, image, n)[i] == image[i]
  {
    if n > 0 {
      AppliedFrame(effects, image, n - 1, i);
    }
  }

  /** The recorded fields are exactly the deferred ones. */
  lemma {:induction false} DeferredExact(effects: seq<Effect>, n: nat)
    requires n <= |effects|
    ensures forall f :: f in Deferred(effects, n) <==> exists k :: 0 <= k < n && effects[k].Defer? && effects[k].fixup == f
  {
    if n > 0 {
      DeferredExact(effects, n - 1);
    }
  }

  /** A deferred field is recorded where it is. */
  predicate RecordedInPlace(e: Effect) {
    e.Defer? ==> e.fixup.offset == e.at && FixupWidth(e.fixup) == e.width > 0
  }

  lemma {:induction false} DeferredApart(effects: seq<Effect>, size: nat, n: nat)
    requires n <= |effects| && FieldsApart(effects, size) && forall k :: 0 <= k < |effects| ==> RecordedInPlace(effects[k])
    ensures FixupsApart(Deferred(effects, n))
  {
    if n > 0 {
      DeferredApart(effects, size, n - 1);
      if effects[n - 1].Defer? {
        DeferredExact(effects, n - 1);
        var before := Deferred(effects, n - 1);
        forall i | 0 <= i < |before|
          ensures FixupsSeparate(before[i], effects[n - 1].fixup)
        {
          assert before[i] in before;
          var k :| 0 <= k < n - 1 && effects[k].Defer? && effects[k].fixup == before[i];
          SharedByte(effects, size, k, n - 1);
        }
      }
    }
  }

  lemma SharedByte(effects: seq<Effect>, size: nat, k: nat, l: nat)
    requires k < l < |effects| && FieldsApart(effects, size) && effects[k].Defer? && effects[l].Defer?
    requires RecordedInPlace(effects[k]) && RecordedInPlace(effects[l])
    ensures FixupsSeparate(effects[k].fixup, effects[l].fixup)
  {
    var b := Max(effects[k].at, effects[l].at);
    assert Touches(effects[k], b) ==> !Touches(effects[l], b);
  }
}
