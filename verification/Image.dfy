/** Building the candidate image: sections, trampolines, then relocations. */
module Image {
  import opened Words
  import opened Wrappers
  import opened Fields
  import opened Layout
  import opened Relocations

  /** The plan is the object's own, its image fits the address space, and a section has no more bytes
      than its size. */
  ghost predicate Planned(link: Link, placed: seq<nat>, slots: seq<nat>) {
    && Describes(link.obj, link.plan, placed, slots)
    && link.base + link.plan.imageSize <= TWO_64
    && (forall i: nat :: i in link.plan.sectionOffset <==> link.obj.Placed(i))
    && forall i :: 0 <= i < |link.obj.sections| ==> |link.obj.sections[i].bytes| <= link.obj.sections[i].size
  }

  predicate InSection(link: Link, i: nat, b: int) {
    i in link.plan.sectionOffset && i < |link.obj.sections|
    && link.plan.sectionOffset[i] <= b < link.plan.sectionOffset[i] + link.obj.sections[i].size
  }

  predicate InSlot(link: Link, s: nat, b: int) {
    s in link.plan.trampoline && link.plan.trampoline[s] <= b < link.plan.trampoline[s] + TRAMPOLINE_SIZE
  }

  lemma SectionPieceAt(link: Link, placed: seq<nat>, slots: seq<nat>, i: nat) returns (a: nat)
    requires Planned(link, placed, slots) && i in link.plan.sectionOffset
    ensures a < |placed| && placed[a] == i
    ensures Pieces(link.obj, link.plan, placed, slots)[a] == SectionPiece(link.obj, link.plan, i)
    ensures i < |link.obj.sections|
    ensures link.plan.sectionOffset[i] + link.obj.sections[i].size <= link.plan.imageSize
  {
    assert i in placed;
    a :| 0 <= a < |placed| && placed[a] == i;
    assert link.obj.Placed(i);
  }

  lemma SlotPieceAt(link: Link, placed: seq<nat>, slots: seq<nat>, s: nat) returns (a: nat)
    requires Planned(link, placed, slots) && s in link.plan.trampoline
    ensures a < |slots| && slots[a] == s
    ensures Pieces(link.obj, link.plan, placed, slots)[|placed| + a] == SlotPiece(link.plan, s)
    ensures link.plan.trampoline[s] + TRAMPOLINE_SIZE <= link.plan.imageSize
  {
    assert s in slots;
    a :| 0 <= a < |slots| && slots[a] == s;
  }

  /** No byte of the image belongs to two pieces. */
  lemma OneHome(link: Link, placed: seq<nat>, slots: seq<nat>, b: int)
    requires Planned(link, placed, slots)
    ensures forall i: nat, j: nat :: InSection(link, i, b) && InSection(link, j, b) ==> i == j
    ensures forall i: nat, s: nat :: InSection(link, i, b) ==> !InSlot(link, s, b)
    ensures forall s: nat, t: nat :: InSlot(link, s, b) && InSlot(link, t, b) ==> s == t
  {
    forall i: nat, j: nat | InSection(link, i, b) && InSection(link, j, b)
      ensures i == j
    {
      var x := SectionPieceAt(link, placed, slots, i);
      var y := SectionPieceAt(link, placed, slots, j);
    }
    forall i: nat, s: nat | InSection(link, i, b) && InSlot(link, s, b)
      ensures false
    {
      var x := SectionPieceAt(link, placed, slots, i);
      var y := SlotPieceAt(link, placed, slots, s);
    }
    forall s: nat, t: nat | InSlot(link, s, b) && InSlot(link, t, b)
      ensures s == t
    {
      var x := SlotPieceAt(link, placed, slots, s);
      var y := SlotPieceAt(link, placed, slots, t);
    }
  }

  // ---- before relocation ----

  function SectionByte(link: Link, i: nat, b: int): byte
    requires InSection(link, i, b)
  {
    var j := b - link.plan.sectionOffset[i];
    if j < |link.obj.sections[i].bytes| then link.obj.sections[i].bytes[j] else 0
  }

  /** The trampoline of a call target: to its definition, or a placeholder while it has none. */
  function SlotStub(link: Link, s: nat): (r: seq<byte>)
    ensures |r| == TRAMPOLINE_SIZE
  {
    Stub(if s in link.calls then link.calls[s] else 0)
  }

  /** One byte of the image: its section's byte, its trampoline's, or zero between the pieces. */
  ghost predicate RightByte(link: Link, n: nat, done: set<nat>, b: int, v: byte) {
    && (forall i: nat :: i < n && InSection(link, i, b) ==> v == SectionByte(link, i, b))
    && (forall s :: s in done && InSlot(link, s, b) ==> v == SlotStub(link, s)[b - link.plan.trampoline[s]])
    && ((forall i: nat :: i < n ==> !InSection(link, i, b)) && (forall s :: s in done ==> !InSlot(link, s, b)) ==> v == 0)
  }

  ghost predicate Laid(link: Link, image: seq<byte>, n: nat, done: set<nat>) {
    |image| == link.plan.imageSize && forall b :: 0 <= b < |image| ==> RightByte(link, n, done, b, image[b])
  }

  method LayImage(link: Link, ghost placed: seq<nat>, ghost slots: seq<nat>) returns (image: array<byte>, pending: seq<Fixup>)
    requires Planned(link, placed, slots)
    ensures fresh(image) && Laid(link, image[..], |link.obj.sections|, link.plan.trampoline.Keys)
    ensures forall f :: f in pending <==> exists s: nat :: link.Defers(s) && f == StubFixup(link, s)
    ensures link.plan.imageSize <= TWO_32 ==> FixupsApart(pending)
  {
    image := new byte[link.plan.imageSize](_ => 0);
    CopySections(link, placed, slots, image);
    pending := WriteStubs(link, placed, slots, image);
  }

  method CopySections(link: Link, ghost placed: seq<nat>, ghost slots: seq<nat>, image: array<byte>)
    requires Planned(link, placed, slots) && image.Length == link.plan.imageSize
    requires forall b :: 0 <= b < image.Length ==> image[b] == 0
    modifies image
    ensures Laid(link, image[..], |link.obj.sections|, {})
  {
    hide RightByte, Describes;
    StartsLaid(link, image[..]);
    for i := 0 to |link.obj.sections|
      invariant Laid(link, image[..], i, {})
    {
      LaysSection(link, placed, slots, image[..], i);
      if link.obj.Placed(i) {
        var x := SectionPieceAt(link, placed, slots, i);
        WriteBytes(image, link.plan.sectionOffset[i], link.obj.sections[i].bytes);
      }
    }
  }

  lemma StartsLaid(link: Link, image: seq<byte>)
    requires |image| == link.plan.imageSize && forall b :: 0 <= b < |image| ==> image[b] == 0
    ensures Laid(link, image, 0, {})
  {
  }

  lemma LaysSection(link: Link, placed: seq<nat>, slots: seq<nat>, image: seq<byte>, i: nat)
    requires Planned(link, placed, slots) && i < |link.obj.sections| && Laid(link, image, i, {})
    ensures Laid(link, if link.obj.Placed(i) then Overwrite(image, link.plan.sectionOffset[i], link.obj.sections[i].bytes) else image, i + 1, {})
  {
    hide Describes, RightByte, InSection, InSlot;
    var now := if link.obj.Placed(i) then Overwrite(image, link.plan.sectionOffset[i], link.obj.sections[i].bytes) else image;
    forall b | 0 <= b < |now|
      ensures RightByte(link, i + 1, {}, b, now[b])
    {
      OneHome(link, placed, slots, b);
      assert RightByte(link, i, {}, b, image[b]);
      if InSection(link, i, b) {
        OwnByte(link, i, b, image[b]);
        PlacedIs(link, placed, slots, i, b);
      } else {
        OtherSectionByte(link, i, b, image[b]);
        if link.obj.Placed(i) {
          OutsideSection(link, i, b);
        }
      }
    }
  }

  /** A byte of section `i`: what is copied there, and zero behind that. */
  lemma OwnByte(link: Link, i: nat, b: int, v: byte)
    requires InSection(link, i, b) && RightByte(link, i, {}, b, v)
    requires forall j: nat, k: nat :: InSection(link, j, b) && InSection(link, k, b) ==> j == k
    ensures var bytes := link.obj.sections[i].bytes; var at := link.plan.sectionOffset[i];
      RightByte(link, i + 1, {}, b, if at <= b < at + |bytes| then bytes[b - at] else v)
  {
    hide InSlot;
    var n := i;
    assert forall j: nat :: j < n ==> !InSection(link, j, b);
  }

  lemma PlacedIs(link: Link, placed: seq<nat>, slots: seq<nat>, i: nat, b: int)
    requires Planned(link, placed, slots) && InSection(link, i, b)
    ensures link.obj.Placed(i)
  {
    hide Describes;
  }

  lemma OtherSectionByte(link: Link, i: nat, b: int, v: byte)
    requires !InSection(link, i, b) && RightByte(link, i, {}, b, v)
    ensures RightByte(link, i + 1, {}, b, v)
  {
    hide InSlot, InSection, SectionByte;
  }

  lemma OutsideSection(link: Link, i: nat, b: int)
    requires i in link.plan.sectionOffset && i < |link.obj.sections| && |link.obj.sections[i].bytes| <= link.obj.sections[i].size
    requires !InSection(link, i, b)
    ensures !(link.plan.sectionOffset[i] <= b < link.plan.sectionOffset[i] + |link.obj.sections[i].bytes|)
  {
  }

  function StubFixup(link: Link, s: nat): Fixup {
    Fixup(if s < |link.obj.symbols| then link.obj.symbols[s].name else "", Code, ThroughStub,
          (if s in link.plan.trampoline then link.plan.trampoline[s] else 0) % TWO_32, 0)
  }

  /** A call target without a definition gets a placeholder and a fixup. */
  method WriteStubs(link: Link, ghost placed: seq<nat>, ghost slots: seq<nat>, image: array<byte>) returns (pending: seq<Fixup>)
    requires Planned(link, placed, slots) && Laid(link, image[..], |link.obj.sections|, {})
    modifies image
    ensures Laid(link, image[..], |link.obj.sections|, link.plan.trampoline.Keys)
    ensures forall f :: f in pending <==> exists s: nat :: link.Defers(s) && f == StubFixup(link, s)
    ensures link.plan.imageSize <= TWO_32 ==> FixupsApart(pending)
  {
    hide RightByte, Describes, StubFixup, FixupsSeparate;
    pending := [];
    var todo := link.plan.trampoline.Keys;
    assert {} == link.plan.trampoline.Keys - todo;
    while todo != {}
      invariant todo <= link.plan.trampoline.Keys && Laid(link, image[..], |link.obj.sections|, link.plan.trampoline.Keys - todo)
      invariant forall f :: f in pending <==> exists s: nat :: s !in todo && link.Defers(s) && f == StubFixup(link, s)
      invariant link.plan.imageSize <= TWO_32 ==> FixupsApart(pending)
    {
      var s: nat :| s in todo;
      var x := SlotPieceAt(link, placed, slots, s);
      LaysSlot(link, placed, slots, image[..], link.plan.trampoline.Keys - todo, s);
      assert link.plan.trampoline.Keys - todo + {s} == link.plan.trampoline.Keys - (todo - {s});
      WriteBytes(image, link.plan.trampoline[s], SlotStub(link, s));
      if s !in link.calls {
        StubsSeparate(link, placed, slots, s);
        assert forall k :: 0 <= k < |pending| ==> pending[k] in pending;
        pending := pending + [StubFixup(link, s)];
      }
      todo := todo - {s};
    }
    assert link.plan.trampoline.Keys - todo == link.plan.trampoline.Keys;
  }

  lemma StubsSeparate(link: Link, placed: seq<nat>, slots: seq<nat>, s: nat)
    requires Planned(link, placed, slots) && link.Defers(s)
    ensures link.plan.imageSize <= TWO_32 ==>
              forall t: nat :: link.Defers(t) && t != s ==> FixupsSeparate(StubFixup(link, t), StubFixup(link, s))
  {
    hide Describes;
    if link.plan.imageSize <= TWO_32 {
      var x := SlotPieceAt(link, placed, slots, s);
      forall t: nat | link.Defers(t) && t != s
        ensures FixupsSeparate(StubFixup(link, t), StubFixup(link, s))
      {
        var y := SlotPieceAt(link, placed, slots, t);
        assert StubFixup(link, s).offset == link.plan.trampoline[s];
        assert StubFixup(link, t).offset == link.plan.trampoline[t];
        var b := Max(link.plan.trampoline[s], link.plan.trampoline[t]);
        OneHome(link, placed, slots, b);
        assert !(InSlot(link, s, b) && InSlot(link, t, b));
      }
    }
  }

  lemma LaysSlot(link: Link, placed: seq<nat>, slots: seq<nat>, image: seq<byte>, done: set<nat>, s: nat)
    requires Planned(link, placed, slots) && s in link.plan.trampoline && s !in done && Laid(link, image, |link.obj.sections|, done)
    ensures Laid(link, Overwrite(image, link.plan.trampoline[s], SlotStub(link, s)), |link.obj.sections|, done + {s})
  {
    hide Describes, RightByte, SlotStub;
    var now := Overwrite(image, link.plan.trampoline[s], SlotStub(link, s));
    forall b | 0 <= b < |now|
      ensures RightByte(link, |link.obj.sections|, done + {s}, b, now[b])
    {
      OneHome(link, placed, slots, b);
      assert RightByte(link, |link.obj.sections|, done, b, image[b]);
      if InSlot(link, s, b) {
        StubByteRight(link, done, s, b);
      } else {
        OtherByteRight(link, done, s, b, image[b]);
      }
    }
  }

  lemma StubByteRight(link: Link, done: set<nat>, s: nat, b: int)
    requires InSlot(link, s, b) && s !in done
    requires forall t: nat :: InSlot(link, t, b) ==> t == s
    requires forall i: nat :: !InSection(link, i, b)
    ensures RightByte(link, |link.obj.sections|, done + {s}, b, SlotStub(link, s)[b - link.plan.trampoline[s]])
  {
    hide SlotStub;
    assert s in done + {s};
  }

  lemma OtherByteRight(link: Link, done: set<nat>, s: nat, b: int, v: byte)
    requires RightByte(link, |link.obj.sections|, done, b, v) && !InSlot(link, s, b)
    ensures RightByte(link, |link.obj.sections|, done + {s}, b, v)
  {
    hide SlotStub, InSection;
    assert forall t :: t in done ==> t in done + {s};
  }

  // ---- after relocation ----

  predicate FieldsInside(obj: ObjectFile) {
    forall k :: 0 <= k < |obj.relocations| && Patches(obj, obj.relocations[k]) ==>
      obj.relocations[k].offset + Reach(obj.relocations[k]) <= obj.sections[obj.relocations[k].target].size
  }

  /** Every field lies in its own section, and no two fields of a section share a byte. */
  predicate FieldsFit(obj: ObjectFile) {
    && FieldsInside(obj)
    && (forall k, l :: 0 <= k < l < |obj.relocations| && Patches(obj, obj.relocations[k]) && Patches(obj, obj.relocations[l]) ==>
          Separate(obj.relocations[k], obj.relocations[l]))
  }

  predicate Patches(obj: ObjectFile, rel: Relocation) {
    rel.target < |obj.sections| && obj.sections[rel.target].cls == Text && Field(rel.typ).Some?
  }

  function Reach(rel: Relocation): nat {
    if Field(rel.typ).Some? then Width(Field(rel.typ).value) else 0
  }

  predicate Separate(a: Relocation, b: Relocation) {
    a.target == b.target ==> a.offset + Reach(a) <= b.offset || b.offset + Reach(b) <= a.offset
  }

  /** A relocation that writes, writes its own field. */
  lemma EffectInField(link: Link, placed: seq<nat>, slots: seq<nat>, k: nat)
    requires Planned(link, placed, slots) && FieldsInside(link.obj) && k < |link.obj.relocations|
    ensures var rel := link.obj.relocations[k]; var e := EffectOf(link, rel);
      e.Store? || e.Defer? ==>
        Patches(link.obj, rel) && rel.target in link.plan.sectionOffset
        && e.Start() == link.plan.sectionOffset[rel.target] + rel.offset && |e.Bytes()| == Reach(rel)
        && e.Start() + |e.Bytes()| <= link.plan.imageSize
  {
    hide Describes, FieldEffect, Effect.Start, Effect.Bytes;
    var rel := link.obj.relocations[k];
    if Patches(link.obj, rel) {
      assert link.obj.Placed(rel.target);
      var x := SectionPieceAt(link, placed, slots, rel.target);
      var at := link.plan.sectionOffset[rel.target] + rel.offset;
      if rel.symbol < |link.obj.symbols| {
        FieldEffectShape(link, rel, Field(rel.typ).value, at % TWO_64);
      }
    }
  }

  lemma FieldEffectShape(link: Link, rel: Relocation, field: FieldKind, at: nat)
    requires rel.symbol < |link.obj.symbols|
    ensures var e := FieldEffect(link, rel, field, at);
      e.Store? || e.Defer? ==> e.Start() == at && |e.Bytes()| == Width(field)
  {
    hide Encode, TargetOf;
  }

  /** The touched byte lies in the section of the relocation that touches it. */
  lemma TouchedHome(link: Link, placed: seq<nat>, slots: seq<nat>, k: nat, b: int)
    requires Planned(link, placed, slots) && FieldsFit(link.obj) && k < |link.obj.relocations|
    requires Touches(Effects(link)[k], b)
    ensures var rel := link.obj.relocations[k];
      Patches(link.obj, rel) && InSection(link, rel.target, b)
      && rel.offset <= b - link.plan.sectionOffset[rel.target] < rel.offset + Reach(rel)
  {
    hide Describes, EffectOf;
    EffectInField(link, placed, slots, k);
  }

  lemma NeverBoth(link: Link, placed: seq<nat>, slots: seq<nat>, k: nat, l: nat, b: int)
    requires Planned(link, placed, slots) && FieldsFit(link.obj) && k < l < |link.obj.relocations|
    requires Touches(Effects(link)[k], b)
    ensures !Touches(Effects(link)[l], b)
  {
    hide Describes, EffectOf;
    TouchedHome(link, placed, slots, k, b);
    var x, y := link.obj.relocations[k], link.obj.relocations[l];
    assert Patches(link.obj, y) ==> Separate(x, y);
    if Touches(Effects(link)[l], b) {
      TouchedHome(link, placed, slots, l, b);
      OneHome(link, placed, slots, b);
      assert false;
    }
  }

  lemma FieldsStayApart(link: Link, placed: seq<nat>, slots: seq<nat>)
    requires Planned(link, placed, slots) && FieldsFit(link.obj)
    ensures FieldsApart(Effects(link), link.plan.imageSize)
  {
    hide Describes, EffectOf;
    var effects := Effects(link);
    forall k | 0 <= k < |effects|
      ensures effects[k].Start() + |effects[k].Bytes()| <= link.plan.imageSize
    {
      EffectInField(link, placed, slots, k);
    }
    forall k, l, b | 0 <= k < l < |effects| && Touches(effects[k], b)
      ensures !Touches(effects[l], b)
    {
      NeverBoth(link, placed, slots, k, l, b);
    }
  }

  /** The finished image: every field holds what its relocation asks for, and every other byte is the
      byte of its section, of its trampoline, or zero. */
  ghost predicate Faithful(link: Link, image: seq<byte>) {
    && |image| == link.plan.imageSize
    && FieldsHold(Effects(link), image)
    && (forall b :: 0 <= b < |image| && Untouched(Effects(link), b) ==>
          RightByte(link, |link.obj.sections|, link.plan.trampoline.Keys, b, image[b]))
  }

  predicate FieldsHold(effects: seq<Effect>, image: seq<byte>) {
    forall k :: 0 <= k < |effects| ==> FieldHolds(effects[k], image)
  }

  predicate FieldHolds(e: Effect, image: seq<byte>) {
    e.Start() + |e.Bytes()| <= |image| && image[e.Start()..e.Start() + |e.Bytes()|] == e.Bytes()
  }

  predicate Untouched(effects: seq<Effect>, b: int) {
    forall k :: 0 <= k < |effects| ==> !Touches(effects[k], b)
  }

  /** The fixups are exactly the deferred fields and the calls without a definition. */
  ghost predicate FixupsAre(link: Link, fixups: seq<Fixup>) {
    forall f :: f in fixups <==>
      (exists s: nat :: link.Defers(s) && f == StubFixup(link, s))
      || (exists k :: 0 <= k < |Effects(link)| && Effects(link)[k].Defer? && Effects(link)[k].fixup == f)
  }

  /** Build the image of an accepted object, and record every field and call that the linking of the
      generation still has to fill. `wild` tells that a store beyond the image came first, which is undefined. */
  method BuildImage(link: Link, ghost placed: seq<nat>, ghost slots: seq<nat>)
    returns (ok: bool, wild: bool, image: array<byte>, fixups: seq<Fixup>)
    requires Planned(link, placed, slots)
    ensures ok <==> Accepted(Effects(link)) && Inside(Effects(link), link.plan.imageSize)
    ensures wild ==> !ok
    ensures wild <==> exists k: nat :: Wild(Effects(link), link.plan.imageSize, k) && Tame(Effects(link), link.plan.imageSize, k)
    ensures ok ==> fresh(image) && Relocated(link, image[..]) && FixupsAre(link, fixups)
    ensures ok && FieldsFit(link.obj) ==> Faithful(link, image[..])
    ensures ok && FieldsFit(link.obj) && link.plan.imageSize <= TWO_32 ==> FixupsApart(fixups)
  {
    hide Describes, EffectOf, RightByte, FixupsSeparate, StubFixup, FieldsFit;
    var pending, deferred;
    image, pending := LayImage(link, placed, slots);
    ghost var laid := image[..];
    ok, wild, deferred := ApplyRelocations(link, image);
    fixups := pending + deferred;
    if ok {
      DeferredExact(Effects(link), |Effects(link)|);
      assert forall f :: f in fixups <==> f in pending || f in deferred;
      if FieldsFit(link.obj) {
        FieldsStayApart(link, placed, slots);
        RelocatedFaithful(link, laid);
        FixupsStayApart(link, placed, slots);
        assert forall k :: 0 <= k < |pending| ==> pending[k] in pending;
        assert forall k :: 0 <= k < |deferred| ==> deferred[k] in deferred;
      }
    }
  }

  /** Without regard to where the fields are: all writes, in order, over the image as it was laid. */
  ghost predicate Relocated(link: Link, image: seq<byte>) {
    exists laid :: Laid(link, laid, |link.obj.sections|, link.plan.trampoline.Keys) && image == Applied(Effects(link), laid, |Effects(link)|)
  }

  /** Fields inside their sections are never written beyond the image. */
  lemma FieldsInsideImage(link: Link, placed: seq<nat>, slots: seq<nat>)
    requires Planned(link, placed, slots) && FieldsInside(link.obj)
    ensures Inside(Effects(link), link.plan.imageSize)
  {
    hide Describes, EffectOf, FieldsInside;
    forall k | 0 <= k < |Effects(link)| && Effects(link)[k].Store?
      ensures Effects(link)[k].at + |Effects(link)[k].bytes| <= link.plan.imageSize
    {
      EffectInField(link, placed, slots, k);
    }
  }

  /** A deferred field lies in text, so no trampoline shares a byte with it. */
  lemma FixupsStayApart(link: Link, placed: seq<nat>, slots: seq<nat>)
    requires Planned(link, placed, slots) && FieldsFit(link.obj)
    requires FieldsApart(Effects(link), link.plan.imageSize)
    ensures link.plan.imageSize <= TWO_32 ==> FixupsApart(Deferred(Effects(link), |Effects(link)|))
    ensures link.plan.imageSize <= TWO_32 ==> forall k, s: nat :: 0 <= k < |Effects(link)| && Effects(link)[k].Defer? && link.Defers(s) ==>
              FixupsSeparate(StubFixup(link, s), Effects(link)[k].fixup)
  {
    hide Describes, EffectOf;
    if link.plan.imageSize <= TWO_32 {
      forall k | 0 <= k < |Effects(link)|
        ensures RecordedInPlace(Effects(link)[k])
      {
        DeferredInPlace(link, placed, slots, k);
      }
      DeferredApart(Effects(link), link.plan.imageSize, |Effects(link)|);
      forall k, s: nat | 0 <= k < |Effects(link)| && Effects(link)[k].Defer? && link.Defers(s)
        ensures FixupsSeparate(StubFixup(link, s), Effects(link)[k].fixup)
      {
        StubAndField(link, placed, slots, k, s);
      }
    }
  }

  lemma DeferredInPlace(link: Link, placed: seq<nat>, slots: seq<nat>, k: nat)
    requires Planned(link, placed, slots) && FieldsFit(link.obj) && k < |link.obj.relocations| && link.plan.imageSize <= TWO_32
    ensures RecordedInPlace(Effects(link)[k])
  {
    hide Describes;
    EffectInField(link, placed, slots, k);
  }

  lemma StubAndField(link: Link, placed: seq<nat>, slots: seq<nat>, k: nat, s: nat)
    requires Planned(link, placed, slots) && FieldsFit(link.obj) && k < |link.obj.relocations| && link.plan.imageSize <= TWO_32
    requires Effects(link)[k].Defer? && link.Defers(s)
    ensures FixupsSeparate(StubFixup(link, s), Effects(link)[k].fixup)
  {
    hide Describes, EffectOf, FieldsFit;
    DeferredInPlace(link, placed, slots, k);
    var x := SlotPieceAt(link, placed, slots, s);
    var e := Effects(link)[k];
    var b := Max(e.at, link.plan.trampoline[s]);
    assert StubFixup(link, s).offset == link.plan.trampoline[s];
    OneHome(link, placed, slots, b);
    if Touches(e, b) {
      TouchedHome(link, placed, slots, k, b);
      assert !InSlot(link, s, b);
    }
  }

  lemma RelocatedFaithful(link: Link, laid: seq<byte>)
    requires Laid(link, laid, |link.obj.sections|, link.plan.trampoline.Keys)
    requires FieldsApart(Effects(link), link.plan.imageSize)
    ensures Faithful(link, Applied(Effects(link), laid, |Effects(link)|))
  {
    hide EffectOf, RightByte, FieldHolds, Touches;
    var effects := Effects(link);
    var image := Applied(effects, laid, |effects|);
    forall k | 0 <= k < |effects|
      ensures FieldHolds(effects[k], image)
    {
      AppliedField(effects, laid, k);
    }
    forall b | 0 <= b < |image| && Untouched(effects, b)
      ensures RightByte(link, |link.obj.sections|, link.plan.trampoline.Keys, b, image[b])
    {
      AppliedFrame(effects, laid, |effects|, b);
    }
  }

  lemma AppliedField(effects: seq<Effect>, laid: seq<byte>, k: nat)
    requires FieldsApart(effects, |laid|) && k < |effects|
    ensures FieldHolds(effects[k], Applied(effects, laid, |effects|))
  {
    hide Applied, Effect.Start, Effect.Bytes, FieldsApart, FieldHolds;
    var now, at, bytes := Applied(effects, laid, |effects|), effects[k].Start(), effects[k].Bytes();
    FieldInside(effects, |laid|, k);
    forall b | at <= b < at + |bytes|
      ensures now[b] == bytes[b - at]
    {
      AppliedByte(effects, laid, k, b);
    }
    HoldsWhen(effects[k], now, at, bytes);
  }

  lemma HoldsWhen(e: Effect, image: seq<byte>, at: nat, bytes: seq<byte>)
    requires e.Start() == at && e.Bytes() == bytes && at + |bytes| <= |image|
    requires forall b :: at <= b < at + |bytes| ==> image[b] == bytes[b - at]
    ensures FieldHolds(e, image)
  {
    hide Effect.Start, Effect.Bytes;
  }

  lemma AppliedByte(effects: seq<Effect>, laid: seq<byte>, k: nat, b: nat)
    requires FieldsApart(effects, |laid|) && k < |effects| && effects[k].Start() <= b < effects[k].Start() + |effects[k].Bytes()|
    ensures b < |laid| && Applied(effects, laid, |effects|)[b] == effects[k].Bytes()[b - effects[k].Start()]
  {
    hide Applied, Effect.Start, Effect.Bytes, Touches, FieldsApart;
    FieldInside(effects, |laid|, k);
    FieldTouched(effects[k], b);
    AppliedHolds(effects, laid, |effects|, k, b);
  }

  lemma FieldInside(effects: seq<Effect>, size: nat, k: nat)
    requires FieldsApart(effects, size) && k < |effects|
    ensures effects[k].Start() + |effects[k].Bytes()| <= size
  {
    hide Touches, Effect.Start, Effect.Bytes;
  }

  lemma FieldTouched(e: Effect, b: nat)
    requires e.Start() <= b < e.Start() + |e.Bytes()|
    ensures Touches(e, b)
  {
    hide Effect.Start, Effect.Bytes;
  }
}
