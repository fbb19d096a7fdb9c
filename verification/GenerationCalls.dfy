/** Calls across the objects of one generation, from the calling instruction to the first byte of the callee. */
module GenerationCalls {
  import opened Wrappers
  import opened Words
  import opened Fields
  import opened Layout
  import opened Relocations
  import opened Image
  import opened Access
  import opened Linker
  import opened Loader

  /** Linking fills deferred fields and placeholder trampolines; a field resolved by the load is none of them. */
  lemma ResolvedKept(
    link: Link, placed: seq<nat>, slots: seq<nat>, fixups: seq<Fixup>, table: map<string, Linked>, was: seq<byte>, k: nat)
    requires Planned(link, placed, slots) && FieldsFit(link.obj) && Faithful(link, was) && link.plan.imageSize <= TWO_32
    requires FixupsAre(link, fixups) && k < |link.obj.relocations| && EffectOf(link, link.obj.relocations[k]).Store?
    requires link.base < TWO_64 && forall j :: 0 <= j < |fixups| ==> Fillable(table, link.base, |was|, fixups[j])
    ensures FieldBytes(link, Applied(Fillings(table, link.base, fixups), was, |fixups|), k) == FieldBytes(link, was, k)
  {
    hide Describes, EffectOf, FieldsFit, Faithful, FixupBytes, Effect.Start, Effect.Bytes, FixupsAre;
    var fillings := Fillings(table, link.base, fixups);
    var now := Applied(fillings, was, |fixups|);
    var e := EffectOf(link, link.obj.relocations[k]);
    FieldBytesAre(link, was, placed, slots, k);
    forall b | e.Start() <= b < e.Start() + |e.Bytes()| && b < |was|
      ensures now[b] == was[b]
    {
      forall j | 0 <= j < |fixups|
        ensures !Touches(fillings[j], b)
      {
        FillingElsewhere(link, placed, slots, fixups, table, |was|, k, j, b);
      }
      AppliedFrame(fillings, was, |fixups|, b);
    }
  }

  lemma FillingTouches(table: map<string, Linked>, base: address, size: nat, f: Fixup, b: int)
    requires Fillable(table, base, size, f)
    ensures Touches(Filling(table, base, f), b) <==> f.offset <= b < f.offset + FixupWidth(f)
  {
    hide FixupBytes;
  }

  lemma FillingElsewhere(
    link: Link, placed: seq<nat>, slots: seq<nat>, fixups: seq<Fixup>, table: map<string, Linked>, size: nat, k: nat, j: nat, b: int)
    requires Planned(link, placed, slots) && FieldsFit(link.obj) && link.plan.imageSize <= TWO_32
    requires FixupsAre(link, fixups) && k < |link.obj.relocations| && EffectOf(link, link.obj.relocations[k]).Store?
    requires Touches(EffectOf(link, link.obj.relocations[k]), b)
    requires link.base < TWO_64 && j < |fixups| && Fillable(table, link.base, size, fixups[j])
    ensures !Touches(Filling(table, link.base, fixups[j]), b)
  {
    hide Describes, EffectOf, FieldsFit, Touches, Filling, Fillable, StubFixup;
    var f := fixups[j];
    assert f in fixups;
    FillingTouches(table, link.base, size, f, b);
    assert Effects(link)[k] == EffectOf(link, link.obj.relocations[k]);
    if s: nat :| link.Defers(s) && f == StubFixup(link, s) {
      TouchedHome(link, placed, slots, k, b);
      OneHome(link, placed, slots, b);
      StubExtent(link, placed, slots, s, b);
    } else {
      var l :| 0 <= l < |Effects(link)| && Effects(link)[l].Defer? && Effects(link)[l].fixup == f;
      DeferredInPlace(link, placed, slots, l);
      DeferredExtent(Effects(link)[l], b);
      if l > k {
        NeverBoth(link, placed, slots, k, l, b);
      } else if Touches(Effects(link)[l], b) {
        NeverBoth(link, placed, slots, l, k, b);
      }
    }
  }

  lemma StubExtent(link: Link, placed: seq<nat>, slots: seq<nat>, s: nat, b: int)
    requires Planned(link, placed, slots) && link.Defers(s) && link.plan.imageSize <= TWO_32
    ensures var f := StubFixup(link, s); f.offset <= b < f.offset + FixupWidth(f) <==> InSlot(link, s, b)
  {
    hide Describes;
    var x := SlotPieceAt(link, placed, slots, s);
  }

  lemma DeferredExtent(e: Effect, b: int)
    requires e.Defer? && RecordedInPlace(e)
    ensures e.fixup.offset <= b < e.fixup.offset + FixupWidth(e.fixup) <==> Touches(e, b)
  {
  }

  /** A call field that the load resolved to a trampoline, and a trampoline that linking filled: the call arrives at the
      first definition of its name in the generation, which one of the generation's objects defines. */
  lemma DeferredCallReaches(
    link: Link, placed: seq<nat>, slots: seq<nat>, fixups: seq<Fixup>, table: map<string, Linked>, all: seq<Export>,
    siblings: seq<Link>, was: seq<byte>, now: seq<byte>, k: nat)
    returns (g: nat, i: nat)
    requires Planned(link, placed, slots) && FieldsFit(link.obj) && Faithful(link, was) && link.plan.imageSize <= TWO_32
    requires FixupsAre(link, fixups) && FixupsApart(fixups) && k < |link.obj.relocations|
    requires link.base < TWO_64 && forall j :: 0 <= j < |fixups| ==> Fillable(table, link.base, |was|, fixups[j])
    requires now == Applied(Fillings(table, link.base, fixups), was, |fixups|)
    requires link.obj.CallsOut(k) && EffectOf(link, link.obj.relocations[k]).Store? && link.obj.relocations[k].addend == -4
    requires link.Defers(link.obj.relocations[k].symbol)
    requires Tabulates(table, all, |all|)
    requires forall e :: e in all ==> exists s :: 0 <= s < |siblings| && Exported(siblings[s], |siblings[s].obj.symbols|, e)
    ensures g < |siblings| && ExportsCode(siblings[g], i)
    ensures var name := link.obj.symbols[link.obj.relocations[k].symbol].name;
      siblings[g].obj.symbols[i].name == name
      && exists d: nat :: IsFirst(all, d) && all[d] == CodeExport(siblings[g], i)
    ensures CallEnds(link, now, k, CodeExport(siblings[g], i).address)
  {
    hide Describes, EffectOf, FieldsFit, Faithful, FixupBytes, FixupsAre, FixupsApart, Tabulates, Decode, StubTarget, FieldBytes, Access.Place,
      Fillings, Applied, Reaches, IsFirst, Exported, Fillable, StubFixup;
    var s := link.obj.relocations[k].symbol;
    ImageSize(link, was);
    CallReachesSlot(link, was, placed, slots, k);
    ResolvedKept(link, placed, slots, fixups, table, was, k);
    var j := StubPending(link, fixups, s);
    FilledReaches(table, link.base, fixups, was, j);
    var d := FirstOf(table, all, |all|, fixups[j].name);
    assert all[d] in all;
    g :| 0 <= g < |siblings| && Exported(siblings[g], |siblings[g].obj.symbols|, all[d]);
    i := CodeExporter(siblings[g], all[d]);
    StubReaches(link, placed, slots, s, now, all[d].address);
  }

  /** The processor goes from the call to a trampoline of the image, and from there to the target. */
  predicate CallEnds(link: Link, image: seq<byte>, k: nat, target: address)
    requires k < |link.obj.relocations|
  {
    var s := link.obj.relocations[k].symbol;
    s in link.plan.trampoline
    && var at := link.plan.trampoline[s];
    (Decode(Relative32, FieldBytes(link, image, k), Access.Place(link, k)) + 4) % TWO_64 == link.base + at
    && at + TRAMPOLINE_SIZE <= |image|
    && StubTarget(image[at..at + TRAMPOLINE_SIZE]) == Some(target)
  }

  lemma StubPending(link: Link, fixups: seq<Fixup>, s: nat) returns (j: nat)
    requires FixupsAre(link, fixups) && link.Defers(s)
    ensures j < |fixups| && fixups[j] == StubFixup(link, s) && fixups[j].role == Code
    ensures s < |link.obj.symbols| ==> fixups[j].name == link.obj.symbols[s].name
  {
    assert StubFixup(link, s) in fixups;
    j :| 0 <= j < |fixups| && fixups[j] == StubFixup(link, s);
  }

  lemma CodeExporter(link: Link, e: Export) returns (i: nat)
    requires Exported(link, |link.obj.symbols|, e) && e.role == Code
    ensures ExportsCode(link, i) && e == CodeExport(link, i)
  {
    i :| 0 <= i < |link.obj.symbols| && ExportOf(link, i, e);
  }

  lemma StubReaches(link: Link, placed: seq<nat>, slots: seq<nat>, s: nat, image: seq<byte>, target: address)
    requires Planned(link, placed, slots) && link.Defers(s) && link.plan.imageSize <= TWO_32 && |image| == link.plan.imageSize
    requires link.base < TWO_64 && Reaches(image, link.base, StubFixup(link, s), target)
    ensures var at := link.plan.trampoline[s]; at + TRAMPOLINE_SIZE <= |image| && StubTarget(image[at..at + TRAMPOLINE_SIZE]) == Some(target)
  {
    hide Describes, StubTarget;
    var x := SlotPieceAt(link, placed, slots, s);
  }

  /** So a call that the process could not resolve runs the sibling's function from its first byte. */
  lemma CallRunsSibling(link: Link, image: seq<byte>, k: nat, sibling: Link, placed: seq<nat>, slots: seq<nat>, code: seq<byte>, i: nat)
    requires k < |link.obj.relocations| && ExportsCode(sibling, i) && CallEnds(link, image, k, CodeExport(sibling, i).address)
    requires Planned(sibling, placed, slots) && sibling.plan.imageSize == |code| <= TWO_32
    requires sibling.obj.symbols[i].value < sibling.obj.sections[sibling.obj.symbols[i].section].size
    ensures var sym := sibling.obj.symbols[i]; exists b: nat ::
      InSection(sibling, sym.section, b) && b < |code| && b - sibling.plan.sectionOffset[sym.section] == sym.value
      && CallEnds(link, image, k, sibling.base + b)
  {
    hide Describes, Decode, StubTarget;
    ExportedCodeInImage(sibling, placed, slots, i);
    var x := SectionPieceAt(sibling, placed, slots, sibling.obj.symbols[i].section);
    var b := CodeExport(sibling, i).address - sibling.base;
    assert InSection(sibling, sibling.obj.symbols[i].section, b);
  }
}
