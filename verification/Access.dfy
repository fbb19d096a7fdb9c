/** What the code of a faithful image reaches when it runs. */
module Access {
  import opened Words
  import opened Wrappers
  import opened Fields
  import opened Layout
  import opened Relocations
  import opened Image

  /** Where relocation `k` is in the image: at its offset in its section. */
  function FieldAt(link: Link, k: nat): nat
    requires k < |link.obj.relocations|
  {
    var rel := link.obj.relocations[k];
    if rel.target in link.plan.sectionOffset then link.plan.sectionOffset[rel.target] + rel.offset else 0
  }

  /** The bytes of its field. */
  function FieldBytes(link: Link, image: seq<byte>, k: nat): seq<byte>
    requires k < |link.obj.relocations|
  {
    var at, width := FieldAt(link, k), if link.obj.relocations[k].typ == Abs64 then 8 else 4;
    if at + width <= |image| then image[at..at + width] else []
  }

  function Place(link: Link, k: nat): address
    requires k < |link.obj.relocations|
  {
    (link.base + FieldAt(link, k)) % TWO_64
  }

  /** What the processor makes of a field of each type: relative ones are added to the place; of the others the signed one is
      sign-extended, and the short unsigned one zero-extended. */
  function ReadBack(typ: RelocationType, field: seq<byte>, place: address): address {
    match typ
    case Abs64 => Decode(Absolute64, field, place)
    case Abs32 => Decode(Absolute32, field, place)
    case Abs32Signed => Decode(Absolute32Signed, field, place)
    case _ => Decode(Relative32, field, place)
  }

  lemma FieldBytesAre(link: Link, image: seq<byte>, placed: seq<nat>, slots: seq<nat>, k: nat)
    requires Planned(link, placed, slots) && FieldsFit(link.obj) && Faithful(link, image) && k < |link.obj.relocations|
    requires EffectOf(link, link.obj.relocations[k]).Store? || EffectOf(link, link.obj.relocations[k]).Defer?
    ensures FieldAt(link, k) == EffectOf(link, link.obj.relocations[k]).Start()
    ensures FieldBytes(link, image, k) == EffectOf(link, link.obj.relocations[k]).Bytes()
  {
    hide Describes, EffectOf, RightByte, Effect.Start, Effect.Bytes;
    EffectInField(link, placed, slots, k);
    assert FieldHolds(Effects(link)[k], image);
  }

  /** A zero-extended field gives back a value that is not negative. */
  predicate KeepsSign(rel: Relocation, s: address) {
    rel.typ == Abs32 ==> Signed64(s) + rel.addend >= 0
  }

  /** A field resolved against address `s` decodes to S + A in the finished image; a zero-extended
      one does exactly when the value is not negative. */
  lemma ResolvedFieldDecodes(link: Link, image: seq<byte>, placed: seq<nat>, slots: seq<nat>, k: nat, s: address)
    requires Planned(link, placed, slots) && FieldsFit(link.obj) && Faithful(link, image) && k < |link.obj.relocations|
    requires EffectOf(link, link.obj.relocations[k]).Store?
    requires TargetOf(link, link.obj.relocations[k]) == Known(s)
    ensures var rel := link.obj.relocations[k];
      ReadBack(rel.typ, FieldBytes(link, image, k), Place(link, k)) == (s + rel.addend) % TWO_64 <==> KeepsSign(rel, s)
  {
    hide RightByte, Describes, Encode, Decode, TargetOf, FieldsFit, Faithful, FieldAt, FieldBytes;
    var rel := link.obj.relocations[k];
    FieldBytesAre(link, image, placed, slots, k);
    EncodeDecodes(Field(rel.typ).value, s, rel.addend, Place(link, k));
  }

  /** A deferred field is zero and recorded under its symbol with the same addend and width. */
  lemma DeferredFieldCleared(link: Link, image: seq<byte>, placed: seq<nat>, slots: seq<nat>, k: nat)
    requires Planned(link, placed, slots) && FieldsFit(link.obj) && Faithful(link, image) && k < |link.obj.relocations|
    requires EffectOf(link, link.obj.relocations[k]).Defer?
    ensures var rel := link.obj.relocations[k]; var f := EffectOf(link, rel).fixup;
      rel.symbol < |link.obj.symbols| && Field(rel.typ).Some?
      && f.name == link.obj.symbols[rel.symbol].name && f.addend == rel.addend && f.kind == InPlace(Field(rel.typ).value)
      && (link.plan.imageSize <= TWO_32 ==> f.offset == link.plan.sectionOffset[rel.target] + rel.offset)
      && FieldBytes(link, image, k) == seq(if rel.typ == Abs64 then 8 else 4, _ => 0)
  {
    hide RightByte, Describes;
    FieldBytesAre(link, image, placed, slots, k);
    EffectInField(link, placed, slots, k);
  }

  /** Relocations write into text sections only. */
  lemma OutsideText(link: Link, image: seq<byte>, placed: seq<nat>, slots: seq<nat>, b: int)
    requires Planned(link, placed, slots) && FieldsFit(link.obj) && Faithful(link, image) && 0 <= b < |image|
    requires forall i: nat :: InSection(link, i, b) ==> link.obj.sections[i].cls != Text
    ensures RightByte(link, |link.obj.sections|, link.plan.trampoline.Keys, b, image[b])
  {
    hide Describes, EffectOf, RightByte, InSlot, FieldsFit, Touches;
    forall k | 0 <= k < |Effects(link)|
      ensures !Touches(Effects(link)[k], b)
    {
      if Touches(Effects(link)[k], b) {
        TouchedHome(link, placed, slots, k, b);
        assert false;
      }
    }
  }

  /** No relocation writes into a trampoline: it still jumps to its target. */
  lemma StubInImage(link: Link, image: seq<byte>, placed: seq<nat>, slots: seq<nat>, s: nat)
    requires Planned(link, placed, slots) && FieldsFit(link.obj) && Faithful(link, image) && s in link.plan.trampoline
    ensures link.plan.trampoline[s] + TRAMPOLINE_SIZE <= |image|
    ensures image[link.plan.trampoline[s]..link.plan.trampoline[s] + TRAMPOLINE_SIZE] == SlotStub(link, s)
  {
    hide Describes, EffectOf, SlotStub, FieldsFit, FieldsHold, Untouched, Planned;
    SlotInside(link, image, placed, slots, s);
    var at := link.plan.trampoline[s];
    forall j | 0 <= j < TRAMPOLINE_SIZE
      ensures image[at + j] == SlotStub(link, s)[j]
    {
      assert InSlot(link, s, at + j);
      OneHome(link, placed, slots, at + j);
      OutsideText(link, image, placed, slots, at + j);
    }
  }

  lemma SlotInside(link: Link, image: seq<byte>, placed: seq<nat>, slots: seq<nat>, s: nat)
    requires Planned(link, placed, slots) && Faithful(link, image) && s in link.plan.trampoline
    ensures link.plan.trampoline[s] + TRAMPOLINE_SIZE <= |image|
  {
    hide Describes;
    var x := SlotPieceAt(link, placed, slots, s);
  }

  /** A call to an undefined function brings the processor to its trampoline, whether the process defines the
      function or the generation will. */
  lemma CallReachesSlot(link: Link, image: seq<byte>, placed: seq<nat>, slots: seq<nat>, k: nat)
    requires Planned(link, placed, slots) && FieldsFit(link.obj) && Faithful(link, image) && k < |link.obj.relocations|
    requires link.obj.CallsOut(k) && EffectOf(link, link.obj.relocations[k]).Store?
    requires link.obj.relocations[k].addend == -4
    ensures var rel := link.obj.relocations[k];
      rel.symbol in link.plan.trampoline
      && var at := link.plan.trampoline[rel.symbol];
      (Decode(Relative32, FieldBytes(link, image, k), Place(link, k)) + 4) % TWO_64 == link.base + at
      && at + TRAMPOLINE_SIZE <= |image|
      && image[at..at + TRAMPOLINE_SIZE] == SlotStub(link, rel.symbol)
  {
    hide Describes, Decode, StubTarget, Stub, SlotStub, FieldBytes, Place, EffectOf, TargetOf, Faithful, FieldsFit;
    var rel := link.obj.relocations[k];
    CallsThroughStub(link, k);
    var at := link.plan.trampoline[rel.symbol];
    var x := SlotPieceAt(link, placed, slots, rel.symbol);
    ResolvedFieldDecodes(link, image, placed, slots, k, (link.base + at) % TWO_64);
    StubInImage(link, image, placed, slots, rel.symbol);
  }

  /** Without a definition it jumps to address zero until the generation is linked. */
  lemma UnlinkedStub(link: Link, s: nat)
    requires s !in link.calls
    ensures StubTarget(SlotStub(link, s)) == Some(0)
  {
    StubJumps(0);
  }

  /** If the process defines the function, the trampoline jumps to the definition. */
  lemma CallReachesTarget(link: Link, image: seq<byte>, placed: seq<nat>, slots: seq<nat>, k: nat)
    requires Planned(link, placed, slots) && FieldsFit(link.obj) && Faithful(link, image) && k < |link.obj.relocations|
    requires link.obj.CallsOut(k) && EffectOf(link, link.obj.relocations[k]).Store?
    requires link.obj.relocations[k].addend == -4
    requires link.obj.relocations[k].symbol in link.calls
    ensures var rel := link.obj.relocations[k];
      rel.symbol in link.plan.trampoline
      && var at := link.plan.trampoline[rel.symbol];
      (Decode(Relative32, FieldBytes(link, image, k), Place(link, k)) + 4) % TWO_64 == link.base + at
      && at + TRAMPOLINE_SIZE <= |image|
      && StubTarget(image[at..at + TRAMPOLINE_SIZE]) == Some(link.calls[rel.symbol])
  {
    hide Describes, Decode, StubTarget, Stub, FieldBytes, Place, EffectOf, TargetOf, Faithful, FieldsFit;
    CallReachesSlot(link, image, placed, slots, k);
    StubJumps(link.calls[link.obj.relocations[k].symbol]);
  }

  lemma CallsThroughStub(link: Link, k: nat)
    requires link.obj.CallsOut(k) && EffectOf(link, link.obj.relocations[k]).Store?
    ensures var rel := link.obj.relocations[k];
      rel.symbol in link.plan.trampoline
      && TargetOf(link, rel) == Known((link.base + link.plan.trampoline[rel.symbol]) % TWO_64)
  {
    hide Encode;
  }

  /** A reference to read-only data of the object, made by an instruction that ends `t` bytes behind
      the field: it reaches the byte the object has there. */
  lemma RodataReached(link: Link, image: seq<byte>, placed: seq<nat>, slots: seq<nat>, k: nat, t: nat)
    requires Planned(link, placed, slots) && FieldsFit(link.obj) && Faithful(link, image) && k < |link.obj.relocations|
    requires EffectOf(link, link.obj.relocations[k]).Store? && link.obj.relocations[k].typ == Pc32
    requires var sym := link.obj.symbols[link.obj.relocations[k].symbol];
      0 < sym.section < |link.obj.sections| && link.obj.sections[sym.section].cls == Rodata
      && (sym.typ == SectionSymbol ==> sym.value == 0)
      && 0 <= sym.value + link.obj.relocations[k].addend + 4 + t < |link.obj.sections[sym.section].bytes|
    ensures var rel := link.obj.relocations[k]; var sym := link.obj.symbols[rel.symbol];
      var reached := (Decode(Relative32, FieldBytes(link, image, k), Place(link, k)) + 4 + t) % TWO_64;
      link.base <= reached < link.base + |image|
      && image[reached - link.base] == link.obj.sections[sym.section].bytes[sym.value + rel.addend + 4 + t]
  {
    hide Describes, RightByte, Decode, Encode, FieldBytes, Place, Faithful, FieldsFit;
    var rel := link.obj.relocations[k];
    var sym := link.obj.symbols[rel.symbol];
    var j := sym.value + rel.addend + 4 + t;
    RodataUntouched(link, image, placed, slots, sym.section, j);
    var x := SectionPieceAt(link, placed, slots, sym.section);
    var off := link.plan.sectionOffset[sym.section];
    ResolvedFieldDecodes(link, image, placed, slots, k, (link.base + off + sym.value) % TWO_64);
    ArrivesAt(link.base, off, sym.value, rel.addend, t);
    ImageSize(link, image);
  }

  lemma ImageSize(link: Link, image: seq<byte>)
    requires Faithful(link, image)
    ensures |image| == link.plan.imageSize
  {
  }

  lemma ArrivesAt(base: nat, off: nat, value: nat, addend: int, t: nat)
    requires 0 <= base + off + value + addend + 4 + t < TWO_64
    ensures (((base + off + value) % TWO_64 + addend) % TWO_64 + 4 + t) % TWO_64 == base + off + value + addend + 4 + t
  {
  }

  lemma RodataUntouched(link: Link, image: seq<byte>, placed: seq<nat>, slots: seq<nat>, i: nat, j: nat)
    requires Planned(link, placed, slots) && FieldsFit(link.obj) && Faithful(link, image)
    requires i < |link.obj.sections| && link.obj.sections[i].cls == Rodata && j < |link.obj.sections[i].bytes|
    ensures link.obj.Placed(i) && link.plan.sectionOffset[i] + j < |image|
    ensures image[link.plan.sectionOffset[i] + j] == link.obj.sections[i].bytes[j]
  {
    hide Describes, EffectOf, FieldsFit, FieldsHold, Untouched;
    assert link.obj.Placed(i);
    var x := SectionPieceAt(link, placed, slots, i);
    var b := link.plan.sectionOffset[i] + j;
    assert InSection(link, i, b);
    OneHome(link, placed, slots, b);
    OutsideText(link, image, placed, slots, b);
  }

  // ---- symbols with one address ----

  /** The value for symbol address `s` is in the range that the loader accepts for the field. */
  predicate InRange(rel: Relocation, s: address, place: address) {
    match rel.typ
    case Abs64 => true
    case Abs32 => -0x8000_0000 <= Signed64(s) + rel.addend <= 0x7FFF_FFFF
    case Abs32Signed => -0x8000_0000 <= Signed64(s) + rel.addend <= 0x7FFF_FFFF
    case Unsupported => false
    case _ => -0x8000_0000 <= Signed64(s) + rel.addend - Signed64(place) <= 0x7FFF_FFFF
  }

  /** The access arrives where the symbol's address `s` and the addend lead: through a relative field for an instruction that ends
      `t` bytes behind it, and through a zero-extended one exactly when that is not negative. */
  predicate Arrives(link: Link, image: seq<byte>, k: nat, t: nat, s: address)
    requires k < |link.obj.relocations|
  {
    var rel := link.obj.relocations[k];
    var back := ReadBack(rel.typ, FieldBytes(link, image, k), Place(link, k));
    if rel.typ == Pc32 || rel.typ == Plt32 then (back + 4 + t) % TWO_64 == (s + (rel.addend + 4 + t)) % TWO_64
    else back == (s + rel.addend) % TWO_64 <==> KeepsSign(rel, s)
  }

  lemma StoresInRange(link: Link, placed: seq<nat>, slots: seq<nat>, k: nat, s: address)
    requires Planned(link, placed, slots) && FieldsInside(link.obj) && k < |link.obj.relocations| && Patches(link.obj, link.obj.relocations[k])
    requires link.obj.relocations[k].symbol < |link.obj.symbols| && TargetOf(link, link.obj.relocations[k]) == Known(s)
    ensures var e := EffectOf(link, link.obj.relocations[k]);
      (e.Store? <==> InRange(link.obj.relocations[k], s, Place(link, k))) && (!e.Store? ==> e.Reject?)
  {
    hide Describes, TargetOf, LittleEndian, Signed64;
    var rel := link.obj.relocations[k];
    assert link.obj.Placed(rel.target);
    var x := SectionPieceAt(link, placed, slots, rel.target);
  }

  lemma FieldsFitInside(obj: ObjectFile)
    requires FieldsFit(obj)
    ensures FieldsInside(obj)
  {
  }

  /** A relocation against a symbol of the object's own code or read-only data, by name or by its section: it is stored exactly
      when it is in range, and then leads to the symbol's place in the image. */
  lemma ImageSymbolReached(link: Link, image: seq<byte>, placed: seq<nat>, slots: seq<nat>, k: nat, t: nat)
    requires Planned(link, placed, slots) && FieldsFit(link.obj) && k < |link.obj.relocations| && Patches(link.obj, link.obj.relocations[k])
    requires link.obj.relocations[k].symbol < |link.obj.symbols|
    requires var sym := link.obj.symbols[link.obj.relocations[k].symbol];
      sym.section > 0 && link.obj.Placed(sym.section) && (sym.typ == SectionSymbol ==> sym.value == 0)
    ensures var rel := link.obj.relocations[k]; var sym := link.obj.symbols[rel.symbol]; var e := EffectOf(link, rel);
      var s := (link.base + link.plan.sectionOffset[sym.section] + sym.value) % TWO_64;
      && (e.Store? <==> InRange(rel, s, Place(link, k))) && (!e.Store? ==> e.Reject?)
      && (e.Store? && Faithful(link, image) ==> Arrives(link, image, k, t, s))
  {
    hide Describes, Decode, Encode, FieldBytes, Place, Faithful, FieldsFit, EffectOf, ReadBack, InRange;
    var rel := link.obj.relocations[k];
    var sym := link.obj.symbols[rel.symbol];
    AddressArrives(link, image, placed, slots, k, t, (link.base + link.plan.sectionOffset[sym.section] + sym.value) % TWO_64);
  }

  /** A symbol of a section that is neither code nor read-only nor mutable data is taken to lie at its value behind the start of
      the image. */
  lemma OtherSymbolReached(link: Link, image: seq<byte>, placed: seq<nat>, slots: seq<nat>, k: nat, t: nat)
    requires Planned(link, placed, slots) && FieldsFit(link.obj) && k < |link.obj.relocations| && Patches(link.obj, link.obj.relocations[k])
    requires link.obj.relocations[k].symbol < |link.obj.symbols|
    requires var sym := link.obj.symbols[link.obj.relocations[k].symbol];
      0 < sym.section < |link.obj.sections| && link.obj.sections[sym.section].cls == Other && (sym.typ == SectionSymbol ==> sym.value == 0)
    ensures var rel := link.obj.relocations[k]; var e := EffectOf(link, rel);
      var s := (link.base + link.obj.symbols[rel.symbol].value) % TWO_64;
      && (e.Store? <==> InRange(rel, s, Place(link, k))) && (!e.Store? ==> e.Reject?)
      && (e.Store? && Faithful(link, image) ==> Arrives(link, image, k, t, s))
  {
    hide Decode, Encode, FieldBytes, Place, Faithful, FieldsFit, EffectOf, ReadBack, InRange;
    var rel := link.obj.relocations[k];
    var sym := link.obj.symbols[rel.symbol];
    AddressArrives(link, image, placed, slots, k, t, (link.base + sym.value) % TWO_64);
  }

  lemma AddressArrives(link: Link, image: seq<byte>, placed: seq<nat>, slots: seq<nat>, k: nat, t: nat, s: address)
    requires Planned(link, placed, slots) && FieldsFit(link.obj) && k < |link.obj.relocations| && Patches(link.obj, link.obj.relocations[k])
    requires link.obj.relocations[k].symbol < |link.obj.symbols| && TargetOf(link, link.obj.relocations[k]) == Known(s)
    ensures var rel := link.obj.relocations[k]; var e := EffectOf(link, rel);
      && (e.Store? <==> InRange(rel, s, Place(link, k))) && (!e.Store? ==> e.Reject?)
      && (e.Store? && Faithful(link, image) ==> Arrives(link, image, k, t, s))
  {
    hide Describes, Decode, Encode, FieldBytes, Place, Faithful, EffectOf, ReadBack, InRange, TargetOf, Patches, FieldsFit;
    FieldsFitInside(link.obj);
    StoresInRange(link, placed, slots, k, s);
    if EffectOf(link, link.obj.relocations[k]).Store? && Faithful(link, image) {
      ResolvedFieldDecodes(link, image, placed, slots, k, s);
      StartAdds(s, link.obj.relocations[k].addend, t);
    }
  }

  /** A call or jump with addend -4 to a function of the object itself arrives at that function's own first byte in the image. */
  lemma CallStaysInside(link: Link, image: seq<byte>, placed: seq<nat>, slots: seq<nat>, k: nat)
    requires Planned(link, placed, slots) && FieldsFit(link.obj) && Faithful(link, image) && k < |link.obj.relocations|
    requires var rel := link.obj.relocations[k];
      rel.symbol < |link.obj.symbols| && rel.typ in {Pc32, Plt32} && rel.addend == -4 && EffectOf(link, rel).Store?
    requires var sym := link.obj.symbols[link.obj.relocations[k].symbol];
      0 < sym.section < |link.obj.sections| && link.obj.sections[sym.section].cls == Text && sym.typ != SectionSymbol
      && sym.value < link.obj.sections[sym.section].size
    ensures var sym := link.obj.symbols[link.obj.relocations[k].symbol]; var at := link.plan.sectionOffset[sym.section] + sym.value;
      Reached(link, image, k, 0) == link.base + at && InSection(link, sym.section, at) && at < |image|
    ensures var sym := link.obj.symbols[link.obj.relocations[k].symbol];
      sym.value < |link.obj.sections[sym.section].bytes| && NotPatched(link.obj, sym.section, sym.value) ==>
        image[link.plan.sectionOffset[sym.section] + sym.value] == link.obj.sections[sym.section].bytes[sym.value]
  {
    hide Describes, Decode, Encode, FieldBytes, Place, Faithful, FieldsFit, EffectOf;
    FieldsFitInside(link.obj);
    var rel := link.obj.relocations[k];
    var sym := link.obj.symbols[rel.symbol];
    assert link.obj.Placed(sym.section);
    EffectInField(link, placed, slots, k);
    ImageSymbolReached(link, image, placed, slots, k, 0);
    ImageSize(link, image);
    var x := SectionPieceAt(link, placed, slots, sym.section);
    if sym.value < |link.obj.sections[sym.section].bytes| && NotPatched(link.obj, sym.section, sym.value) {
      OwnByte(link, image, placed, slots, sym.section, sym.value);
    }
  }

  /** No field of a relocation covers the byte at this offset of the section. */
  predicate NotPatched(obj: ObjectFile, section: nat, offset: nat) {
    forall k :: 0 <= k < |obj.relocations| && obj.relocations[k].target == section && Patches(obj, obj.relocations[k]) ==>
      !(obj.relocations[k].offset <= offset < obj.relocations[k].offset + Reach(obj.relocations[k]))
  }

  /** A byte of a section that no relocation covers is in the image as it is in the object. */
  lemma OwnByte(link: Link, image: seq<byte>, placed: seq<nat>, slots: seq<nat>, i: nat, j: nat)
    requires Planned(link, placed, slots) && FieldsFit(link.obj) && Faithful(link, image) && link.obj.Placed(i)
    requires j < |link.obj.sections[i].bytes| && NotPatched(link.obj, i, j)
    ensures link.plan.sectionOffset[i] + j < |image|
    ensures image[link.plan.sectionOffset[i] + j] == link.obj.sections[i].bytes[j]
  {
    hide Describes, EffectOf, FieldsFit, FieldsHold, Touches;
    var x := SectionPieceAt(link, placed, slots, i);
    var b := link.plan.sectionOffset[i] + j;
    assert InSection(link, i, b);
    OneHome(link, placed, slots, b);
    forall k | 0 <= k < |Effects(link)|
      ensures !Touches(Effects(link)[k], b)
    {
      if Touches(Effects(link)[k], b) {
        TouchedHome(link, placed, slots, k, b);
        assert false;
      }
    }
  }

  /** A relocation against a variable of the object by its name leads into the storage that the variable is bound to, and one that is
      bound to none is refused. */
  lemma VariableReached(link: Link, image: seq<byte>, placed: seq<nat>, slots: seq<nat>, k: nat, t: nat)
    requires Planned(link, placed, slots) && FieldsFit(link.obj) && k < |link.obj.relocations| && Patches(link.obj, link.obj.relocations[k])
    requires link.obj.relocations[k].symbol < |link.obj.symbols|
    requires var sym := link.obj.symbols[link.obj.relocations[k].symbol];
      0 < sym.section < |link.obj.sections| && link.obj.sections[sym.section].cls == Class.Data && sym.typ != SectionSymbol
    ensures var rel := link.obj.relocations[k]; var e := EffectOf(link, rel);
      if rel.symbol in link.storage then
        var s := link.storage[rel.symbol].address;
        && (e.Store? <==> InRange(rel, s, Place(link, k))) && (!e.Store? ==> e.Reject?)
        && (e.Store? && Faithful(link, image) ==> Arrives(link, image, k, t, s))
      else e.Reject?
  {
    hide Describes, Decode, Encode, FieldBytes, Place, Faithful, FieldsFit, ReadBack, InRange;
    var rel := link.obj.relocations[k];
    if rel.symbol in link.storage {
      AddressArrives(link, image, placed, slots, k, t, link.storage[rel.symbol].address);
    }
  }

  /** A relocation against an undefined symbol that the process or a library defines leads to that definition, but a call goes through
      the symbol's trampoline; one that nobody defines is left to the linking of the generation. */
  lemma ExternalReached(link: Link, image: seq<byte>, placed: seq<nat>, slots: seq<nat>, k: nat, t: nat)
    requires Planned(link, placed, slots) && FieldsFit(link.obj) && k < |link.obj.relocations| && Patches(link.obj, link.obj.relocations[k])
    requires var rel := link.obj.relocations[k];
      rel.symbol < |link.obj.symbols| && link.obj.symbols[rel.symbol].section == 0 && rel.typ != Plt32
    requires var sym := link.obj.symbols[link.obj.relocations[k].symbol];
      sym.typ == SectionSymbol ==> |link.obj.sections| == 0 || link.obj.sections[0].cls != Class.Data
    ensures var rel := link.obj.relocations[k]; var e := EffectOf(link, rel);
      if rel.symbol in link.externals then
        var s := link.externals[rel.symbol];
        && (e.Store? <==> InRange(rel, s, Place(link, k))) && (!e.Store? ==> e.Reject?)
        && (e.Store? && Faithful(link, image) ==> Arrives(link, image, k, t, s))
      else e.Defer?
  {
    hide Describes, Decode, Encode, FieldBytes, Place, Faithful, ReadBack, InRange;
    var rel := link.obj.relocations[k];
    if rel.symbol in link.externals {
      AddressArrives(link, image, placed, slots, k, t, link.externals[rel.symbol]);
    } else {
      assert link.obj.Placed(rel.target);
      var x := SectionPieceAt(link, placed, slots, rel.target);
    }
  }

  // ---- mutable storage ----

  /** The relocation is made against the start of a mutable section. */
  predicate Against(link: Link, rel: Relocation, section: nat) {
    && rel.symbol < |link.obj.symbols| && link.obj.symbols[rel.symbol].typ == SectionSymbol
    && link.obj.symbols[rel.symbol].section == section
    && 0 < section < |link.obj.sections| && link.obj.sections[section].cls == Class.Data
  }

  /** Where the loader takes the section to start: as the first symbol says that the offset falls on, and without
      one as the section's anchor says. */
  function SectionStart(link: Link, section: nat, off: int): Option<address> {
    var cover := Cover(link, section, off, 0);
    if cover.Some? then Some(Bias(link, cover.value))
    else if section in link.anchors then Some(link.anchors[section])
    else None
  }

  /** Byte `off` of a mutable section belongs to a variable that has storage. */
  predicate Occupies(link: Link, section: nat, i: nat, off: int) {
    && i < |link.obj.symbols| && i in link.storage && link.obj.symbols[i].typ == Object && link.obj.symbols[i].section == section
    && 0 <= off - link.obj.symbols[i].value < link.obj.symbols[i].size
  }

  /** The first variable the byte belongs to decides, and the anchor only when it belongs to none. */
  lemma StartMeans(link: Link, section: nat, off: int) returns (i: nat)
    ensures if exists j: nat :: Occupies(link, section, j, off) then
              Occupies(link, section, i, off) && (forall j: nat :: Occupies(link, section, j, off) ==> i <= j)
              && SectionStart(link, section, off) == Some((link.storage[i].address - link.obj.symbols[i].value) % TWO_64)
            else
              SectionStart(link, section, off) == if section in link.anchors then Some(link.anchors[section]) else None
  {
    hide Cover, Occupies, Covers;
    forall j: nat
      ensures Occupies(link, section, j, off) <==> Covers(link, section, j, off)
    {
      OccupiesCovers(link, section, j, off);
    }
    var cover := Cover(link, section, off, 0);
    i := if cover.Some? then cover.value else 0;
    if cover.Some? {
      BiasIs(link, section, i, off);
    }
  }

  lemma OccupiesCovers(link: Link, section: nat, j: nat, off: int)
    ensures Occupies(link, section, j, off) <==> Covers(link, section, j, off)
  {
  }

  lemma BiasIs(link: Link, section: nat, i: nat, off: int)
    requires Occupies(link, section, i, off)
    ensures Bias(link, i) == (link.storage[i].address - link.obj.symbols[i].value) % TWO_64
  {
  }

  /** A relocation of anything but code is refused in read-only data, the unwind table aside, and elsewhere ignored. */
  lemma OtherSections(link: Link, rel: Relocation)
    requires rel.target < |link.obj.sections| ==> link.obj.sections[rel.target].cls != Text
    ensures EffectOf(link, rel).Reject? || EffectOf(link, rel).Skip?
    ensures EffectOf(link, rel).Reject? <==>
              rel.target < |link.obj.sections| && link.obj.sections[rel.target].cls == Rodata
              && var name := link.obj.sections[rel.target].name; !(|name| >= 9 && name[..9] == ".eh_frame")
  {
    if rel.target < |link.obj.sections| {
      var name := link.obj.sections[rel.target].name;
      assert |name| >= 9 && name[..9] == ".eh_frame" <==> ".eh_frame" <= name;
    }
  }

  /** A section-relative relocation is stored exactly when the section has a start, found without overflow, and the value is in
      range. */
  lemma StartStores(link: Link, placed: seq<nat>, slots: seq<nat>, k: nat, section: nat)
    requires Planned(link, placed, slots) && FieldsInside(link.obj) && k < |link.obj.relocations| && Patches(link.obj, link.obj.relocations[k])
    requires Against(link, link.obj.relocations[k], section)
    ensures var rel := link.obj.relocations[k];
      var off := if rel.typ == Pc32 || rel.typ == Plt32 then rel.addend + 4 else rel.addend;
      var start := SectionStart(link, section, off);
      && (EffectOf(link, rel).Store? <==>
            start.Some? && (off != rel.addend ==> off <= 0x7FFF_FFFF_FFFF_FFFF) && InRange(rel, start.value, Place(link, k)))
      && (!EffectOf(link, rel).Store? ==> EffectOf(link, rel).Reject?)
  {
    hide Describes, Encode, InRange, Place, FieldsInside;
    var rel := link.obj.relocations[k];
    var start := SectionStart(link, section, Landing(rel));
    if start.Some? && (Landing(rel) != rel.addend ==> Landing(rel) <= 0x7FFF_FFFF_FFFF_FFFF) {
      StoresInRange(link, placed, slots, k, start.value);
    }
  }

  lemma StoredAtStart(link: Link, k: nat, section: nat)
    requires k < |link.obj.relocations| && Against(link, link.obj.relocations[k], section)
    requires EffectOf(link, link.obj.relocations[k]).Store?
    ensures var rel := link.obj.relocations[k];
      SectionStart(link, section, Landing(rel)).Some? && TargetOf(link, rel) == Known(SectionStart(link, section, Landing(rel)).value)
  {
    hide Encode, Cover;
  }

  /** Section-relative data access by an instruction that ends `t` bytes behind its field, meant for a byte of
      symbol `d`. The loader looks the section's start up as if `t` were zero. The access reaches its byte exactly
      when that start is where the storage of `d` puts it. */
  lemma AccessReachesStorage(
    link: Link, image: seq<byte>, placed: seq<nat>, slots: seq<nat>, k: nat, section: nat, d: nat, t: nat)
    requires Planned(link, placed, slots) && FieldsFit(link.obj) && Faithful(link, image) && k < |link.obj.relocations|
    requires EffectOf(link, link.obj.relocations[k]).Store? && link.obj.relocations[k].typ in {Pc32, Plt32}
    requires Against(link, link.obj.relocations[k], section)
    requires Covers(link, section, d, link.obj.relocations[k].addend + 4 + t)
    ensures var rel := link.obj.relocations[k];
      Reached(link, image, k, t) == Meant(link, d, rel.addend + 4 + t) <==> SectionStart(link, section, Landing(rel)) == Some(Bias(link, d))
    ensures var rel := link.obj.relocations[k]; var start := SectionStart(link, section, Landing(rel));
      start.Some? && Reached(link, image, k, t) == (start.value + (rel.addend + 4 + t)) % TWO_64
  {
    hide Planned, FieldsFit, Faithful, Decode, FieldBytes, Place, SectionStart, EffectOf, TargetOf;
    var rel := link.obj.relocations[k];
    StoredAtStart(link, k, section);
    var s := SectionStart(link, section, Landing(rel)).value;
    ResolvedFieldDecodes(link, image, placed, slots, k, s);
    BiasDecides(s, link.storage[d].address, link.obj.symbols[d].value, rel.addend + 4 + t);
    StartAdds(s, rel.addend, t);
  }

  lemma StartAdds(s: address, addend: int, t: nat)
    ensures ((s + addend) % TWO_64 + 4 + t) % TWO_64 == (s + (addend + 4 + t)) % TWO_64
  {
  }

  /** The address a relative access comes to. */
  function Reached(link: Link, image: seq<byte>, k: nat, t: nat): address
    requires k < |link.obj.relocations|
  {
    (Decode(Relative32, FieldBytes(link, image, k), Place(link, k)) + 4 + t) % TWO_64
  }

  /** The address in the storage of symbol `d` of the byte at an offset of its section. */
  function Meant(link: Link, d: nat, off: int): address
    requires d in link.storage && d < |link.obj.symbols|
  {
    (link.storage[d].address + (off - link.obj.symbols[d].value)) % TWO_64
  }

  lemma BiasDecides(s: address, address: address, value: nat, off: int)
    ensures (s + off) % TWO_64 == (address + (off - value)) % TWO_64 <==> s == (address - value) % TWO_64
  {
  }

  /** An access whose instruction ends with its field is right when no two symbols cover its byte. */
  lemma PlainAccessReaches(
    link: Link, image: seq<byte>, placed: seq<nat>, slots: seq<nat>, k: nat, section: nat, d: nat, off: nat)
    requires Planned(link, placed, slots) && FieldsFit(link.obj) && Faithful(link, image) && k < |link.obj.relocations|
    requires EffectOf(link, link.obj.relocations[k]).Store? && link.obj.relocations[k].typ in {Pc32, Plt32}
    requires Against(link, link.obj.relocations[k], section)
    requires off == link.obj.relocations[k].addend + 4 && Covers(link, section, d, off)
    requires forall c: nat :: Covers(link, section, c, off) ==> c == d
    ensures Reached(link, image, k, 0) == Meant(link, d, off)
  {
    hide Describes, Reached, Meant, EffectOf, Faithful, FieldsFit;
    AccessReachesStorage(link, image, placed, slots, k, section, d, 0);
  }

  /** Every symbol of the section that has storage is moved by one distance, and so is its anchor. */
  ghost predicate MovesAsOne(link: Link, section: nat, s: address) {
    && (section in link.anchors ==> link.anchors[section] == s)
    && (forall c: nat :: c < |link.obj.symbols| && c in link.storage && link.obj.symbols[c].section == section ==> Bias(link, c) == s)
  }

  /** In a section that was moved as one, every access is right, whatever follows its field. */
  lemma UnitedAccessReaches(
    link: Link, image: seq<byte>, placed: seq<nat>, slots: seq<nat>, k: nat, section: nat, d: nat, t: nat, s: address)
    requires Planned(link, placed, slots) && FieldsFit(link.obj) && Faithful(link, image) && k < |link.obj.relocations|
    requires EffectOf(link, link.obj.relocations[k]).Store? && link.obj.relocations[k].typ in {Pc32, Plt32}
    requires Against(link, link.obj.relocations[k], section) && MovesAsOne(link, section, s)
    requires Covers(link, section, d, link.obj.relocations[k].addend + 4 + t)
    ensures Reached(link, image, k, t) == Meant(link, d, link.obj.relocations[k].addend + 4 + t)
  {
    hide Describes, Reached, Meant, EffectOf, Faithful, FieldsFit, TargetOf;
    StoredAtStart(link, k, section);
    AccessReachesStorage(link, image, placed, slots, k, section, d, t);
  }

  /** The same for an absolute field, which carries the offset itself: of a value that keeps its sign the start
      decides, and with the right start the sign does. */
  lemma AbsoluteReachesStorage(
    link: Link, image: seq<byte>, placed: seq<nat>, slots: seq<nat>, k: nat, section: nat, d: nat)
    requires Planned(link, placed, slots) && FieldsFit(link.obj) && Faithful(link, image) && k < |link.obj.relocations|
    requires EffectOf(link, link.obj.relocations[k]).Store? && link.obj.relocations[k].typ in {Abs32, Abs32Signed, Abs64}
    requires Against(link, link.obj.relocations[k], section)
    requires Covers(link, section, d, link.obj.relocations[k].addend)
    ensures var rel := link.obj.relocations[k]; var start := SectionStart(link, section, rel.addend);
      var reached := ReadBack(rel.typ, FieldBytes(link, image, k), Place(link, k));
      start.Some?
      && (KeepsSign(rel, start.value) ==> (reached == Meant(link, d, rel.addend) <==> start.value == Bias(link, d)))
      && (start.value == Bias(link, d) ==> (reached == Meant(link, d, rel.addend) <==> KeepsSign(rel, start.value)))
  {
    hide Describes, RightByte, Decode, Encode, FieldBytes, Place, SectionStart, EffectOf, TargetOf;
    var rel := link.obj.relocations[k];
    StoredAtStart(link, k, section);
    var s := SectionStart(link, section, rel.addend).value;
    ResolvedFieldDecodes(link, image, placed, slots, k, s);
    BiasDecides(s, link.storage[d].address, link.obj.symbols[d].value, rel.addend);
  }
}
