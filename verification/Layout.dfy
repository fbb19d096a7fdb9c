/** Placing the pieces of an image one after another: sections, unwind data and trampoline slots. */
module Layout {
  import opened Words
  import opened Wrappers
  import opened Fields

  const SECTION_ALIGN: nat := 16
  const MAX_SECTION_ALIGN: nat := 4096
  const UNWIND_ALIGN: nat := 4

  function AlignUp(v: nat, a: nat): nat
    requires a > 0
  {
    ((v + a - 1) / a) * a
  }

  lemma AlignUpIs(v: nat, a: nat)
    requires a > 0
    ensures v <= AlignUp(v, a) < v + a && AlignUp(v, a) % a == 0
    ensures v == 0 ==> AlignUp(v, a) == 0
  {
    var q := (v + a - 1) / a;
    var m := (v + a - 1) % a;
    assert v + a - 1 == a * q + m;
    ModuloUnique(q * a, a, q, 0);
    if v == 0 {
      ModuloUnique(a - 1, a, 0, a - 1);
    }
  }

  /** One piece of the image. */
  datatype Piece = Piece(offset: nat, size: nat, align: nat)

  /** The pieces are aligned, follow one another without overlap, and end inside the image. */
  ghost predicate Packed(pieces: seq<Piece>, imageSize: nat) {
    && (forall i :: 0 <= i < |pieces| ==>
          pieces[i].align > 0 && pieces[i].offset % pieces[i].align == 0 && pieces[i].offset + pieces[i].size <= imageSize)
    && (forall i, j :: 0 <= i < j < |pieces| ==> pieces[i].offset + pieces[i].size <= pieces[j].offset)
  }

  lemma PackedGrows(pieces: seq<Piece>, imageSize: nat, size: nat, align: nat)
    requires Packed(pieces, imageSize) && align > 0
    ensures var at := AlignUp(imageSize, align); imageSize <= at && Packed(pieces + [Piece(at, size, align)], at + size)
    ensures imageSize == 0 ==> AlignUp(imageSize, align) == 0
  {
    hide AlignUp;
    AlignUpIs(imageSize, align);
  }

  // ---- ELF ----

  datatype Class = Text | Rodata | Data | Other

  datatype Section = Section(name: string, cls: Class, size: nat, align: nat, bytes: seq<byte>)

  datatype SymbolType = NoType | Object | Function | SectionSymbol | ThreadLocal
  datatype Binding = Local | Global | Weak | GnuUnique | OtherBinding

  datatype Symbol = Symbol(name: string, section: nat, typ: SymbolType, bind: Binding, value: nat, size: nat)

  datatype RelocationType = Pc32 | Plt32 | Abs32 | Abs32Signed | Abs64 | Unsupported

  datatype Relocation = Relocation(target: nat, offset: nat, symbol: nat, typ: RelocationType, addend: int)

  /** A parsed object. Section index 0 is the undefined section. */
  datatype ObjectFile = ObjectFile(sections: seq<Section>, symbols: seq<Symbol>, relocations: seq<Relocation>) {
    predicate Placed(i: nat) {
      i < |sections| && (sections[i].cls == Text || sections[i].cls == Rodata)
    }

    /** A call that needs an in-image trampoline: PLT32 against an undefined symbol. */
    predicate CallsOut(k: nat) {
      k < |relocations| && relocations[k].typ == Plt32 && 0 < relocations[k].symbol < |symbols|
      && symbols[relocations[k].symbol].section == 0
    }

    ghost predicate Called(s: nat) {
      exists k: nat :: CallsOut(k) && relocations[k].symbol == s
    }
  }

  /** Where everything lies in the image. `order` lists the placed sections, then the slots. */
  datatype Plan = Plan(sectionOffset: map<nat, nat>, trampoline: map<nat, nat>, imageSize: nat)

  /** The plan in pieces: the placed sections in index order, then the slots in order of creation. */
  ghost predicate Describes(obj: ObjectFile, plan: Plan, placed: seq<nat>, slots: seq<nat>) {
    && (forall i, j :: 0 <= i < j < |placed| ==> placed[i] < placed[j])
    && (forall i, j :: 0 <= i < j < |slots| ==> slots[i] != slots[j])
    && (forall i :: i in placed <==> i in plan.sectionOffset)
    && (forall s :: s in slots <==> s in plan.trampoline)
    && (forall i :: i in plan.sectionOffset ==> obj.Placed(i))
    && Packed(Pieces(obj, plan, placed, slots), plan.imageSize)
  }

  ghost function Pieces(obj: ObjectFile, plan: Plan, placed: seq<nat>, slots: seq<nat>): (r: seq<Piece>)
    ensures |r| == |placed| + |slots|
  {
    seq(|placed|, k requires 0 <= k < |placed| => SectionPiece(obj, plan, placed[k]))
    + seq(|slots|, k requires 0 <= k < |slots| => SlotPiece(plan, slots[k]))
  }

  ghost function SectionPiece(obj: ObjectFile, plan: Plan, i: nat): Piece {
    if i in plan.sectionOffset && i < |obj.sections| then
      Piece(plan.sectionOffset[i], obj.sections[i].size, Max(SECTION_ALIGN, obj.sections[i].align))
    else Piece(0, 0, 0)
  }

  ghost function SlotPiece(plan: Plan, s: nat): Piece {
    if s in plan.trampoline then Piece(plan.trampoline[s], TRAMPOLINE_SIZE, SECTION_ALIGN) else Piece(0, 0, 0)
  }

  /** Lay out text and read-only data, then one trampoline slot for every undefined call target. */
  method PlanObject(obj: ObjectFile) returns (r: Option<Plan>, ghost placed: seq<nat>, ghost slots: seq<nat>)
    ensures r.Some? ==> Describes(obj, r.value, placed, slots)
    ensures r.Some? ==> forall i: nat :: i in r.value.sectionOffset <==> obj.Placed(i)
    ensures r.Some? ==> forall s: nat :: s in r.value.trampoline <==> obj.Called(s)
    ensures r.Some? ==> r.value.imageSize > 0
    ensures r.None? <==> (exists i: nat :: obj.Placed(i) && obj.sections[i].align > MAX_SECTION_ALIGN)
                         || (forall i: nat :: obj.Placed(i) ==> obj.sections[i].size == 0)
  {
    slots := [];
    var fits, plan;
    fits, plan, placed := PlanSections(obj);
    if !fits || plan.imageSize == 0 {
      return None, placed, slots;
    }
    plan, slots := PlanSlots(obj, plan, placed);
    r := Some(plan);
  }

  method PlanSections(obj: ObjectFile) returns (fits: bool, plan: Plan, ghost placed: seq<nat>)
    ensures Describes(obj, plan, placed, []) && plan.trampoline == map[]
    ensures fits <==> forall j: nat :: obj.Placed(j) ==> obj.sections[j].align <= MAX_SECTION_ALIGN
    ensures fits ==> forall j: nat :: j in plan.sectionOffset <==> obj.Placed(j)
    ensures fits ==> (plan.imageSize == 0 <==> forall j: nat :: obj.Placed(j) ==> obj.sections[j].size == 0)
  {
    hide Describes;
    plan, placed := Plan(map[], map[], 0), [];
    NothingPlanned(obj);
    for i := 0 to |obj.sections|
      invariant Describes(obj, plan, placed, []) && plan.trampoline == map[]
      invariant forall j: nat :: j in plan.sectionOffset <==> j < i && obj.Placed(j)
      invariant forall j: nat :: j < i && obj.Placed(j) ==> obj.sections[j].align <= MAX_SECTION_ALIGN
      invariant plan.imageSize == 0 <==> forall j: nat :: j < i && obj.Placed(j) ==> obj.sections[j].size == 0
    {
      if !obj.Placed(i) {
        continue;
      }
      if obj.sections[i].align > MAX_SECTION_ALIGN {
        return false, plan, placed;
      }
      plan := PlaceSection(obj, plan, i, placed);
      placed := placed + [i];
    }
    fits := true;
  }

  lemma NothingPlanned(obj: ObjectFile)
    ensures Describes(obj, Plan(map[], map[], 0), [], [])
  {
  }

  method PlanSlots(obj: ObjectFile, start: Plan, ghost placed: seq<nat>) returns (plan: Plan, ghost slots: seq<nat>)
    requires Describes(obj, start, placed, []) && start.trampoline == map[]
    ensures Describes(obj, plan, placed, slots) && plan.sectionOffset == start.sectionOffset && start.imageSize <= plan.imageSize
    ensures forall s: nat :: s in plan.trampoline <==> obj.Called(s)
  {
    hide Describes;
    plan, slots := start, [];
    for k := 0 to |obj.relocations|
      invariant Describes(obj, plan, placed, slots) && plan.sectionOffset == start.sectionOffset && start.imageSize <= plan.imageSize
      invariant forall s: nat :: s in plan.trampoline <==> exists j: nat :: j < k && obj.CallsOut(j) && obj.relocations[j].symbol == s
    {
      var s := obj.relocations[k].symbol;
      if obj.CallsOut(k) && s !in plan.trampoline {
        plan := PlaceSlot(obj, plan, s, placed, slots);
        slots := slots + [s];
      }
    }
  }

  method PlaceSection(obj: ObjectFile, plan: Plan, i: nat, ghost placed: seq<nat>) returns (r: Plan)
    requires Describes(obj, plan, placed, []) && plan.trampoline == map[] && obj.Placed(i)
    requires forall j :: j in plan.sectionOffset ==> j < i
    ensures Describes(obj, r, placed + [i], []) && r.trampoline == map[]
    ensures r.sectionOffset.Keys == plan.sectionOffset.Keys + {i}
    ensures plan.imageSize <= r.imageSize && (r.imageSize == 0 <==> plan.imageSize == 0 && obj.sections[i].size == 0)
  {
    hide Packed, Pieces, AlignUp;
    var align := Max(SECTION_ALIGN, obj.sections[i].align);
    var at := AlignUp(plan.imageSize, align);
    NotPlacedYet(obj, plan, i, placed);
    r := plan.(sectionOffset := plan.sectionOffset[i := at], imageSize := at + obj.sections[i].size);
    PackedGrows(Pieces(obj, plan, placed, []), plan.imageSize, obj.sections[i].size, align);
    SectionAdded(obj, plan, r, placed, i);
  }

  lemma NotPlacedYet(obj: ObjectFile, plan: Plan, i: nat, placed: seq<nat>)
    requires Describes(obj, plan, placed, []) && forall j :: j in plan.sectionOffset ==> j < i
    ensures forall k :: 0 <= k < |placed| ==> placed[k] < i
  {
    hide Packed, Pieces;
    assert forall k :: 0 <= k < |placed| ==> placed[k] in placed;
  }

  lemma SectionAdded(obj: ObjectFile, plan: Plan, r: Plan, placed: seq<nat>, i: nat)
    requires i < |obj.sections| && i in r.sectionOffset
    requires forall k :: 0 <= k < |placed| ==> placed[k] != i
    requires r.sectionOffset == plan.sectionOffset[i := r.sectionOffset[i]]
    ensures Pieces(obj, r, placed + [i], [])
         == Pieces(obj, plan, placed, []) + [Piece(r.sectionOffset[i], obj.sections[i].size, Max(SECTION_ALIGN, obj.sections[i].align))]
  {
  }

  method PlaceSlot(obj: ObjectFile, plan: Plan, s: nat, ghost placed: seq<nat>, ghost slots: seq<nat>) returns (r: Plan)
    requires Describes(obj, plan, placed, slots) && s !in plan.trampoline
    ensures Describes(obj, r, placed, slots + [s])
    ensures r.sectionOffset == plan.sectionOffset && r.trampoline.Keys == plan.trampoline.Keys + {s} && plan.imageSize <= r.imageSize
  {
    hide Packed, Pieces, AlignUp;
    var at := AlignUp(plan.imageSize, SECTION_ALIGN);
    SlotIsNew(obj, plan, placed, slots, s);
    r := plan.(trampoline := plan.trampoline[s := at], imageSize := at + TRAMPOLINE_SIZE);
    PackedGrows(Pieces(obj, plan, placed, slots), plan.imageSize, TRAMPOLINE_SIZE, SECTION_ALIGN);
    SlotAdded(obj, plan, r, placed, slots, s);
  }

  lemma SlotIsNew(obj: ObjectFile, plan: Plan, placed: seq<nat>, slots: seq<nat>, s: nat)
    requires Describes(obj, plan, placed, slots) && s !in plan.trampoline
    ensures forall k :: 0 <= k < |slots| ==> slots[k] != s
  {
    hide Packed, Pieces;
    assert forall k :: 0 <= k < |slots| ==> slots[k] in slots;
  }

  lemma SlotAdded(obj: ObjectFile, plan: Plan, r: Plan, placed: seq<nat>, slots: seq<nat>, s: nat)
    requires s in r.trampoline && forall k :: 0 <= k < |slots| ==> slots[k] != s
    requires r.sectionOffset == plan.sectionOffset && r.trampoline == plan.trampoline[s := r.trampoline[s]]
    ensures Pieces(obj, r, placed, slots + [s])
         == Pieces(obj, plan, placed, slots) + [Piece(r.trampoline[s], TRAMPOLINE_SIZE, SECTION_ALIGN)]
  {
  }

  // ---- COFF ----

  /** A COFF section; `unwind` marks .pdata and .xdata. */
  datatype CoffSection = CoffSection(cls: Class, unwind: bool, size: nat, align: nat)

  /** `section` is one-based; zero is undefined, negative numbers are absolute and debug symbols. */
  datatype CoffSymbol = CoffSymbol(section: int, isFunction: bool, storageClass: nat, value: nat, auxiliary: bool) {
    predicate IsCommon() {
      storageClass == 2 && section == 0 && value != 0
    }

    /** An undefined external that is not a common definition. */
    predicate IsImport() {
      !auxiliary && section == 0 && storageClass == 2 && !IsCommon()
    }
  }

  datatype CoffRelocation = CoffRelocation(target: nat, symbol: nat, relative32: bool)

  datatype CoffObject = CoffObject(
    sections: seq<CoffSection>, symbols: seq<CoffSymbol>, relocations: seq<CoffRelocation>)
  {
    predicate IsCode(i: nat) {
      i < |sections| && (sections[i].cls == Text || sections[i].cls == Rodata)
    }

    /** A relocation that needs a slot: a relative site in placed code against an import. */
    predicate Imports(k: nat) {
      k < |relocations| && relocations[k].relative32 && relocations[k].symbol < |symbols|
      && IsCode(relocations[k].target) && symbols[relocations[k].symbol].IsImport()
    }

    /** A code section placed whole, at least sixteen-byte aligned. */
    predicate Places(p: Placement) {
      IsCode(p.index) && p.piece.size == sections[p.index].size && p.piece.align == Max(SECTION_ALIGN, sections[p.index].align)
    }

    /** An unwind section placed whole, at least four-byte aligned. */
    predicate PlacesUnwind(p: Placement) {
      p.index < |sections| && sections[p.index].unwind
      && p.piece.size == sections[p.index].size && p.piece.align == Max(UNWIND_ALIGN, sections[p.index].align)
    }

    predicate DefinesFunction(s: nat) {
      s < |symbols| && !symbols[s].auxiliary && symbols[s].isFunction && 1 <= symbols[s].section <= |sections|
      && sections[symbols[s].section - 1].cls == Text
    }
  }

  datatype Placement = Placement(index: nat, piece: Piece)

  datatype CoffPlan = CoffPlan(
    code: seq<Placement>, unwind: seq<Placement>, functions: seq<(nat, nat)>, trampolines: seq<(nat, nat)>, imageSize: nat)

  /** The stored offset of a function lies its symbol's value behind the placement of its section. */
  predicate Locates(obj: CoffObject, code: seq<Placement>, f: (nat, nat)) {
    obj.DefinesFunction(f.0) &&
    exists p :: p in code && p.index == obj.symbols[f.0].section - 1 && f.1 == Narrow(p.piece.offset + obj.symbols[f.0].value)
  }

  function Bare(ps: seq<Placement>): (r: seq<Piece>)
    ensures |r| == |ps| && forall k :: 0 <= k < |r| ==> r[k] == ps[k].piece
  {
    seq(|ps|, k requires 0 <= k < |ps| => ps[k].piece)
  }

  lemma BareAppend(ps: seq<Placement>, p: Placement)
    ensures Bare(ps + [p]) == Bare(ps) + [p.piece]
  {
  }

  predicate IsSlot(p: Piece) {
    p.size == TRAMPOLINE_SIZE && p.align == SECTION_ALIGN
  }

  function Indices(ps: seq<Placement>): set<nat> {
    set p | p in ps :: p.index
  }

  /** Offsets are stored in 32 bits. */
  function Narrow(v: nat): nat {
    v % TWO_32
  }

  /** Place one more piece at the next aligned offset. */
  function Next(imageSize: nat, size: nat, align: nat): Piece
    requires align > 0
  {
    Piece(AlignUp(imageSize, align), size, align)
  }

  /** The first loop: code sections in index order, or a refusal of an over-aligned one. */
  method PlaceCode(obj: CoffObject) returns (fits: bool, code: seq<Placement>, size: nat)
    ensures fits <==> forall i: nat :: obj.IsCode(i) ==> obj.sections[i].align <= MAX_SECTION_ALIGN
    ensures fits ==> Packed(Bare(code), size) && forall i: nat :: i in Indices(code) <==> obj.IsCode(i)
    ensures fits ==> forall p :: p in code ==> obj.Places(p)
  {
    hide Packed;
    code, size := [], 0;
    NothingPacked();
    for i := 0 to |obj.sections|
      invariant forall j: nat :: j < i && obj.IsCode(j) ==> obj.sections[j].align <= MAX_SECTION_ALIGN
      invariant Packed(Bare(code), size) && forall j: nat :: j in Indices(code) <==> j < i && obj.IsCode(j)
      invariant forall p :: p in code ==> obj.Places(p)
    {
      if !obj.IsCode(i) {
        continue;
      }
      if obj.sections[i].align > MAX_SECTION_ALIGN {
        return false, code, size;
      }
      assert [] + Bare(code) == Bare(code);
      code, size := Place(code, [], size, i, obj.sections[i].size, Max(SECTION_ALIGN, obj.sections[i].align));
      assert [] + Bare(code) == Bare(code);
    }
    fits := true;
  }

  lemma NothingPacked()
    ensures Packed(Bare([]), 0)
  {
  }

  /** One more placement at the next aligned offset, behind `front` and the placements so far. */
  method Place(ps: seq<Placement>, front: seq<Piece>, size: nat, index: nat, length: nat, align: nat)
    returns (r: seq<Placement>, newSize: nat)
    requires align > 0 && Packed(front + Bare(ps), size)
    ensures r == ps + [Placement(index, Next(size, length, align))]
    ensures Packed(front + Bare(r), newSize) && Indices(r) == Indices(ps) + {index}
  {
    hide Packed, AlignUp;
    var p := Placement(index, Next(size, length, align));
    r := ps + [p];
    newSize := p.piece.offset + length;
    PackedGrows(front + Bare(ps), size, length, align);
    BareAppend(ps, p);
    assert front + Bare(r) == front + Bare(ps) + [p.piece];
    assert forall i :: i in Indices(r) <==> i in Indices(ps) || i == index by {
      assert forall q :: q in r <==> q in ps || q == p;
    }
  }

  method PlaceUnwind(obj: CoffObject, front: seq<Piece>, start: nat) returns (unwind: seq<Placement>, size: nat)
    requires Packed(front, start)
    ensures Packed(front + Bare(unwind), size)
    ensures forall i: nat :: i in Indices(unwind) <==> i < |obj.sections| && obj.sections[i].unwind
    ensures forall p :: p in unwind ==> obj.PlacesUnwind(p)
  {
    unwind, size := [], start;
    assert front + Bare(unwind) == front;
    for i := 0 to |obj.sections|
      invariant Packed(front + Bare(unwind), size)
      invariant forall j: nat :: j in Indices(unwind) <==> j < i && obj.sections[j].unwind
      invariant forall p :: p in unwind ==> obj.PlacesUnwind(p)
    {
      if obj.sections[i].unwind {
        unwind, size := Place(unwind, front, size, i, obj.sections[i].size, Max(UNWIND_ALIGN, obj.sections[i].align));
      }
    }
  }

  lemma IndicesHold(slots: seq<Placement>)
    ensures forall i :: 0 <= i < |slots| ==> slots[i].index in Indices(slots)
  {
    assert forall i :: 0 <= i < |slots| ==> slots[i] in slots;
  }

  /** One slot per import referenced from placed code, however often it is referenced. */
  method PlaceImports(obj: CoffObject, front: seq<Piece>, start: nat) returns (slots: seq<Placement>, size: nat)
    requires Packed(front, start)
    ensures Packed(front + Bare(slots), size)
    ensures forall s: nat :: s in Indices(slots) <==> exists k: nat :: obj.Imports(k) && obj.relocations[k].symbol == s
    ensures forall i, j :: 0 <= i < j < |slots| ==> slots[i].index != slots[j].index
    ensures forall p :: p in slots ==> IsSlot(p.piece)
  {
    hide Packed;
    slots, size := [], start;
    assert front + Bare(slots) == front;
    for k := 0 to |obj.relocations|
      invariant Packed(front + Bare(slots), size)
      invariant forall s: nat :: s in Indices(slots) <==> exists j: nat :: j < k && obj.Imports(j) && obj.relocations[j].symbol == s
      invariant forall i, j :: 0 <= i < j < |slots| ==> slots[i].index != slots[j].index
      invariant forall p :: p in slots ==> IsSlot(p.piece)
    {
      var s := obj.relocations[k].symbol;
      if obj.Imports(k) && s !in Indices(slots) {
        IndicesHold(slots);
        slots, size := Place(slots, front, size, s, TRAMPOLINE_SIZE, SECTION_ALIGN);
      }
    }
  }

  /** Every function defined in a placed text section, with its stored offset. */
  method FindFunctions(obj: CoffObject, code: seq<Placement>) returns (functions: seq<(nat, nat)>)
    requires forall i: nat :: i in Indices(code) <==> obj.IsCode(i)
    ensures forall s: nat :: obj.DefinesFunction(s) <==> exists at :: (s, at) in functions
    ensures forall f :: f in functions ==> Locates(obj, code, f)
  {
    functions := [];
    for s := 0 to |obj.symbols|
      invariant forall t: nat :: t < s && obj.DefinesFunction(t) <==> exists at :: (t, at) in functions
      invariant forall f :: f in functions ==> Locates(obj, code, f)
    {
      if !obj.DefinesFunction(s) {
        continue;
      }
      var section := obj.symbols[s].section - 1;
      assert obj.IsCode(section) && section in Indices(code);
      var p := FindPlacement(code, section);
      ghost var before := functions;
      functions := functions + [(s, Narrow(p.piece.offset + obj.symbols[s].value))];
      assert functions[|before|] == (s, Narrow(p.piece.offset + obj.symbols[s].value));
      assert forall f :: f in functions <==> f in before || f == functions[|before|];
    }
  }

  method FindPlacement(code: seq<Placement>, section: nat) returns (p: Placement)
    requires section in Indices(code)
    ensures p in code && p.index == section
  {
    var i := 0;
    while code[i].index != section
      invariant 0 <= i < |code| && forall j :: 0 <= j < i ==> code[j].index != section
      decreases |code| - i
    {
      if i + 1 == |code| {
        assert false;
      }
      i := i + 1;
    }
    p := code[i];
  }

  /** The plan for a COFF object: code, then the unwind tail, then one slot per import. `slots` are the
      slots at full width; the plan keeps their offsets in 32 bits. */
  method PlanImage(obj: CoffObject) returns (r: Option<CoffPlan>, ghost slots: seq<Placement>)
    ensures r.None? <==> (exists i: nat :: obj.IsCode(i) && obj.sections[i].align > MAX_SECTION_ALIGN) || (forall i: nat :: !obj.IsCode(i))
    ensures r.Some? ==> Packed(Bare(r.value.code) + Bare(r.value.unwind) + Bare(slots), r.value.imageSize)
    ensures r.Some? ==> forall i: nat :: i in Indices(r.value.code) <==> obj.IsCode(i)
    ensures r.Some? ==> forall p :: p in r.value.code ==> obj.Places(p)
    ensures r.Some? ==> forall i: nat :: i in Indices(r.value.unwind) <==> i < |obj.sections| && obj.sections[i].unwind
    ensures r.Some? ==> forall p :: p in r.value.unwind ==> obj.PlacesUnwind(p)
    ensures r.Some? ==> forall s: nat :: s in Indices(slots) <==> exists k: nat :: obj.Imports(k) && obj.relocations[k].symbol == s
    ensures r.Some? ==> forall i, j :: 0 <= i < j < |slots| ==> slots[i].index != slots[j].index
    ensures r.Some? ==> |r.value.trampolines| == |slots| && forall k :: 0 <= k < |slots| ==>
              IsSlot(slots[k].piece) && r.value.trampolines[k] == (slots[k].index, Narrow(slots[k].piece.offset))
    ensures r.Some? && r.value.imageSize <= TWO_32 ==> forall k :: 0 <= k < |slots| ==> r.value.trampolines[k].1 == slots[k].piece.offset
    ensures r.Some? ==> forall f :: f in r.value.functions ==> Locates(obj, r.value.code, f)
    ensures r.Some? ==> forall s: nat :: obj.DefinesFunction(s) <==> exists at :: (s, at) in r.value.functions
  {
    slots := [];
    var fits, code, size := PlaceCode(obj);
    if !fits {
      return None, slots;
    }
    if code == [] {
      assert forall i: nat :: i !in Indices(code);
      return None, slots;
    }
    assert code[0] in code && code[0].index in Indices(code);
    var unwind, imports;
    unwind, size := PlaceUnwind(obj, Bare(code), size);
    var functions := FindFunctions(obj, code);
    imports, size := PlaceImports(obj, Bare(code) + Bare(unwind), size);
    slots := imports;
    var trampolines := seq(|imports|, k requires 0 <= k < |imports| => (imports[k].index, Narrow(imports[k].piece.offset)));
    SlotsInside(Bare(code) + Bare(unwind), slots, size);
    assert forall k :: 0 <= k < |slots| ==> slots[k] in slots;
    r := Some(CoffPlan(code, unwind, functions, trampolines, size));
  }

  lemma SlotsInside(front: seq<Piece>, slots: seq<Placement>, size: nat)
    requires Packed(front + Bare(slots), size) && forall p :: p in slots ==> IsSlot(p.piece)
    ensures forall k :: 0 <= k < |slots| ==> slots[k].piece.offset < size
  {
    forall k | 0 <= k < |slots|
      ensures slots[k].piece.offset < size
    {
      assert slots[k] in slots && (front + Bare(slots))[|front| + k] == slots[k].piece;
    }
  }
}
