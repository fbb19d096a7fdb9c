/** Loading one object: every check, the layout, the storage and the image. */
module Loader {
  import opened Wrappers
  import opened Words
  import opened Layout
  import opened Relocations
  import opened Image
  import opened StateBinding
  import opened StateStorage
  import opened Selection
  import opened LiveMemory
  import opened Arena
  import opened Reservations
  import CodePages
  import Linker
  import Access

  const GUARDS: set<string> := {"__cxa_guard_acquire", "__cxa_guard_release", "__cxa_guard_abort", "__cxa_atexit"}

  /** Thread-local symbols, dynamic initialization and relocated initial values are refused. */
  predicate Loadable(obj: ObjectFile) {
    && (forall i :: 0 <= i < |obj.symbols| ==> SymbolLoadable(obj.symbols[i]))
    && (forall k :: 0 <= k < |obj.relocations| ==> !PatchesData(obj, obj.relocations[k]))
  }

  predicate SymbolLoadable(sym: Symbol) {
    sym.typ != ThreadLocal && !("_ZGV" <= sym.name) && sym.name !in GUARDS
  }

  predicate PatchesData(obj: ObjectFile, rel: Relocation) {
    rel.target < |obj.sections| && obj.sections[rel.target].cls == Class.Data
  }

  /** Refused are just objects with a thread-local symbol, with a guard variable or function of dynamic initialization, or with
      a relocation in mutable data. */
  lemma LoadableJustWhen(obj: ObjectFile)
    ensures Loadable(obj)
       <==> (forall sym :: sym in obj.symbols ==> sym.typ != ThreadLocal && NotInitializer(sym.name))
            && (forall rel :: rel in obj.relocations && rel.target < |obj.sections| ==> obj.sections[rel.target].cls != Class.Data)
  {
    forall sym | sym in obj.symbols
      ensures SymbolLoadable(sym) <==> sym.typ != ThreadLocal && NotInitializer(sym.name)
    {
      assert |sym.name| >= 4 && sym.name[..4] == "_ZGV" <==> "_ZGV" <= sym.name;
    }
  }

  ghost predicate NotInitializer(name: string) {
    && !(|name| >= 4 && name[..4] == "_ZGV")
    && name != "__cxa_guard_acquire" && name != "__cxa_guard_release" && name != "__cxa_guard_abort" && name != "__cxa_atexit"
  }

  /** A section has no more bytes than its size, as the parser reads them. */
  predicate WellParsed(obj: ObjectFile) {
    forall i :: 0 <= i < |obj.sections| ==> |obj.sections[i].bytes| <= obj.sections[i].size
  }

  /** The rest of what a load asks the process for. */
  datatype Answers = Answers(calls: map<nat, address>, externals: map<nat, address>)

  predicate ExportsCode(link: Link, i: nat) {
    DefinesCode(link.obj, i) && External(link.obj.symbols[i].bind)
  }

  predicate ExportsState(link: Link, i: nat) {
    i < |link.obj.symbols| && link.obj.symbols[i].typ == Object && External(link.obj.symbols[i].bind) && i in link.storage
  }

  /** The offset of a function is kept in 32 bits. */
  function CodeExport(link: Link, i: nat): Linker.Export
    requires ExportsCode(link, i)
  {
    var sym := link.obj.symbols[i];
    Linker.Export(sym.name, Code, (link.base + (OffsetOf(link.plan, sym.section) + sym.value) % TWO_32) % TWO_64)
  }

  function StateExport(link: Link, i: nat): Linker.Export
    requires ExportsState(link, i)
  {
    Linker.Export(link.obj.symbols[i].name, Variable, link.storage[i].address)
  }

  method CollectExports(link: Link) returns (all: seq<Linker.Export>)
    ensures forall e :: e in all <==> Exported(link, |link.obj.symbols|, e)
  {
    all := [];
    for i := 0 to |link.obj.symbols|
      invariant forall e :: e in all <==> Exported(link, i, e)
    {
      ghost var before := all;
      if ExportsState(link, i) {
        all := all + [StateExport(link, i)];
      } else if ExportsCode(link, i) {
        all := all + [CodeExport(link, i)];
      }
      forall e
        ensures e in all <==> Exported(link, i + 1, e)
      {
        assert e in all <==> e in before || ExportOf(link, i, e);
        ExportedMore(link, i, e);
      }
    }
  }

  predicate Exported(link: Link, n: nat, e: Linker.Export) {
    exists i :: 0 <= i < n && ExportOf(link, i, e)
  }

  lemma ExportedMore(link: Link, i: nat, e: Linker.Export)
    ensures Exported(link, i + 1, e) <==> Exported(link, i, e) || ExportOf(link, i, e)
  {
  }

  predicate ExportOf(link: Link, i: nat, e: Linker.Export) {
    (ExportsState(link, i) && e == StateExport(link, i)) || (ExportsCode(link, i) && e == CodeExport(link, i))
  }

  /** A sibling that calls an exported function reaches its first byte, unless the offset is cut off or
      the symbol lies outside its section. */
  lemma ExportedCodeInImage(link: Link, placed: seq<nat>, slots: seq<nat>, i: nat)
    requires Planned(link, placed, slots) && ExportsCode(link, i) && link.plan.imageSize <= TWO_32
    requires link.obj.symbols[i].value < link.obj.sections[link.obj.symbols[i].section].size
    ensures var section := link.obj.symbols[i].section; var at := CodeExport(link, i).address;
      link.base <= at && InSection(link, section, at - link.base)
      && at - link.base - link.plan.sectionOffset[section] == link.obj.symbols[i].value
  {
    hide Describes;
    assert link.obj.Placed(link.obj.symbols[i].section);
    var x := SectionPieceAt(link, placed, slots, link.obj.symbols[i].section);
  }

  /** A section whose symbols are all the program's own variables is moved as one: no access to it goes astray. */
  lemma LiveSectionMovesAsOne(b: Binder, link: Link, brought: seq<Brought>, section: nat, i: nat)
    requires link.obj == b.obj && BoundTo(b, |b.obj.symbols|, link.storage, brought) && Anchored(b, link.anchors)
    requires Anchors(b, i, section)
    requires forall c: nat :: b.Mutable(c) && b.obj.symbols[c].section == section ==> c in b.live && NotElsewhere(b, c)
    ensures section in link.anchors && Access.MovesAsOne(link, section, link.anchors[section])
  {
    hide BoundTo, Anchored, CommittedAs;
    AnchoredAt(b, link.anchors, i, section);
    forall c: nat | c < |link.obj.symbols| && c in link.storage && link.obj.symbols[c].section == section
      ensures Bias(link, c) == link.anchors[section]
    {
      BoundMutable(b, link.storage, brought, c);
      BindingMeans(b, link.storage, brought, c);
      AnchoredAt(b, link.anchors, c, section);
    }
  }

  /** No earlier generation committed other storage for the program's own variable. */
  ghost predicate NotElsewhere(b: Binder, c: nat)
    requires b.Mutable(c) && c in b.live
  {
    forall k: nat :: CommittedAs(b, c, k) ==> b.committed[k].address == b.live[c]
  }

  lemma AnchoredAt(b: Binder, anchors: map<nat, address>, i: nat, section: nat)
    requires Anchored(b, anchors)
    ensures Anchors(b, i, section) ==> section in anchors && anchors[section] == Anchor(b, i)
  {
  }

  lemma BoundMutable(b: Binder, storage: map<nat, Storage>, brought: seq<Brought>, c: nat)
    requires BoundTo(b, |b.obj.symbols|, storage, brought) && c in storage
    ensures b.Mutable(c)
  {
    hide OriginOf, BroughtRight;
  }

  datatype LoadedObject = LoadedObject(image: Linker.CodeImage, brought: seq<Brought>, replaced: seq<Replaced>)

  /** Everything that holds of a loaded object: a sound plan near the code it replaces, storage for every mutable symbol,
      the relocated image, the exports, the fields left to linking, and every function to be redirected. */
  ghost predicate LoadedAs(
    b: Binder, p: Program, link: Link, placed: seq<nat>, slots: seq<nat>, hint: address,
    code: seq<byte>, pending: seq<Fixup>, exports: seq<Linker.Export>, brought: seq<Brought>, replaced: seq<Replaced>)
  {
    && Loadable(b.obj) && link.obj == b.obj && Planned(link, placed, slots) && (forall s: nat :: s in link.plan.trampoline <==> b.obj.Called(s))
    && (exists i: nat :: HintFrom(p, b.obj, i, hint)) && CodePages.RangeWithinRel32(link.base, link.base + link.plan.imageSize, hint)
    && BoundTo(b, |b.obj.symbols|, link.storage, brought) && Anchored(b, link.anchors)
    && Accepted(Effects(link)) && Inside(Effects(link), link.plan.imageSize) && Relocated(link, code) && FixupsAre(link, pending)
    && (FieldsFit(b.obj) ==> Faithful(link, code) && (link.plan.imageSize <= TWO_32 ==> FixupsApart(pending)))
    && (forall e :: e in exports <==> Exported(link, |link.obj.symbols|, e))
    && Selected(p, link, replaced)
  }

  // ---- why a load fails ----

  datatype Obstacle =
    Unloadable | Unplannable | TooLarge | Unhinted | NoCodeRoom | Drifted | BadState | NoStateRoom(brought: seq<Brought>, crowd: Ground)
    | Unrelocatable | Undecided

  /** No function of the object replaces one of the program, or the first that does replaces one at address zero. */
  ghost predicate NoHint(b: Binder, p: Program) {
    (forall i: nat :: DefinesCode(b.obj, i) ==> p.ByName(b.obj.symbols[i].name, 0).None?)
    || exists i: nat :: HintFrom(p, b.obj, i, 0)
  }

  /** Live symbols of one section disagree on where it starts. */
  ghost predicate AnchorsDisagree(b: Binder) {
    exists i: nat, j: nat, s: nat :: Anchors(b, i, s) && Anchors(b, j, s) && Anchor(b, i) != Anchor(b, j)
  }

  /** There is no room for a new variable when the code and some of the storage have theirs. */
  ghost predicate StateCrowded(
    page: nat, floor: nat, b: Binder, owned: set<nat>, base: nat, brought: seq<Brought>, crowd: Ground, hint: nat)
    requires page > 0
  {
    && crowd.owned == owned + {base} + (set a | a in BroughtAt(brought)) && AllHoused(LiveSlots(crowd.pools), crowd.bytes, brought, hint)
    && exists i: nat :: NoRoomAt(page, floor, b, i, crowd, hint)
  }

  /** The obstacle is really there. `bytes`, `pools` and `owned` are the memory and the allocator before the load. */
  ghost predicate Stands(
    why: Obstacle, page: nat, floor: nat, b: Binder, p: Program, answers: Answers, bytes: Bytes, pools: seq<Pool>, owned: set<nat>,
    link: Link, placed: seq<nat>, slots: seq<nat>, hint: address)
    requires page > 0
  {
    match why
    case Unloadable => !Loadable(b.obj)
    case Unplannable =>
      || (exists i: nat :: b.obj.Placed(i) && b.obj.sections[i].align > MAX_SECTION_ALIGN)
      || (forall i: nat :: b.obj.Placed(i) ==> b.obj.sections[i].size == 0)
    case TooLarge => Describes(b.obj, link.plan, placed, slots) && link.plan.imageSize > MAX_64
    case Unhinted => NoHint(b, p)
    case NoCodeRoom =>
      Describes(b.obj, link.plan, placed, slots) && (exists i: nat :: HintFrom(p, b.obj, i, hint))
      && NoRoomFor(page, floor, bytes, pools, hint, link.plan.imageSize)
    case Drifted => AnchorsDisagree(b)
    case BadState => exists i: nat :: b.Mutable(i) && Unbindable(b, i)
    case NoStateRoom(brought, crowd) => StateCrowded(page, floor, b, owned, link.base, brought, crowd, hint)
    case Unrelocatable =>
      && link.obj == b.obj && Planned(link, placed, slots) && link.calls == answers.calls && link.externals == answers.externals
      && (exists brought :: BoundTo(b, |b.obj.symbols|, link.storage, brought)) && Anchored(b, link.anchors)
      && !(Accepted(Effects(link)) && Inside(Effects(link), link.plan.imageSize))
    case Undecided => exists i: nat :: Refuses(p, b.obj, i)
  }

  lemma NoCodeRoomStands(
    page: nat, floor: nat, b: Binder, p: Program, answers: Answers, bytes: Bytes, pools: seq<Pool>, owned: set<nat>, link: Link,
    placed: seq<nat>, slots: seq<nat>, hint: address)
    requires page > 0
    requires Describes(b.obj, link.plan, placed, slots) && (exists i: nat :: HintFrom(p, b.obj, i, hint))
             && NoRoomFor(page, floor, bytes, pools, hint, link.plan.imageSize)
    ensures Stands(NoCodeRoom, page, floor, b, p, answers, bytes, pools, owned, link, placed, slots, hint)
  {
    hide Describes, HintFrom, NoRoomFor;
  }

  lemma DriftedStands(
    page: nat, floor: nat, b: Binder, p: Program, answers: Answers, bytes: Bytes, pools: seq<Pool>, owned: set<nat>, link: Link,
    placed: seq<nat>, slots: seq<nat>, hint: address)
    requires page > 0
    requires exists i: nat, j: nat, s: nat :: Anchors(b, i, s) && Anchors(b, j, s) && Anchor(b, i) != Anchor(b, j)
    ensures Stands(Drifted, page, floor, b, p, answers, bytes, pools, owned, link, placed, slots, hint)
  {
  }

  lemma BadStateStands(
    page: nat, floor: nat, b: Binder, p: Program, answers: Answers, bytes: Bytes, pools: seq<Pool>, owned: set<nat>, link: Link,
    placed: seq<nat>, slots: seq<nat>, hint: address)
    requires page > 0
    requires exists i: nat :: b.Mutable(i) && Unbindable(b, i)
    ensures Stands(BadState, page, floor, b, p, answers, bytes, pools, owned, link, placed, slots, hint)
  {
    hide Unbindable;
  }

  lemma NoStateRoomStands(
    page: nat, floor: nat, b: Binder, p: Program, answers: Answers, bytes: Bytes, pools: seq<Pool>, owned: set<nat>, link: Link,
    placed: seq<nat>, slots: seq<nat>, hint: address, brought: seq<Brought>, crowd: Ground)
    requires page > 0
    requires StateCrowded(page, floor, b, owned, link.base, brought, crowd, hint)
    ensures Stands(NoStateRoom(brought, crowd), page, floor, b, p, answers, bytes, pools, owned, link, placed, slots, hint)
  {
    hide StateCrowded;
  }

  lemma UnlinkedStands(
    page: nat, floor: nat, b: Binder, p: Program, answers: Answers, bytes: Bytes, pools: seq<Pool>, owned: set<nat>, link: Link,
    placed: seq<nat>, slots: seq<nat>, hint: address, brought: seq<Brought>, why: Obstacle)
    requires page > 0
    requires link.obj == b.obj && Planned(link, placed, slots) && link.calls == answers.calls && link.externals == answers.externals
    requires BoundTo(b, |b.obj.symbols|, link.storage, brought) && Anchored(b, link.anchors)
    requires (why == Unrelocatable && !(Accepted(Effects(link)) && Inside(Effects(link), link.plan.imageSize)))
             || (why == Undecided && exists i: nat :: Refuses(p, b.obj, i))
    ensures Stands(why, page, floor, b, p, answers, bytes, pools, owned, link, placed, slots, hint)
  {
    hide Describes, BoundTo, Anchored, EffectOf, Refuses;
  }

  /** The load's own reservations: the code near the hint, holding its image and executable, and the fresh storage. */
  ghost predicate Installed(
    live: set<Slot>, bytes: Bytes, ownedNow: set<nat>, owned: set<nat>, base: nat, code: seq<byte>, brought: seq<Brought>, hint: nat)
  {
    && (exists s :: CodePages.SlotFor(live, base, s) && s.executable && base + |code| <= s.usableEnd)
    && Holds(bytes, base, code) && AllHoused(live, bytes, brought, hint)
    && base !in owned && base !in BroughtAt(brought) && ownedNow == owned + {base} + (set a | a in BroughtAt(brought))
  }

  /** Load an object: reserve memory for its code near the code it replaces, and for the storage it introduces; build the image
      for these addresses, choose the functions to replace, and make the code executable. On every failure all reservations
      are given back, and unless the kernel refused something, `why` tells what stood in the way. `wild` tells that a relocation
      was to write beyond the image, which is undefined. */
  method Load(b: Binder, p: Program, answers: Answers, pages: CodePages.CodePages)
    returns (r: Option<LoadedObject>, ghost wild: bool, ghost link: Link, ghost placed: seq<nat>, ghost slots: seq<nat>,
             ghost hint: address, ghost why: Obstacle)
    requires WellParsed(b.obj) && pages.Valid()
    modifies pages, pages.memory
    ensures pages.Valid() && AllIn(old(LiveSlots(pages.pools)), LiveSlots(pages.pools))
    ensures r.Some? ==> LoadedAs(b, p, link, placed, slots, hint, r.value.image.code[..], r.value.image.pending, r.value.image.exports,
                                 r.value.brought, r.value.replaced)
    ensures r.Some? ==> fresh(r.value.image) && fresh(r.value.image.code) && r.value.image.base == link.base
    ensures r.Some? ==> link.calls == answers.calls && link.externals == answers.externals
    ensures r.Some? ==> Installed(LiveSlots(pages.pools), pages.memory.bytes, pages.owned, old(pages.owned), link.base,
                                  r.value.image.code[..], r.value.brought, hint)
    ensures r.Some? && old(Settled(b, pages.memory.bytes, pages.pools)) ==> BroughtApart(b, r.value.brought)
    ensures r.None? ==> pages.owned == old(pages.owned)
    ensures wild ==> r.None? && exists k: nat :: Wild(Effects(link), link.plan.imageSize, k) && Tame(Effects(link), link.plan.imageSize, k)
    ensures FieldsInside(b.obj) ==> !wild
    ensures pages.memory.refused >= old(pages.memory.refused)
    ensures r.None? && pages.memory.refused == old(pages.memory.refused) ==>
              Stands(why, pages.page, pages.floor, b, p, answers, old(pages.memory.bytes), old(pages.pools), old(pages.owned), link, placed, slots, hint)
  {
    hide Describes, BoundTo, Anchored, OriginOf, EffectOf, RightByte, FieldsFit, FieldsInside, FixupsAre, Relocated, ChoiceOf, HintFrom,
      Selected, Faithful, Wild, Tame, LoadedAs, Installed, ArenaOk, LiveSlots, BroughtApart, Settled, TookAs, Loadable, NoHint, AnchorsDisagree,
      StateCrowded, CodePages.Crowded, CodePages.FirstRoom, CodePages.Full, Unbindable, Refuses, Stands, CodePages.PoolRangesMapped,
      CodePages.OwnersOk, CodePages.InPools, CodePages.Granted, CodePages.Reserved, CodePages.CodePages.NewNearest;
    ghost var bytes, pools, mine := pages.memory.bytes, pages.pools, pages.owned;
    wild, r := false, None;
    var plan, near;
    plan, near, placed, slots, why := PlanNear(b, p);
    hint := near;
    link := Link(b.obj, if plan.Some? then plan.value else Plan(map[], map[], 0), 0, map[], map[], map[], map[]);
    if plan.None? || plan.value.imageSize > MAX_64 || near == 0 {
      NearStands(pages.page, pages.floor, b, p, answers, bytes, pools, mine, link, placed, slots, hint, why, plan);
      return;
    }
    ghost var was := LiveSlots(pages.pools);
    var h := pages.ReserveNear(near, plan.value.imageSize);
    if h.None? {
      why := NoCodeRoom;
      if pages.memory.refused == old(pages.memory.refused) {
        NoCodeRoomStands(pages.page, pages.floor, b, p, answers, bytes, pools, mine, link, placed, slots, hint);
      }
      return;
    }
    ghost var span := CodePages.Span(pages.page, plan.value.imageSize);
    ghost var s: Slot :| s.begin == h.value.begin
                         && CodePages.Granted(pages.page, was, pages.pools, s, hint, span)
                         && CodePages.Reserved(pages.page, old(pages.memory.bytes), old(pages.pools), pages.memory.bytes, pages.pools, s);
    GrantMapped(pages.page, was, pages.pools, pages.memory.bytes, s, hint, span);
    GrantHouses(pages.page, was, pages.pools, s, hint, span, plan.value.imageSize);
    SettledGrows(b, pages, was, old(pages.memory.bytes), old(pages.pools), s, hint, span);
    r, wild, link, why := LoadAt(b, p, answers, pages, h.value, plan.value, near, placed, slots, old(pages.memory.bytes), old(pages.pools));
    if r.None? {
      GiveBack(pages, [h.value.begin]);
    }
  }

  /** What the plan and the hint of a load must be, or why there are none. The hint is zero when there is none. */
  ghost predicate Near(
    b: Binder, p: Program, plan: Option<Plan>, hint: address, placed: seq<nat>, slots: seq<nat>, why: Obstacle)
  {
    if plan.Some? && plan.value.imageSize <= MAX_64 && hint != 0 then
      && Loadable(b.obj) && Describes(b.obj, plan.value, placed, slots) && plan.value.imageSize > 0
      && (forall i: nat :: i in plan.value.sectionOffset <==> b.obj.Placed(i))
      && (forall s: nat :: s in plan.value.trampoline <==> b.obj.Called(s))
      && exists i: nat :: HintFrom(p, b.obj, i, hint)
    else
      || (why == Unloadable && !Loadable(b.obj))
      || (why == Unplannable && ((exists i: nat :: b.obj.Placed(i) && b.obj.sections[i].align > MAX_SECTION_ALIGN)
                                 || (forall i: nat :: b.obj.Placed(i) ==> b.obj.sections[i].size == 0)))
      || (why == TooLarge && plan.Some? && Describes(b.obj, plan.value, placed, slots) && plan.value.imageSize > MAX_64)
      || (why == Unhinted && NoHint(b, p))
  }

  lemma NearStands(
    page: nat, floor: nat, b: Binder, p: Program, answers: Answers, bytes: Bytes, pools: seq<Pool>, owned: set<nat>, link: Link,
    placed: seq<nat>, slots: seq<nat>, hint: address, why: Obstacle, plan: Option<Plan>)
    requires page > 0 && Near(b, p, plan, hint, placed, slots, why) && (plan.Some? ==> link.plan == plan.value)
    requires plan.None? || plan.value.imageSize > MAX_64 || hint == 0
    ensures Stands(why, page, floor, b, p, answers, bytes, pools, owned, link, placed, slots, hint)
  {
    hide Describes, Loadable, NoHint;
  }

  /** The checks of a load that touch no memory: the layout, and where the code it replaces is. */
  method PlanNear(b: Binder, p: Program)
    returns (plan: Option<Plan>, hint: address, ghost placed: seq<nat>, ghost slots: seq<nat>, ghost why: Obstacle)
    requires WellParsed(b.obj)
    ensures Near(b, p, plan, hint, placed, slots, why)
  {
    hide Describes, HintFrom, Loadable;
    plan, hint, placed, slots, why := None, 0, [], [], Unloadable;
    if !Loadable(b.obj) {
      return;
    }
    plan, placed, slots := PlanObject(b.obj);
    if plan.None? {
      why := Unplannable;
      return;
    }
    if plan.value.imageSize > MAX_64 {
      why := TooLarge;
      return;
    }
    var near := FindHint(p, b.obj);
    if near.None? {
      why := Unhinted;
      return;
    }
    hint := near.value;
  }

  lemma GrantHouses(page: nat, was: set<Slot>, pools: seq<Pool>, s: Slot, hint: nat, span: nat, size: nat)
    requires CodePages.Granted(page, was, pools, s, hint, span) && 0 < size <= span
    ensures CodePages.SlotFor(LiveSlots(pools), s.begin, s) && s.begin + size <= s.usableEnd
    ensures CodePages.RangeWithinRel32(s.begin, s.begin + size, hint)
    ensures AllIn(was, LiveSlots(pools)) && NoneAt(was, s.begin)
  {
    hide ArenaOk, LiveSlots;
    GrantNew(page, was, pools, s, hint, span);
  }

  lemma SettledGrows(b: Binder, pages: CodePages.CodePages, was: set<Slot>, bytes: Bytes, pools: seq<Pool>, s: Slot, hint: nat, span: nat)
    requires was == LiveSlots(pools) && CodePages.Granted(pages.page, was, pages.pools, s, hint, span)
    requires forall a :: a in bytes && !CodePages.InPools(pools, a) ==> a in pages.memory.bytes && !CodePages.InPools(pages.pools, a)
    ensures Settled(b, bytes, pools) ==> Settled(b, pages.memory.bytes, pages.pools)
  {
    hide ArenaOk, LiveSlots, CodePages.InPools, Settled;
    GrantKeeps(pages.page, was, pages.pools, s, hint, span);
    if Settled(b, bytes, pools) {
      SettledStays(b, bytes, pools, pages.memory.bytes, pages.pools);
    }
  }

  /** Everything of a load that asks the allocator for nothing: the exports, the image, and the functions to replace. */
  method LinkObject(
    b: Binder, p: Program, l: Link, brought: seq<Brought>, hint: address, ghost placed: seq<nat>, ghost slots: seq<nat>)
    returns (r: Option<LoadedObject>, ghost wild: bool, ghost why: Obstacle)
    requires Loadable(b.obj) && l.obj == b.obj && Planned(l, placed, slots) && l.base < TWO_64
    requires (forall s: nat :: s in l.plan.trampoline <==> b.obj.Called(s))
    requires (exists i: nat :: HintFrom(p, b.obj, i, hint)) && CodePages.RangeWithinRel32(l.base, l.base + l.plan.imageSize, hint)
    requires BoundTo(b, |b.obj.symbols|, l.storage, brought) && Anchored(b, l.anchors)
    ensures r.Some? ==> r.value.brought == brought && fresh(r.value.image) && fresh(r.value.image.code) && r.value.image.base == l.base
    ensures r.Some? ==> LoadedAs(b, p, l, placed, slots, hint, r.value.image.code[..], r.value.image.pending, r.value.image.exports,
                                 brought, r.value.replaced) && r.value.image.code.Length == l.plan.imageSize
    ensures wild ==> r.None? && exists k: nat :: Wild(Effects(l), l.plan.imageSize, k) && Tame(Effects(l), l.plan.imageSize, k)
    ensures FieldsInside(b.obj) ==> !wild
    ensures r.None? ==> (why == Unrelocatable && !(Accepted(Effects(l)) && Inside(Effects(l), l.plan.imageSize)))
                        || (why == Undecided && exists i: nat :: Refuses(p, b.obj, i))
  {
    hide Describes, BoundTo, Anchored, EffectOf, RightByte, FieldsFit, FieldsInside, FixupsAre, HintFrom, Selected, Faithful, Wild, Tame, Loadable,
      Exported, Refuses;
    r, why := None, Unrelocatable;
    var exports := CollectExports(l);
    var ok, beyond, image, fixups := BuildImage(l, placed, slots);
    wild := beyond;
    if FieldsInside(b.obj) {
      FieldsInsideImage(l, placed, slots);
      NeverWild(l);
    }
    if ok {
      RelocatedSize(l, image[..]);
      why := Undecided;
      var replaced := SelectRedirects(p, l);
      if replaced.Some? {
        var loaded := new Linker.CodeImage(l.base, exports, image, fixups);
        r := Some(LoadedObject(loaded, brought, replaced.value));
      }
    }
  }

  lemma RelocatedSize(link: Link, image: seq<byte>)
    requires Relocated(link, image)
    ensures |image| == link.plan.imageSize
  {
    hide RightByte, EffectOf;
  }

  /** The load into the memory that was reserved for the code. */
  method LoadAt(
    b: Binder, p: Program, answers: Answers, pages: CodePages.CodePages, h: CodePages.Handle, plan: Plan, hint: address,
    ghost placed: seq<nat>, ghost slots: seq<nat>, ghost bytes: Bytes, ghost pools: seq<Pool>)
    returns (r: Option<LoadedObject>, ghost wild: bool, ghost link: Link, ghost why: Obstacle)
    requires WellParsed(b.obj) && Loadable(b.obj) && pages.Valid() && h.begin in pages.owned && h.begin + h.size <= MAX_64 && h.size == plan.imageSize
    requires exists s :: CodePages.SlotFor(LiveSlots(pages.pools), h.begin, s) && h.begin + h.size <= s.usableEnd
    requires Describes(b.obj, plan, placed, slots) && (forall i: nat :: i in plan.sectionOffset <==> b.obj.Placed(i))
    requires (forall s: nat :: s in plan.trampoline <==> b.obj.Called(s))
    requires (exists i: nat :: HintFrom(p, b.obj, i, hint)) && CodePages.RangeWithinRel32(h.begin, h.begin + h.size, hint)
    modifies pages, pages.memory
    ensures pages.Valid()
    ensures r.Some? ==> LoadedAs(b, p, link, placed, slots, hint, r.value.image.code[..], r.value.image.pending, r.value.image.exports,
                                 r.value.brought, r.value.replaced)
    ensures r.Some? ==> fresh(r.value.image) && fresh(r.value.image.code) && r.value.image.base == link.base == h.begin
    ensures r.Some? ==> link.calls == answers.calls && link.externals == answers.externals
    ensures r.Some? ==> Installed(LiveSlots(pages.pools), pages.memory.bytes, pages.owned, old(pages.owned) - {h.begin}, h.begin,
                                  r.value.image.code[..], r.value.brought, hint)
    ensures r.Some? && old(Settled(b, pages.memory.bytes, pages.pools)) ==> BroughtApart(b, r.value.brought)
    ensures forall s :: s in old(LiveSlots(pages.pools)) && s.begin != h.begin ==> s in LiveSlots(pages.pools)
    ensures r.None? ==> pages.owned == old(pages.owned) && AllIn(old(LiveSlots(pages.pools)), LiveSlots(pages.pools))
    ensures wild ==> r.None? && exists k: nat :: Wild(Effects(link), link.plan.imageSize, k) && Tame(Effects(link), link.plan.imageSize, k)
    ensures FieldsInside(b.obj) ==> !wild
    ensures pages.memory.refused >= old(pages.memory.refused)
    ensures r.None? && pages.memory.refused == old(pages.memory.refused) ==>
              Stands(why, pages.page, pages.floor, b, p, answers, bytes, pools, old(pages.owned) - {h.begin}, link, placed, slots, hint)
  {
    hide Describes, BoundTo, Anchored, OriginOf, EffectOf, RightByte, FieldsFit, FieldsInside, FixupsAre, Relocated, ChoiceOf, HintFrom,
      Selected, Faithful, Wild, Tame, Installed, ArenaOk, LiveSlots, BroughtApart, Settled, TookAs, CodePages.PoolRangesMapped, CodePages.OwnersOk,
      Loadable, LoadedAs, Exported, CodePages.Rewritten, CodePages.ChangedWithin, NoRoomAt, AllHoused, Unbindable, Refuses, Stands, StateCrowded;
    r, wild, why := None, false, Drifted;
    var base: address := h.begin;
    link := Link(b.obj, plan, base, map[], map[], map[], map[]);
    var anchors := AnchorSections(b);
    if anchors.None? {
      DriftedStands(pages.page, pages.floor, b, p, answers, bytes, pools, pages.owned - {h.begin}, link, placed, slots, hint);
      return;
    }
    ghost var owned, live := pages.owned, LiveSlots(pages.pools);
    ghost var s :| CodePages.SlotFor(live, base, s) && base + h.size <= s.usableEnd;
    var storage, brought, starved;
    ghost var crowd;
    storage, brought, starved, crowd := BindState(b, pages, hint);
    if storage.None? {
      why := if starved then NoStateRoom(brought, crowd) else BadState;
      if !starved {
        BadStateStands(pages.page, pages.floor, b, p, answers, bytes, pools, owned - {h.begin}, link, placed, slots, hint);
      } else if pages.memory.refused == old(pages.memory.refused) {
        TookHouses(LiveSlots(crowd.pools), crowd.bytes, crowd.owned, owned, live, brought, hint, base);
        CrowdedState(pages.page, pages.floor, b, owned, base, brought, crowd, hint);
        NoStateRoomStands(pages.page, pages.floor, b, p, answers, bytes, pools, owned - {h.begin}, link, placed, slots, hint, brought, crowd);
      }
      return;
    }
    var l := Link(b.obj, plan, base, answers.calls, answers.externals, storage.value, anchors.value);
    link := l;
    r, wild, why := LinkObject(b, p, l, brought, hint, placed, slots);
    if r.None? {
      UnlinkedStands(pages.page, pages.floor, b, p, answers, bytes, pools, owned - {h.begin}, link, placed, slots, hint, brought, why);
      GiveUp(pages, owned, live, brought, hint);
      return;
    }
    var done := InstallCode(pages, h, r.value.image.code[..], brought, hint, owned, live, s);
    if !done {
      r := None;
    }
  }

  /** Make the code executable, or give everything back that the load brought. */
  method InstallCode(
    pages: CodePages.CodePages, h: CodePages.Handle, code: seq<byte>, brought: seq<Brought>, hint: address,
    ghost owned: set<nat>, ghost live: set<Slot>, ghost s: Slot)
    returns (ok: bool)
    requires pages.Valid() && h.begin in owned && code != [] && |code| == h.size
    requires CodePages.SlotFor(live, h.begin, s) && h.begin + h.size <= s.usableEnd
    requires Took(pages, owned, live, brought, hint)
    modifies pages, pages.memory
    ensures pages.Valid() && pages.memory.refused >= old(pages.memory.refused)
    ensures ok ==> Installed(LiveSlots(pages.pools), pages.memory.bytes, pages.owned, owned - {h.begin}, h.begin, code, brought, hint)
    ensures forall t :: t in live && t.begin != h.begin ==> t in LiveSlots(pages.pools)
    ensures !ok ==> pages.owned == owned && AllIn(live, LiveSlots(pages.pools)) && pages.memory.refused > old(pages.memory.refused)
  {
    hide Installed, ArenaOk, LiveSlots, TookAs, CodePages.PoolRangesMapped, CodePages.OwnersOk, CodePages.Rewritten, CodePages.ChangedWithin;
    ghost var mid, now := pages.memory.bytes, pages.pools;
    TookHouses(LiveSlots(now), mid, pages.owned, owned, live, brought, hint, h.begin);
    var outcome, t := pages.CommitCode(h, code);
    CodeSlotIs(pages.page, now, live, h.begin, s, t);
    SlotMapped(pages.page, now, mid, t);
    HousedKept(pages.page, now, mid, pages.memory.bytes, brought, hint, t, LiveSlots(pages.pools));
    ok := outcome == CodePages.Committed;
    if ok {
      InstalledNow(LiveSlots(pages.pools), mid, pages.memory.bytes, pages.owned, owned, h.begin, code, brought, hint, t);
    } else {
      TookStill(LiveSlots(now), mid, pages.memory.bytes, pages.owned, owned, live, brought, hint);
      GiveUp(pages, owned, live, brought, hint);
    }
  }

  lemma CrowdedState(
    page: nat, floor: nat, b: Binder, owned: set<nat>, base: nat, brought: seq<Brought>, crowd: Ground, hint: nat)
    requires page > 0 && base in owned && crowd.owned == owned + (set a | a in BroughtAt(brought))
    requires AllHoused(LiveSlots(crowd.pools), crowd.bytes, brought, hint) && exists i: nat :: NoRoomAt(page, floor, b, i, crowd, hint)
    ensures StateCrowded(page, floor, b, owned - {base}, base, brought, crowd, hint)
  {
    hide AllHoused, NoRoomAt, LiveSlots;
    assert owned - {base} + {base} == owned;
  }

  lemma CodeSlotIs(page: nat, pools: seq<Pool>, live: set<Slot>, base: nat, s: Slot, t: Slot)
    requires ArenaOk(page, pools) && AllIn(live, LiveSlots(pools)) && CodePages.SlotFor(live, base, s) && CodePages.SlotFor(LiveSlots(pools), base, t)
    ensures s == t
  {
    hide ArenaOk, LiveSlots;
    if s != t {
      LiveSlotsDisjoint(page, pools, s, t);
    }
  }

  lemma InstalledNow(
    now: set<Slot>, mid: Bytes, bytes: Bytes, ownedNow: set<nat>, owned: set<nat>, base: nat, code: seq<byte>, brought: seq<Brought>, hint: nat, t: Slot)
    requires t.(executable := true) in now && t.begin == base && base + |code| <= t.usableEnd && bytes == Write(mid, base, code)
    requires MappedRange(mid, t.begin, t.usableEnd) && AllHoused(now, bytes, brought, hint) && base in owned && base !in BroughtAt(brought)
    requires ownedNow == owned + (set a | a in BroughtAt(brought))
    ensures Installed(now, bytes, ownedNow, owned - {base}, base, code, brought, hint)
  {
    hide AllHoused;
    assert CodePages.SlotFor(now, base, t.(executable := true));
  }

  lemma NeverWild(link: Link)
    requires Inside(Effects(link), link.plan.imageSize)
    ensures forall k: nat :: !Wild(Effects(link), link.plan.imageSize, k)
  {
    hide EffectOf;
  }
}
