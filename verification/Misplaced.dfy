/** An object that loads, and whose code then writes to the wrong address: a variable was added in front of a live one, and
    a four-byte immediate follows the field of a store to either. */
module Misplaced {
  import opened Wrappers
  import opened Words
  import opened Decimals
  import opened Layout
  import opened Relocations
  import opened Image
  import opened StateBinding
  import opened StateStorage
  import opened Selection
  import opened Access
  import opened Loader

  /** The function f is movl $1, addend+8(%rip), against the start of a section that holds the new x and then the live y,
      both local to main.cpp. */
  function Stores(addend: int): ObjectFile {
    ObjectFile(
      [Section("", Other, 0, 1, []), Section(".text", Text, 10, 16, [0xC7, 5, 0, 0, 0, 0, 1, 0, 0, 0]), Section(".data", Class.Data, 16, 4, [])],
      [Symbol("x", 2, Object, Local, 0, 12), Symbol("y", 2, Object, Local, 12, 4), Symbol("", 2, SectionSymbol, Local, 0, 0),
       Symbol("f", 1, Function, Global, 0, 10)],
      [Relocation(1, 2, 2, Pc32, addend)])
  }

  function Process(addend: int): Binder {
    Binder(Stores(addend), "main.cpp", [], map[1 := 0x40_000C], map[1 := 4])
  }

  /** The program has one function f. */
  const RUNNING: Program := Program([LiveFunction("f", 0x41_0000, 64, Global)], false, map[])

  /** Near f, a page of code and a page for x were granted. */
  function Linked(addend: int): Link {
    Link(Stores(addend), Plan(map[1 := 0], map[], 10), 0x50_0000, map[], map[],
         map[0 := Storage(0x60_0000, 12), 1 := Storage(0x40_000C, 4)], map[2 := 0x40_0000])
  }

  const EXPORTS: seq<Linker.Export> := [Linker.Export("f", Code, 0x50_0000)]
  const REPLACED: seq<Replaced> := [Replaced(3, 0, 0x41_0000, 0)]

  /** The object is loaded like this. */
  ghost predicate Loads(addend: int, brought: seq<Brought>, image: seq<byte>) {
    WellParsed(Stores(addend)) && FieldsFit(Stores(addend))
    && BroughtApart(Process(addend), brought)
    && LoadedAs(Process(addend), RUNNING, Linked(addend), [1], [], 0x41_0000, image, [], EXPORTS, brought, REPLACED)
  }

  lemma ObjectLoads(addend: int) returns (brought: seq<Brought>, image: seq<byte>)
    requires -8 <= addend <= 4
    ensures Loads(addend, brought, image)
    ensures EffectOf(Linked(addend), Stores(addend).relocations[0]).Store?
  {
    hide Faithful, EffectOf, BoundTo, BroughtApart, Anchored, Relocated, FixupsAre, Exported, Selected, HintFrom, Planned, FieldsFit, Laid;
    var link := Linked(addend);
    var laid: seq<byte> := link.obj.sections[1].bytes;
    ObjectPlanned(addend);
    ObjectLaid(addend);
    assert link.plan.trampoline.Keys == {};
    ObjectStores(addend);
    brought := ObjectBound(addend);
    ObjectAnchored(addend);
    ObjectSelected(addend);
    ObjectExports(addend);
    FieldsStayApart(link, [1], []);
    RelocatedFaithful(link, laid);
    image := Applied(Effects(link), laid, |Effects(link)|);
    NothingDeferred(addend);
    FieldsInsideImage(link, [1], []);
    LaidRelocated(link, laid);
  }

  lemma LaidRelocated(link: Link, laid: seq<byte>)
    requires Laid(link, laid, |link.obj.sections|, link.plan.trampoline.Keys)
    ensures Relocated(link, Applied(Effects(link), laid, |Effects(link)|))
  {
    hide Laid, EffectOf;
  }

  lemma ObjectPlanned(addend: int)
    ensures Planned(Linked(addend), [1], []) && FieldsFit(Stores(addend)) && Loadable(Stores(addend)) && WellParsed(Stores(addend))
    ensures forall s: nat :: !Stores(addend).Called(s)
  {
  }

  lemma ObjectLaid(addend: int)
    ensures Laid(Linked(addend), Stores(addend).sections[1].bytes, 3, {})
  {
    var link := Linked(addend);
    forall b | 0 <= b < 10
      ensures RightByte(link, 3, {}, b, link.obj.sections[1].bytes[b])
    {
      assert InSection(link, 1, b);
    }
  }

  lemma ObjectStores(addend: int)
    requires -8 <= addend <= 4
    ensures EffectOf(Linked(addend), Stores(addend).relocations[0]).Store?
  {
  }

  lemma NothingDeferred(addend: int)
    requires EffectOf(Linked(addend), Stores(addend).relocations[0]).Store?
    ensures Accepted(Effects(Linked(addend))) && FixupsAre(Linked(addend), []) && FixupsApart([])
  {
    hide EffectOf;
  }

  lemma ObjectBound(addend: int) returns (brought: seq<Brought>)
    ensures BoundTo(Process(addend), 4, Linked(addend).storage, brought) && BroughtApart(Process(addend), brought)
  {
    hide OriginOf, FreshDefinition, Initial;
    var b := Process(addend);
    FreshX(addend);
    brought := [Brought(0, FreshDefinition(b, 0, "local:8:main.cppx", 0x60_0000), Initial(b, 0))];
    assert brought[0].symbol == 0;
  }

  lemma FreshX(addend: int)
    ensures var b := Process(addend);
      OriginOf(b, 0) == Fresh("local:8:main.cppx") && OriginOf(b, 1) == Bound(0x40_000C)
    ensures var d := FreshDefinition(Process(addend), 0, "local:8:main.cppx", 0x60_0000); d.address == 0x60_0000 && d.size == 12
  {
    assert Decimal(8) == "8";
  }

  lemma ObjectAnchored(addend: int)
    ensures Anchored(Process(addend), Linked(addend).anchors)
  {
    assert Anchors(Process(addend), 1, 2);
  }

  /** The new f replaces the running one, and memory is reserved near that. */
  lemma ObjectSelected(addend: int)
    ensures HintFrom(RUNNING, Stores(addend), 3, 0x41_0000) && Selected(RUNNING, Linked(addend), REPLACED)
  {
    var f := RUNNING.functions[0];
    assert RUNNING.ByName("f", 0) == Some(0) && RUNNING.ByName("f", 1) == None;
    assert !RUNNING.Repeated("f");
    assert ChoiceOf(RUNNING, "f", Global) == Redirected(0);
    assert forall i: nat :: DefinesCode(Stores(addend), i) ==> i == 3;
    assert REPLACED[0].symbol == 3;
  }

  lemma ObjectExports(addend: int)
    ensures forall e :: e in EXPORTS <==> Exported(Linked(addend), 4, e)
  {
    var link := Linked(addend);
    assert ExportsCode(link, 3) && CodeExport(link, 3) == EXPORTS[0];
    forall e
      ensures e in EXPORTS <==> Exported(link, 4, e)
    {
      assert ExportOf(link, 3, EXPORTS[0]);
    }
  }

  lemma LoadsMeans(addend: int, brought: seq<Brought>, image: seq<byte>)
    requires Loads(addend, brought, image)
    ensures Planned(Linked(addend), [1], []) && FieldsFit(Stores(addend)) && Faithful(Linked(addend), image)
  {
    hide Faithful, BoundTo, BroughtApart, Anchored, Planned, FieldsFit, Relocated, FixupsAre, Exported, Selected, HintFrom;
  }

  /** The offset four below y is in x. */
  lemma SecondStart()
    ensures SectionStart(Linked(4), 2, 8) == Some(0x60_0000)
  {
    assert Covers(Linked(4), 2, 0, 8);
  }

  /** The offset four below x is in nothing. */
  lemma FirstStart()
    ensures SectionStart(Linked(-8), 2, -4) == Some(0x40_0000)
  {
  }

  /** The store to y, looked up four bytes too low, goes by the distance of x. */
  lemma SecondMisplaced() returns (brought: seq<Brought>, image: seq<byte>)
    ensures Loads(4, brought, image)
    ensures Covers(Linked(4), 2, 1, 4 + 4 + 4) && Access.Meant(Linked(4), 1, 12) == 0x40_000C
    ensures Reached(Linked(4), image, 0, 4) == 0x60_000C
  {
    hide Faithful, EffectOf, Planned, Reached, FieldsFit, SectionStart, Loads;
    brought, image := ObjectLoads(4);
    LoadsMeans(4, brought, image);
    SecondStart();
    AccessReachesStorage(Linked(4), image, [1], [], 0, 2, 1, 4);
  }

  /** The store to x, looked up in front of the section, goes by the anchor, which y gives. */
  lemma FirstMisplaced() returns (brought: seq<Brought>, image: seq<byte>)
    ensures Loads(-8, brought, image)
    ensures Covers(Linked(-8), 2, 0, -8 + 4 + 4) && Access.Meant(Linked(-8), 0, 0) == 0x60_0000
    ensures Reached(Linked(-8), image, 0, 4) == 0x40_0000
  {
    hide Faithful, EffectOf, Planned, Reached, FieldsFit, SectionStart, Loads;
    brought, image := ObjectLoads(-8);
    LoadsMeans(-8, brought, image);
    FirstStart();
    AccessReachesStorage(Linked(-8), image, [1], [], 0, 2, 0, 4);
  }
}
