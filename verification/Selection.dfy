/** Which functions of the running program a loaded object replaces. */
module Selection {
  import opened Wrappers
  import opened Words
  import opened Layout
  import opened Relocations
  import opened Image
  import Patching

  /** A function in the program's own symbol table. */
  datatype LiveFunction = LiveFunction(name: string, address: address, size: nat, bind: Binding)

  /** What a load knows of the program: its functions in table order, and what the manifest says of the object's source
      file: whether it knows the file, and the address of each name in it. */
  datatype Program = Program(functions: seq<LiveFunction>, knowsSource: bool, manifest: map<string, address>) {
    predicate Named(k: nat, name: string) {
      k < |functions| && functions[k].name == name
    }

    /** The first function from index `k` on that has the name. */
    function ByName(name: string, k: nat): (r: Option<nat>)
      requires k <= |functions|
      ensures r.Some? ==> k <= r.value && Named(r.value, name)
      ensures forall j: nat :: k <= j && Named(j, name) ==> r.Some? && r.value <= j
      decreases |functions| - k
    {
      if k == |functions| then None
      else if functions[k].name == name then Some(k)
      else ByName(name, k + 1)
    }

    predicate Repeated(name: string) {
      var k := ByName(name, 0);
      k.Some? && ByName(name, k.value + 1).Some?
    }

    predicate IsGlobal(k: nat, name: string) {
      Named(k, name) && functions[k].bind == Global
    }

    function FirstGlobal(name: string, k: nat): (r: Option<nat>)
      requires k <= |functions|
      ensures r.Some? ==> k <= r.value && IsGlobal(r.value, name)
      ensures forall j: nat :: k <= j && IsGlobal(j, name) ==> r.Some? && r.value <= j
      decreases |functions| - k
    {
      if k == |functions| then None
      else if IsGlobal(k, name) then Some(k)
      else FirstGlobal(name, k + 1)
    }

    predicate IsManifested(k: nat, name: string) {
      Named(k, name) && functions[k].bind == Local && name in manifest && functions[k].address == manifest[name]
    }

    function FirstManifested(name: string, k: nat): (r: Option<nat>)
      requires k <= |functions|
      ensures r.Some? ==> k <= r.value && IsManifested(r.value, name)
      ensures forall j: nat :: k <= j && IsManifested(j, name) ==> r.Some?
      decreases |functions| - k
    {
      if k == |functions| then None
      else if IsManifested(k, name) then Some(k)
      else FirstManifested(name, k + 1)
    }

    /** The function of that name in the object's own source file, as far as it can be told. */
    function InSource(name: string, bind: Binding): Option<nat> {
      if bind == Global then
        var g := FirstGlobal(name, 0);
        if g.Some? && FirstGlobal(name, g.value + 1).Some? then None else g
      else FirstManifested(name, 0)
    }
  }

  datatype Choice = Redirected(live: nat) | KeptApart | Ambiguous

  /** The function that a new definition replaces. */
  function ChoiceOf(p: Program, name: string, bind: Binding): Choice {
    if p.Repeated(name) || (bind == Local && p.ByName(name, 0).Some?) then
      var own := p.InSource(name, bind);
      if own.Some? then Redirected(own.value)
      else if bind == Global || p.knowsSource then KeptApart
      else Ambiguous
    else if p.ByName(name, 0).Some? then Redirected(p.ByName(name, 0).value)
    else KeptApart
  }

  /** Nothing else can be meant: the only function of the name, for a definition that other files can see; the only global
      one, for a global definition; otherwise the local one that the manifest places in the source file. */
  ghost predicate Meant(p: Program, name: string, bind: Binding, k: nat) {
    p.Named(k, name)
    && if bind != Local && (forall j: nat :: p.Named(j, name) ==> j == k) then true
       else if bind == Global then
         p.functions[k].bind == Global && forall j: nat :: p.Named(j, name) && p.functions[j].bind == Global ==> j == k
       else
         p.functions[k].bind == Local && name in p.manifest && p.functions[k].address == p.manifest[name]
  }

  ghost predicate Singled(p: Program, name: string, bind: Binding, k: nat) {
    p.Named(k, name)
    && if bind != Local && (forall j: nat :: p.Named(j, name) ==> j == k) then true
       else if bind == Global then p.IsGlobal(k, name) && forall j: nat :: p.IsGlobal(j, name) ==> j == k
       else p.IsManifested(k, name)
  }

  lemma MeantSingled(p: Program, name: string, bind: Binding, k: nat)
    ensures Meant(p, name, bind, k) <==> Singled(p, name, bind, k)
  {
    assert forall j: nat :: p.Named(j, name) && p.functions[j].bind == Global <==> p.IsGlobal(j, name);
  }

  /** A redirect is never guessed, and none is missed: a definition replaces a function just when one is meant, and then
      one that is; it is refused just when its name exists, nothing is meant, the definition is not global and the manifest
      does not know its file. */
  lemma NeverGuessed(p: Program, name: string, bind: Binding)
    ensures var c := ChoiceOf(p, name, bind);
      (c.Redirected? ==> Meant(p, name, bind, c.live))
      && (forall k: nat :: Meant(p, name, bind, k) ==> c.Redirected? && p.functions[c.live].address == p.functions[k].address)
      && (c.Ambiguous? <==> (exists k: nat :: p.Named(k, name)) && (forall k: nat :: !Meant(p, name, bind, k)) && bind != Global && !p.knowsSource)
  {
    hide ChoiceOf, Singled, Meant;
    ChoiceSingled(p, name, bind);
    forall k: nat
      ensures Meant(p, name, bind, k) <==> Singled(p, name, bind, k)
      ensures Meant(p, name, bind, k) ==> p.Named(k, name)
    {
      MeantSingled(p, name, bind, k);
      SingledNamed(p, name, bind, k);
    }
  }

  lemma ChosenExists(p: Program, name: string, bind: Binding)
    ensures ChoiceOf(p, name, bind).Redirected? ==> ChoiceOf(p, name, bind).live < |p.functions|
  {
    hide ChoiceOf;
    NeverGuessed(p, name, bind);
  }

  lemma SingledNamed(p: Program, name: string, bind: Binding, k: nat)
    ensures Singled(p, name, bind, k) ==> p.Named(k, name)
  {
  }

  lemma ChoiceSingled(p: Program, name: string, bind: Binding)
    ensures var c := ChoiceOf(p, name, bind);
      (c.Redirected? ==> Singled(p, name, bind, c.live))
      && (forall k: nat :: Singled(p, name, bind, k) ==> p.Named(k, name) && c.Redirected? && p.functions[c.live].address == p.functions[k].address)
      && (c.Ambiguous? <==> (exists k: nat :: p.Named(k, name)) && (forall k: nat :: !Singled(p, name, bind, k)) && bind != Global && !p.knowsSource)
  {
    hide Program.ByName, Program.FirstGlobal, Program.FirstManifested;
    var c := ChoiceOf(p, name, bind);
    var first := p.ByName(name, 0);
    if first.Some? && !p.Repeated(name) {
      assert forall j: nat :: p.Named(j, name) ==> j == first.value;
    }
    if p.Repeated(name) {
      var second := p.ByName(name, first.value + 1).value;
      assert p.Named(first.value, name) && p.Named(second, name) && first.value != second;
    }
    var g := p.FirstGlobal(name, 0);
    if g.Some? && p.FirstGlobal(name, g.value + 1).Some? {
      assert p.IsGlobal(p.FirstGlobal(name, g.value + 1).value, name);
    }
    assert c.Redirected? ==> Singled(p, name, bind, c.live);
    if c.Ambiguous? {
      assert p.Named(first.value, name);
      assert forall k: nat :: Singled(p, name, bind, k) ==> p.Named(k, name);
    }
  }

  // ---- the loop over the object's functions ----

  const SMALLEST: nat := 8

  predicate DefinesCode(obj: ObjectFile, i: nat) {
    i < |obj.symbols| && obj.symbols[i].typ == Function
    && 0 < obj.symbols[i].section < |obj.sections| && obj.sections[obj.symbols[i].section].cls == Text
  }

  function ChoiceAt(p: Program, obj: ObjectFile, i: nat): Choice
    requires i < |obj.symbols|
  {
    ChoiceOf(p, obj.symbols[i].name, obj.symbols[i].bind)
  }

  /** A jump may not fit in a function of known size below eight. */
  predicate TooSmall(f: LiveFunction) {
    f.size != 0 && f.size < SMALLEST
  }

  predicate Refuses(p: Program, obj: ObjectFile, i: nat) {
    DefinesCode(obj, i)
    && (ChoiceAt(p, obj, i).Ambiguous? || (ChoiceAt(p, obj, i).Redirected? && RedirectsTooSmall(p, obj, i)))
  }

  predicate RedirectsTooSmall(p: Program, obj: ObjectFile, i: nat)
    requires i < |obj.symbols| && ChoiceAt(p, obj, i).Redirected?
  {
    ChoiceAt(p, obj, i).live < |p.functions| && TooSmall(p.functions[ChoiceAt(p, obj, i).live])
  }

  /** The object is refused for a function exactly when one of the program's bears its name, none is meant, the definition is not
      global and the file is unknown; or when the chosen one has a known size that is less than eight. */
  lemma RefusedJustWhen(p: Program, obj: ObjectFile, i: nat)
    requires i < |obj.symbols| && obj.symbols[i].typ == Function
    requires 0 < obj.symbols[i].section < |obj.sections| && obj.sections[obj.symbols[i].section].cls == Text
    ensures var sym := obj.symbols[i]; var c := ChoiceOf(p, sym.name, sym.bind);
      Refuses(p, obj, i)
      <==> ((exists k: nat :: p.Named(k, sym.name)) && (forall k: nat :: !Meant(p, sym.name, sym.bind, k)) && sym.bind != Global && !p.knowsSource)
           || (c.Redirected? && c.live < |p.functions| && 1 <= p.functions[c.live].size <= 7)
  {
    hide ChoiceOf, Meant;
    NeverGuessed(p, obj.symbols[i].name, obj.symbols[i].bind);
  }

  predicate Redirects(p: Program, obj: ObjectFile, i: nat) {
    DefinesCode(obj, i) && ChoiceAt(p, obj, i).Redirected?
  }

  /** One function to be replaced. Offsets are kept in 32 bits. */
  datatype Replaced = Replaced(symbol: nat, live: nat, entry: address, offset: nat)

  predicate ReplacedRight(p: Program, link: Link, r: Replaced) {
    Redirects(p, link.obj, r.symbol) && r.live == ChoiceAt(p, link.obj, r.symbol).live < |p.functions|
    && r.entry == p.functions[r.live].address && !TooSmall(p.functions[r.live])
    && r.offset == (OffsetOf(link.plan, link.obj.symbols[r.symbol].section) + link.obj.symbols[r.symbol].value) % TWO_32
  }

  /** Exactly the functions that replace one, in symbol order. */
  ghost predicate Selected(p: Program, link: Link, rs: seq<Replaced>) {
    && (forall j :: 0 <= j < |rs| ==> ReplacedRight(p, link, rs[j]))
    && (forall j, k :: 0 <= j < k < |rs| ==> rs[j].symbol < rs[k].symbol)
    && (forall i: nat :: Redirects(p, link.obj, i) ==> exists j :: 0 <= j < |rs| && rs[j].symbol == i)
  }

  /** The functions of the object that replace one, in symbol order; refused exactly when one is ambiguous
      or replaces a function that is too small. */
  method SelectRedirects(p: Program, link: Link) returns (r: Option<seq<Replaced>>)
    ensures r.None? <==> exists i: nat :: Refuses(p, link.obj, i)
    ensures r.Some? ==> Selected(p, link, r.value)
  {
    hide ChoiceOf, Meant;
    var chosen: seq<Replaced> := [];
    for i := 0 to |link.obj.symbols|
      invariant forall j: nat :: j < i ==> !Refuses(p, link.obj, j)
      invariant forall j :: 0 <= j < |chosen| ==> ReplacedRight(p, link, chosen[j]) && chosen[j].symbol < i
      invariant forall j, k :: 0 <= j < k < |chosen| ==> chosen[j].symbol < chosen[k].symbol
      invariant forall s: nat :: s < i && Redirects(p, link.obj, s) ==> exists j :: 0 <= j < |chosen| && chosen[j].symbol == s
    {
      if Refuses(p, link.obj, i) {
        return None;
      }
      if Redirects(p, link.obj, i) {
        var sym := link.obj.symbols[i];
        ChosenExists(p, sym.name, sym.bind);
        var live := ChoiceAt(p, link.obj, i).live;
        var more := Replaced(i, live, p.functions[live].address, (OffsetOf(link.plan, sym.section) + sym.value) % TWO_32);
        assert (chosen + [more])[|chosen|].symbol == i;
        assert forall j :: 0 <= j < |chosen| ==> (chosen + [more])[j] == chosen[j];
        chosen := chosen + [more];
      }
    }
    r := Some(chosen);
  }

  /** An entry is redirected to the first byte of its new definition, unless the offset is cut off or the symbol lies
      outside its section. */
  lemma ReplacementInImage(p: Program, link: Link, placed: seq<nat>, slots: seq<nat>, r: Replaced)
    requires Planned(link, placed, slots) && ReplacedRight(p, link, r) && link.plan.imageSize <= TWO_32
    requires link.obj.symbols[r.symbol].value < link.obj.sections[link.obj.symbols[r.symbol].section].size
    ensures var section := link.obj.symbols[r.symbol].section;
      InSection(link, section, r.offset) && r.offset < link.plan.imageSize
      && r.offset - link.plan.sectionOffset[section] == link.obj.symbols[r.symbol].value
  {
    hide Describes, ChoiceOf;
    var section := link.obj.symbols[r.symbol].section;
    assert link.obj.Placed(section);
    var x := SectionPieceAt(link, placed, slots, section);
  }

  /** The program's functions have sizes and do not overlap, except that one may have several names. */
  predicate Apart(p: Program) {
    forall k, l :: 0 <= k < |p.functions| && 0 <= l < |p.functions| && p.functions[k].address < p.functions[l].address ==>
      0 < p.functions[k].size <= p.functions[l].address - p.functions[k].address
  }

  /** The guard on small functions keeps the windows of any two replaced entries apart, in one object or in two. */
  lemma ReplacementsSpaced(p: Program, a: Link, r: Replaced, b: Link, q: Program, s: Replaced)
    requires p.functions == q.functions && Apart(p) && ReplacedRight(p, a, r) && ReplacedRight(q, b, s) && r.entry != s.entry
    ensures r.entry + Patching.WINDOW <= s.entry || s.entry + Patching.WINDOW <= r.entry
  {
    hide ChoiceOf;
  }

  /** The address that memory is reserved near to: the function of the first new definition that has one of its name. */
  method FindHint(p: Program, obj: ObjectFile) returns (hint: Option<address>)
    ensures hint.None? ==> (forall i: nat :: DefinesCode(obj, i) ==> p.ByName(obj.symbols[i].name, 0).None?)
                           || exists i: nat :: HintFrom(p, obj, i, 0)
    ensures hint.Some? ==> hint.value != 0 && exists i: nat :: HintFrom(p, obj, i, hint.value)
  {
    for i := 0 to |obj.symbols|
      invariant forall j: nat :: j < i && DefinesCode(obj, j) ==> p.ByName(obj.symbols[j].name, 0).None?
    {
      if DefinesCode(obj, i) && p.ByName(obj.symbols[i].name, 0).Some? {
        var at := p.functions[p.ByName(obj.symbols[i].name, 0).value].address;
        assert HintFrom(p, obj, i, at);
        return if at == 0 then None else Some(at);
      }
    }
    hint := None;
  }

  ghost predicate HintFrom(p: Program, obj: ObjectFile, i: nat, at: address) {
    DefinesCode(obj, i) && p.ByName(obj.symbols[i].name, 0).Some?
    && at == p.functions[p.ByName(obj.symbols[i].name, 0).value].address
    && forall j: nat :: j < i && DefinesCode(obj, j) ==> p.ByName(obj.symbols[j].name, 0).None?
  }
}
