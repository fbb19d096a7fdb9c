/** Binding an object's mutable symbols to storage: committed, live, or fresh. */
module StateBinding {
  import opened Wrappers
  import opened Words
  import opened Decimals
  import opened Layout
  import opened Relocations
  import opened StateTable

  // ---- identities ----

  predicate External(b: Binding) {
    b == Global || b == Weak || b == GnuUnique
  }

  /** The name under which storage is kept across generations. */
  function StateIdentity(sym: Symbol, source: string): Option<string> {
    if External(sym.bind) then Some("external:" + sym.name)
    else if sym.bind == Local && source != [] then Some("local:" + (Decimal(|source|) + [':'] + (source + sym.name)))
    else None
  }

  /** External symbols have an identity, and local ones of a known source file. */
  lemma IdentityGiven(sym: Symbol, source: string)
    ensures StateIdentity(sym, source).Some?
       <==> sym.bind == Global || sym.bind == Weak || sym.bind == GnuUnique || (sym.bind == Local && source != "")
  {
  }

  /** Two symbols share an identity exactly when both are external with one name, or both are local
      with one name in one source file. */
  lemma IdentityInjective(a: Symbol, source: string, b: Symbol, other: string)
    requires StateIdentity(a, source).Some? && StateIdentity(b, other).Some?
    ensures StateIdentity(a, source) == StateIdentity(b, other) <==>
            a.name == b.name && (External(a.bind) <==> External(b.bind)) && (External(a.bind) || source == other)
  {
    var x, y := StateIdentity(a, source).value, StateIdentity(b, other).value;
    if External(a.bind) && External(b.bind) {
      assert x[|"external:"|..] == a.name && y[|"external:"|..] == b.name;
    } else if !External(a.bind) && !External(b.bind) {
      LocalInjective(a.name, source, b.name, other);
    } else {
      assert "external:"[0] != "local:"[0];
      assert x[0] != y[0];
    }
  }

  lemma LocalInjective(name: string, source: string, otherName: string, other: string)
    ensures "local:" + (Decimal(|source|) + [':'] + (source + name)) == "local:" + (Decimal(|other|) + [':'] + (other + otherName))
            <==> name == otherName && source == other
  {
    var x, y := Decimal(|source|) + [':'] + (source + name), Decimal(|other|) + [':'] + (other + otherName);
    assert ("local:" + x)[|"local:"|..] == x && ("local:" + y)[|"local:"|..] == y;
    if x == y {
      DecimalHasNo(|source|, ':');
      DecimalHasNo(|other|, ':');
      PrefixUnique(Decimal(|source|), Decimal(|other|), source + name, other + otherName, ':');
      NumberOfDecimal(|source|);
      NumberOfDecimal(|other|);
      assert source == (source + name)[..|source|] && other == (other + otherName)[..|other|];
      assert name == (source + name)[|source|..] && otherName == (other + otherName)[|other|..];
    }
  }

  // ---- storage ----

  /** What a load knows about storage: the committed table, and what the process answers for each symbol
      index: the address of a live global of that name and its size. */
  datatype Binder = Binder(
    obj: ObjectFile, source: string, committed: seq<CommittedState>, live: map<nat, address>, liveSize: map<nat, nat>)
  {
    predicate Mutable(i: nat) {
      i < |obj.symbols| && obj.symbols[i].typ == Object && obj.symbols[i].section < |obj.sections|
      && obj.sections[obj.symbols[i].section].cls == Class.Data
    }

    function SectionOf(i: nat): Section
      requires Mutable(i)
    {
      obj.sections[obj.symbols[i].section]
    }

    predicate ExtentOk(i: nat)
      requires Mutable(i)
    {
      obj.symbols[i].size != 0 && obj.symbols[i].value + obj.symbols[i].size <= SectionOf(i).size
    }
  }

  datatype Origin = Bound(address: address) | Fresh(identity: string) | NoOrigin

  /** Committed storage first, then a live global, then fresh storage; layouts must agree. */
  function OriginOf(b: Binder, i: nat): Origin
    requires b.Mutable(i)
  {
    var sym, section := b.obj.symbols[i], b.SectionOf(i);
    var identity := StateIdentity(sym, b.source);
    if !b.ExtentOk(i) then NoOrigin
    else if identity.Some? && Knows(b.committed, identity.value) then
      var c := Resolve(b.committed, identity.value).value;
      if c.size == sym.size && c.alignment == section.align then Bound(c.address) else NoOrigin
    else if i in b.live then
      if i in b.liveSize && b.liveSize[i] != sym.size then NoOrigin else Bound(b.live[i])
    else if identity.Some? && section.align <= MAX_SECTION_ALIGN then Fresh(identity.value)
    else NoOrigin
  }

  /** The initial bytes of fresh storage. */
  function Initial(b: Binder, i: nat): (r: seq<byte>)
    requires b.Mutable(i) && b.ExtentOk(i)
    ensures |r| == b.obj.symbols[i].size
  {
    var value, size, bytes := b.obj.symbols[i].value, b.obj.symbols[i].size, b.SectionOf(i).bytes;
    if value + size <= |bytes| then bytes[value..value + size] else seq(size, _ => 0)
  }

  function FreshDefinition(b: Binder, i: nat, identity: string, at: address): Definition
    requires b.Mutable(i)
  {
    Definition(identity, b.obj.symbols[i].name, at, b.obj.symbols[i].size, b.SectionOf(i).align, true)
  }

  /** One piece of storage that the load allocated: for which symbol, and its initial bytes. */
  datatype Brought = Brought(symbol: nat, definition: Definition, contents: seq<byte>)

  /** Storage of the first `n` symbols, as their origins say. */
  ghost predicate BoundTo(b: Binder, n: nat, storage: map<nat, Storage>, brought: seq<Brought>) {
    && (forall j, k :: 0 <= j < k < |brought| ==> brought[j].symbol < brought[k].symbol)
    && (forall i: nat :: i in storage <==> i < n && b.Mutable(i))
    && (forall i :: i in storage ==> SymbolBound(b, i, storage[i], brought))
    && (forall d :: d in brought ==> BroughtRight(b, storage, d))
  }

  ghost predicate SymbolBound(b: Binder, i: nat, s: Storage, brought: seq<Brought>)
    requires b.Mutable(i)
  {
    && s.size == b.obj.symbols[i].size
    && match OriginOf(b, i)
       case Bound(address) => s.address == address
       case Fresh(_) => exists d :: d in brought && d.symbol == i
       case NoOrigin => false
  }

  ghost predicate BroughtRight(b: Binder, storage: map<nat, Storage>, d: Brought) {
    d.symbol in storage && b.Mutable(d.symbol) && b.ExtentOk(d.symbol)
    && OriginOf(b, d.symbol).Fresh? && d.contents == Initial(b, d.symbol)
    && d.definition == FreshDefinition(b, d.symbol, OriginOf(b, d.symbol).identity, storage[d.symbol].address)
  }

  // ---- what binding means, symbol by symbol ----

  /** Entry `k` of the committed table is the first under the symbol's identity. */
  ghost predicate CommittedAs(b: Binder, i: nat, k: nat)
    requires b.Mutable(i)
  {
    && k < |b.committed| && StateIdentity(b.obj.symbols[i], b.source) == Some(b.committed[k].identity)
    && forall j :: 0 <= j < k ==> b.committed[j].identity != b.committed[k].identity
  }

  ghost predicate HasCommitted(b: Binder, i: nat)
    requires b.Mutable(i)
  {
    exists k: nat :: CommittedAs(b, i, k)
  }

  /** A symbol that cannot be bound: its extent leaves its section, or its layout differs from the committed one or its size from the
      live one, or it is new and has no identity or too great an alignment. */
  ghost predicate Unbindable(b: Binder, i: nat)
    requires b.Mutable(i)
  {
    var sym, section := b.obj.symbols[i], b.SectionOf(i);
    || sym.size == 0 || sym.value + sym.size > section.size
    || (exists k: nat :: CommittedAs(b, i, k) && (b.committed[k].size != sym.size || b.committed[k].alignment != section.align))
    || (!HasCommitted(b, i) && i in b.live && i in b.liveSize && b.liveSize[i] != sym.size)
    || (!HasCommitted(b, i) && i !in b.live && (StateIdentity(sym, b.source).None? || section.align > MAX_SECTION_ALIGN))
  }

  /** Committed storage is used again, live storage otherwise, and only a new symbol brings a piece of its own, with its initial bytes. */
  ghost predicate BoundRight(b: Binder, i: nat, s: Storage, brought: seq<Brought>)
    requires b.Mutable(i)
  {
    && s.size == b.obj.symbols[i].size
    && (forall k: nat :: CommittedAs(b, i, k) ==> s.address == b.committed[k].address)
    && (!HasCommitted(b, i) && i in b.live ==> s.address == b.live[i])
    && if HasCommitted(b, i) || i in b.live then forall d :: d in brought ==> d.symbol != i else BroughtOnce(b, i, s.address, brought)
  }

  ghost predicate BroughtOnce(b: Binder, i: nat, at: address, brought: seq<Brought>)
    requires b.Mutable(i)
  {
    exists k: nat :: k < |brought| && NewPiece(b, i, at, brought[k]) && forall j :: 0 <= j < |brought| && brought[j].symbol == i ==> j == k
  }

  /** Storage at `at` for a symbol that has its identity, its size and its section's alignment, and the bytes it has in the object; none
      of them are zeros. */
  ghost predicate NewPiece(b: Binder, i: nat, at: address, d: Brought)
    requires b.Mutable(i)
  {
    var sym, section := b.obj.symbols[i], b.SectionOf(i);
    && d.symbol == i && Some(d.definition.identity) == StateIdentity(sym, b.source) && d.definition.name == sym.name
    && d.definition.address == at && d.definition.size == sym.size && d.definition.alignment == section.align && d.definition.introduced
    && |d.contents| == sym.size
    && forall o :: 0 <= o < sym.size ==> d.contents[o] == if sym.value + sym.size <= |section.bytes| then section.bytes[sym.value + o] else 0
  }

  lemma {:induction false} FirstIs(table: seq<CommittedState>, identity: string)
    requires Knows(table, identity)
    ensures exists k: nat :: k < |table| && table[k] == Resolve(table, identity).value && forall j :: 0 <= j < k ==> table[j].identity != identity
  {
    if table[0].identity != identity {
      var rest := table[1..];
      var i :| 0 <= i < |table| && table[i].identity == identity;
      assert rest[i - 1] == table[i];
      FirstIs(rest, identity);
      var k: nat :| k < |rest| && rest[k] == Resolve(rest, identity).value && forall j :: 0 <= j < k ==> rest[j].identity != identity;
      assert table[k + 1] == Resolve(table, identity).value;
      forall j | 0 <= j < k + 1
        ensures table[j].identity != identity
      {
        assert j > 0 ==> table[j] == rest[j - 1];
      }
    }
  }

  /** The committed entry that `Resolve` finds is the one meant. */
  lemma CommittedIs(b: Binder, i: nat)
    requires b.Mutable(i)
    ensures var identity := StateIdentity(b.obj.symbols[i], b.source);
      && (HasCommitted(b, i) <==> identity.Some? && Knows(b.committed, identity.value))
      && forall k: nat :: CommittedAs(b, i, k) ==> Knows(b.committed, identity.value) && b.committed[k] == Resolve(b.committed, identity.value).value
  {
    var identity := StateIdentity(b.obj.symbols[i], b.source);
    if identity.Some? && Knows(b.committed, identity.value) {
      FirstIs(b.committed, identity.value);
      var k: nat :| k < |b.committed| && b.committed[k] == Resolve(b.committed, identity.value).value
                    && forall j :: 0 <= j < k ==> b.committed[j].identity != identity.value;
      assert CommittedAs(b, i, k);
      forall l: nat | CommittedAs(b, i, l)
        ensures l == k
      {
        assert b.committed[k].identity == identity.value == b.committed[l].identity;
      }
    }
  }

  lemma OriginMeans(b: Binder, i: nat)
    requires b.Mutable(i)
    ensures OriginOf(b, i).NoOrigin? <==> Unbindable(b, i)
    ensures OriginOf(b, i).Fresh? ==> !HasCommitted(b, i) && i !in b.live && StateIdentity(b.obj.symbols[i], b.source) == Some(OriginOf(b, i).identity)
    ensures OriginOf(b, i).Bound? ==>
              if HasCommitted(b, i) then forall k: nat :: CommittedAs(b, i, k) ==> OriginOf(b, i).address == b.committed[k].address
              else i in b.live && OriginOf(b, i).address == b.live[i]
  {
    hide StateIdentity;
    CommittedIs(b, i);
  }

  /** Storage is bound to just the variables of the mutable sections, each with its size. */
  lemma JustVariables(b: Binder, storage: map<nat, Storage>, brought: seq<Brought>, i: nat)
    requires BoundTo(b, |b.obj.symbols|, storage, brought)
    ensures i in storage
       <==> i < |b.obj.symbols| && b.obj.symbols[i].typ == Object
            && b.obj.symbols[i].section < |b.obj.sections| && b.obj.sections[b.obj.symbols[i].section].cls == Class.Data
    ensures i in storage ==> storage[i].size == b.obj.symbols[i].size
  {
    hide OriginOf, BroughtRight;
  }

  lemma BindingMeans(b: Binder, storage: map<nat, Storage>, brought: seq<Brought>, i: nat)
    requires BoundTo(b, |b.obj.symbols|, storage, brought) && b.Mutable(i)
    ensures i in storage && BoundRight(b, i, storage[i], brought)
  {
    hide OriginOf, StateIdentity, Initial, FreshDefinition, CommittedAs;
    OriginMeans(b, i);
    assert SymbolBound(b, i, storage[i], brought);
    forall d | d in brought && d.symbol == i
      ensures OriginOf(b, i).Fresh? && NewPiece(b, i, storage[i].address, d)
    {
      assert BroughtRight(b, storage, d);
      PieceMeans(b, i, storage[i].address, d);
    }
    if OriginOf(b, i).Fresh? {
      var d :| d in brought && d.symbol == i;
      var k: nat :| k < |brought| && brought[k] == d;
      assert forall j :: 0 <= j < |brought| && j != k ==> if j < k then brought[j].symbol < i else i < brought[j].symbol;
      assert NewPiece(b, i, storage[i].address, brought[k]);
      assert BroughtOnce(b, i, storage[i].address, brought);
    }
  }

  lemma PieceMeans(b: Binder, i: nat, at: address, d: Brought)
    requires b.Mutable(i) && b.ExtentOk(i) && OriginOf(b, i).Fresh? && d.symbol == i && d.contents == Initial(b, i)
    requires d.definition == FreshDefinition(b, i, OriginOf(b, i).identity, at)
    ensures NewPiece(b, i, at, d)
  {
    hide StateIdentity, OriginOf;
    OriginMeans(b, i);
  }

  lemma NothingBound(b: Binder)
    ensures BoundTo(b, 0, map[], [])
  {
  }

  /** A symbol without storage of its own, or with storage that exists. */
  lemma BindsOne(b: Binder, i: nat, storage: map<nat, Storage>, brought: seq<Brought>)
    requires BoundTo(b, i, storage, brought)
    ensures !b.Mutable(i) ==> BoundTo(b, i + 1, storage, brought)
    ensures b.Mutable(i) && OriginOf(b, i).Bound? ==>
              BoundTo(b, i + 1, storage[i := Storage(OriginOf(b, i).address, b.obj.symbols[i].size)], brought)
  {
    hide OriginOf, Initial, FreshDefinition;
  }

  lemma BringsOne(b: Binder, i: nat, storage: map<nat, Storage>, brought: seq<Brought>, at: address)
    requires BoundTo(b, i, storage, brought) && b.Mutable(i) && OriginOf(b, i).Fresh? && b.ExtentOk(i)
    ensures BoundTo(b, i + 1, storage[i := Storage(at, b.obj.symbols[i].size)],
                    brought + [Brought(i, FreshDefinition(b, i, OriginOf(b, i).identity, at), Initial(b, i))])
  {
    hide OriginOf, Initial, FreshDefinition;
    var more := brought + [Brought(i, FreshDefinition(b, i, OriginOf(b, i).identity, at), Initial(b, i))];
    assert more[|brought|].symbol == i;
    assert forall d :: d in brought ==> d in more;
    forall j | 0 <= j < |brought|
      ensures brought[j].symbol < i
    {
      assert brought[j] in brought && BroughtRight(b, storage, brought[j]);
    }
  }

  lemma OriginNeedsExtent(b: Binder, i: nat)
    requires b.Mutable(i)
    ensures !OriginOf(b, i).NoOrigin? ==> b.ExtentOk(i)
  {
  }

  /** Identity decides: two objects loaded at any two moments, whose mutable symbols share an identity that
      was committed before the first load, bind them to the same storage. */
  lemma StatePersists(tables: seq<seq<CommittedState>>, i: nat, j: nat, a: Binder, b: Binder, x: nat, y: nat)
    requires Publishing(tables) && i <= j < |tables|
    requires a.committed == tables[i] && b.committed == tables[j] && a.Mutable(x) && b.Mutable(y)
    requires StateIdentity(a.obj.symbols[x], a.source) == StateIdentity(b.obj.symbols[y], b.source)
    requires StateIdentity(a.obj.symbols[x], a.source).Some?
    requires Knows(tables[i], StateIdentity(a.obj.symbols[x], a.source).value)
    requires !OriginOf(a, x).NoOrigin? && !OriginOf(b, y).NoOrigin?
    ensures OriginOf(a, x) == OriginOf(b, y) && OriginOf(a, x).Bound?
    ensures a.obj.symbols[x].size == b.obj.symbols[y].size && a.SectionOf(x).align == b.SectionOf(y).align
  {
    StatePreserved(tables, i, j, StateIdentity(a.obj.symbols[x], a.source).value);
  }

  // ---- section anchors ----

  predicate Anchors(b: Binder, i: nat, section: nat) {
    b.Mutable(i) && i in b.live && b.obj.symbols[i].section == section
  }

  function Anchor(b: Binder, i: nat): address
    requires b.Mutable(i) && i in b.live
  {
    (b.live[i] - b.obj.symbols[i].value) % TWO_64
  }

  /** Exactly the sections with a live symbol have an anchor, and every live symbol gives it. */
  ghost predicate Anchored(b: Binder, anchors: map<nat, address>) {
    && (forall s: nat :: s in anchors <==> exists i: nat :: Anchors(b, i, s))
    && (forall i: nat, s: nat :: Anchors(b, i, s) ==> anchors[s] == Anchor(b, i))
  }

  /** The old base of every data section, on which all of its live symbols must agree. */
  method AnchorSections(b: Binder) returns (r: Option<map<nat, address>>)
    ensures r.Some? ==> Anchored(b, r.value)
    ensures r.None? ==> exists i: nat, j: nat, s: nat :: Anchors(b, i, s) && Anchors(b, j, s) && Anchor(b, i) != Anchor(b, j)
  {
    var bases: map<nat, address> := map[];
    for i := 0 to |b.obj.symbols|
      invariant forall s: nat :: s in bases <==> exists k: nat :: k < i && Anchors(b, k, s)
      invariant forall k: nat, s: nat :: k < i && Anchors(b, k, s) ==> bases[s] == Anchor(b, k)
    {
      if b.Mutable(i) && i in b.live {
        var s := b.obj.symbols[i].section;
        assert Anchors(b, i, s);
        if s in bases && bases[s] != Anchor(b, i) {
          return None;
        }
        bases := bases[s := Anchor(b, i)];
      }
    }
    r := Some(bases);
  }
}
