/** The mutable state introduced by earlier generations, and how a new generation publishes more. */
module StateTable {
  import Words
  import opened Wrappers

  /** One piece of mutable storage a candidate image sees; `introduced` when the image brings it. */
  datatype Definition = Definition(
    identity: string, name: string, address: Words.address, size: nat, alignment: nat, introduced: bool)

  datatype CommittedState = CommittedState(identity: string, name: string, address: Words.address, size: nat, alignment: nat)

  function Publication(d: Definition): CommittedState {
    CommittedState(d.identity, d.name, d.address, d.size, d.alignment)
  }

  /** The definitions a generation brings, in order. */
  function Introduced(defs: seq<Definition>): (r: seq<CommittedState>) {
    if defs == [] then []
    else
      var n := |defs| - 1;
      Introduced(defs[..n]) + if defs[n].introduced then [Publication(defs[n])] else []
  }

  predicate Knows(table: seq<CommittedState>, identity: string) {
    exists i :: 0 <= i < |table| && table[i].identity == identity
  }

  predicate Unique(table: seq<CommittedState>) {
    forall i, j :: 0 <= i < j < |table| ==> table[i].identity != table[j].identity
  }

  /** What `identity` means to a load: the first committed storage of that identity. */
  function Resolve(table: seq<CommittedState>, identity: string): (r: Option<CommittedState>)
    ensures r.None? <==> !Knows(table, identity)
    ensures r.Some? ==> r.value in table && r.value.identity == identity
  {
    if table == [] then None
    else if table[0].identity == identity then Some(table[0])
    else
      assert table == [table[0]] + table[1..];
      Resolve(table[1..], identity)
  }

  /** A generation may be published: what it introduces is new to the table and named once. */
  predicate Publishable(table: seq<CommittedState>, defs: seq<Definition>) {
    Unique(Introduced(defs)) && forall c :: c in Introduced(defs) ==> !Knows(table, c.identity)
  }

  class StateTable {
    var committed: seq<CommittedState>

    constructor ()
      ensures committed == []
    {
      committed := [];
    }

    method FindCommitted(identity: string) returns (r: Option<CommittedState>)
      ensures r == Resolve(committed, identity)
    {
      for i := 0 to |committed|
        invariant Resolve(committed, identity) == Resolve(committed[i..], identity)
      {
        assert committed[i..][1..] == committed[i + 1..];
        if committed[i].identity == identity {
          return Some(committed[i]);
        }
      }
      r := None;
    }

    /** Every check publication can fail on, made before the first live write. */
    method PrepareGenerationCommit(defs: seq<Definition>) returns (ok: bool)
      ensures ok <==> Publishable(committed, defs)
    {
      var introduced: seq<CommittedState> := [];
      for i := 0 to |defs|
        invariant introduced == Introduced(defs[..i])
        invariant Publishable(committed, defs[..i])
      {
        assert defs[..i + 1][..i] == defs[..i];
        if defs[i].introduced {
          var known := FindCommitted(defs[i].identity);
          if known.Some? || Knows(introduced, defs[i].identity) {
            IntroducedPrefix(defs, i + 1);
            ClashStays(committed, defs, i);
            return false;
          }
          introduced := introduced + [Publication(defs[i])];
        }
      }
      assert defs[..|defs|] == defs;
      ok := true;
    }

    method CommitGeneration(defs: seq<Definition>)
      modifies this
      ensures committed == old(committed) + Introduced(defs)
    {
      for i := 0 to |defs|
        invariant committed == old(committed) + Introduced(defs[..i])
      {
        assert defs[..i + 1][..i] == defs[..i];
        if defs[i].introduced {
          committed := committed + [Publication(defs[i])];
        }
      }
      assert defs[..|defs|] == defs;
    }
  }

  lemma {:induction false} IntroducedPrefix(defs: seq<Definition>, n: nat)
    requires n <= |defs|
    ensures Introduced(defs[..n]) <= Introduced(defs)
    decreases |defs|
  {
    if n < |defs| {
      var m := |defs| - 1;
      assert defs[..m][..n] == defs[..n];
      IntroducedPrefix(defs[..m], n);
    } else {
      assert defs[..n] == defs;
    }
  }

  lemma ClashStays(table: seq<CommittedState>, defs: seq<Definition>, i: nat)
    requires i < |defs| && defs[i].introduced
    requires Knows(table, defs[i].identity) || Knows(Introduced(defs[..i]), defs[i].identity)
    ensures !Publishable(table, defs)
  {
    assert defs[..i + 1][..i] == defs[..i];
    var prefix := Introduced(defs[..i + 1]);
    IntroducedPrefix(defs, i + 1);
    var all := Introduced(defs);
    var k := |prefix| - 1;
    assert prefix[k] == Publication(defs[i]) && all[k] == prefix[k] && all[k] in all;
    if Knows(Introduced(defs[..i]), defs[i].identity) {
      var j :| 0 <= j < k && Introduced(defs[..i])[j].identity == defs[i].identity;
      assert prefix[j] == Introduced(defs[..i])[j];
      assert all[j].identity == all[k].identity;
    }
  }

  // ---- publication over whole runs ----

  /** Successive tables while several groups load and commit: each step publishes one generation
      that passed its check against the table of that moment, or changes nothing. */
  ghost predicate Publishing(tables: seq<seq<CommittedState>>) {
    && tables != [] && tables[0] == []
    && forall i :: 0 < i < |tables| ==> PublishStep(tables[i - 1], tables[i])
  }

  ghost predicate PublishStep(was: seq<CommittedState>, now: seq<CommittedState>) {
    now == was || exists defs :: Publishable(was, defs) && now == was + Introduced(defs)
  }

  lemma StepKeepsMeaning(was: seq<CommittedState>, now: seq<CommittedState>, identity: string)
    requires PublishStep(was, now) && Unique(was)
    ensures Unique(now)
    ensures Knows(was, identity) ==> Resolve(now, identity) == Resolve(was, identity)
  {
    if now != was {
      var defs :| Publishable(was, defs) && now == was + Introduced(defs);
      forall i, j | 0 <= i < j < |now|
        ensures now[i].identity != now[j].identity
      {
        if i < |was| <= j {
          assert now[j] in Introduced(defs);
        }
      }
      ResolveFirst(was, Introduced(defs), identity);
    }
  }

  lemma {:induction false} ResolveFirst(was: seq<CommittedState>, more: seq<CommittedState>, identity: string)
    ensures Knows(was, identity) ==> Resolve(was + more, identity) == Resolve(was, identity)
  {
    if was != [] {
      assert (was + more)[1..] == was[1..] + more;
      ResolveFirst(was[1..], more, identity);
    }
  }

  /** Committed identities stay unique, and once an identity is committed its address, size and
      alignment are the same for every later load. */
  lemma {:induction false} StatePreserved(tables: seq<seq<CommittedState>>, i: nat, j: nat, identity: string)
    requires Publishing(tables) && i <= j < |tables|
    ensures Unique(tables[j])
    ensures Knows(tables[i], identity) ==> Resolve(tables[j], identity) == Resolve(tables[i], identity)
    decreases j
  {
    if j > 0 {
      StatePreserved(tables, Words.Min(i, j - 1), j - 1, identity);
      assert PublishStep(tables[j - 1], tables[j]);
      StepKeepsMeaning(tables[j - 1], tables[j], identity);
    }
  }

  /** Two generations loaded before either commits may introduce the same identity; after one of
      them is published, the other one never passes its check, however much is published between. */
  lemma SecondIntroducerRejected(
    tables: seq<seq<CommittedState>>, i: nat, j: nat, first: seq<Definition>, second: seq<Definition>, c: CommittedState, d: CommittedState)
    requires Publishing(tables) && 0 < i <= j < |tables|
    requires tables[i] == tables[i - 1] + Introduced(first)
    requires c in Introduced(first) && d in Introduced(second) && c.identity == d.identity
    ensures !Publishable(tables[j], second)
  {
    assert c in tables[i];
    assert Knows(tables[i], c.identity);
    StatePreserved(tables, i, j, c.identity);
  }
}
