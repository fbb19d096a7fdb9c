/** The call slots of the main module that a reload redirects, and the groups registered for them. */
module PltSlots {
  import opened Wrappers
  import opened WasmCandidate
  import opened References

  /** One slot; a target of zero is null. */
  class Slot {
    const group: string
    const entry: string
    var target: nat

    constructor (group: string, entry: string)
      ensures this.group == group && this.entry == entry && target == 0
    {
      this.group, this.entry, target := group, entry, 0;
    }
  }

  /** A registered group. */
  datatype Registration = Registration(group: string, url: string, abi: string, entries: seq<string>)

  predicate RegistrationOk(r: Registration) {
    && Plain(r.group) && Plain(r.url) && Plain(r.abi) && r.entries != []
    && (forall i :: 0 <= i < |r.entries| ==> Plain(r.entries[i]))
    && forall i, j :: 0 <= i < j < |r.entries| ==> r.entries[i] != r.entries[j]
  }

  /** A registration names its group, its manifest and its ABI, and lists at least one entry and none twice. */
  lemma RegistrationSound(r: Registration)
    ensures RegistrationOk(r)
       <==> 0 < |r.group| && 0 < |r.url| && 0 < |r.abi| && 0 < |r.entries|
            && (forall x :: x in r.group || x in r.url || x in r.abi ==> x as int != 0)
            && (forall e :: e in r.entries ==> 0 < |e| && forall x :: x in e ==> x as int != 0)
            && (forall i: nat, j: nat :: i != j && i < |r.entries| && j < |r.entries| ==> r.entries[i] != r.entries[j])
  {
  }

  predicate Ascending(s: seq<Registration>) {
    forall i, j :: 0 <= i < j < |s| ==> !TextLess(s[j].group, s[i].group)
  }

  function Insert(r: Registration, s: seq<Registration>): (t: seq<Registration>)
    ensures multiset(t) == multiset(s) + multiset{r}
  {
    if s == [] then [r]
    else if TextLess(r.group, s[0].group) then
      [r] + s
    else
      assert s == [s[0]] + s[1..];
      [s[0]] + Insert(r, s[1..])
  }

  lemma {:induction false} InsertAscending(r: Registration, s: seq<Registration>)
    requires Ascending(s)
    ensures Ascending(Insert(r, s))
  {
    if s != [] {
      TextOrder(r.group, s[0].group, s[0].group);
      if TextLess(r.group, s[0].group) {
        forall j | 0 <= j < |s|
          ensures !TextLess(s[j].group, r.group)
        {
          TextOrder(s[j].group, r.group, s[0].group);
          TextOrder(r.group, s[0].group, s[j].group);
        }
      } else {
        InsertAscending(r, s[1..]);
        var rest := Insert(r, s[1..]);
        forall j | 0 <= j < |rest|
          ensures !TextLess(rest[j].group, s[0].group)
        {
          assert rest[j] in multiset(rest);
          assert rest[j] == r || rest[j] in s[1..];
        }
      }
    }
  }

  /** Validate the registrations, sort them by group, and refuse a group registered twice. */
  method ReadGroups(records: seq<Registration>) returns (r: Option<seq<Registration>>)
    ensures r.Some? <==> (forall i :: 0 <= i < |records| ==> RegistrationOk(records[i]))
                         && forall i, j :: 0 <= i < j < |records| ==> records[i].group != records[j].group
    ensures r.Some? ==> multiset(r.value) == multiset(records) && Ascending(r.value)
    ensures r.Some? ==> forall i, j :: 0 <= i < j < |r.value| ==> TextLess(r.value[i].group, r.value[j].group)
  {
    hide RegistrationOk, TextLess;
    var sorted: seq<Registration> := [];
    for n := 0 to |records|
      invariant forall i :: 0 <= i < n ==> RegistrationOk(records[i])
      invariant multiset(sorted) == multiset(records[..n]) && Ascending(sorted)
    {
      if !RegistrationOk(records[n]) {
        return None;
      }
      InsertAscending(records[n], sorted);
      sorted := Insert(records[n], sorted);
      assert records[..n + 1] == records[..n] + [records[n]];
    }
    assert records[..|records|] == records;
    var i := 1;
    while i < |sorted|
      invariant 1 <= i && forall j :: 0 < j < i && j < |sorted| ==> sorted[j - 1].group != sorted[j].group
    {
      if sorted[i - 1].group == sorted[i].group {
        SortedRepeats(records, sorted, i);
        return None;
      }
      i := i + 1;
    }
    StrictlyAscending(sorted);
    DistinctUnsorted(records, sorted);
    r := Some(sorted);
  }

  lemma SortedRepeats(records: seq<Registration>, sorted: seq<Registration>, i: nat)
    requires multiset(sorted) == multiset(records) && 0 < i < |sorted| && sorted[i - 1].group == sorted[i].group
    ensures exists a, b :: 0 <= a < b < |records| && records[a].group == records[b].group
  {
    if forall a, b :: 0 <= a < b < |records| ==> records[a].group != records[b].group {
      DistinctUnsorted(sorted, records);
      assert false;
    }
  }

  /** Distinct groups stay distinct in any order. */
  lemma {:induction false} DistinctUnsorted(a: seq<Registration>, b: seq<Registration>)
    requires multiset(a) == multiset(b)
    requires forall i, j :: 0 <= i < j < |b| ==> b[i].group != b[j].group
    ensures forall i, j :: 0 <= i < j < |a| ==> a[i].group != a[j].group
  {
    forall i, j | 0 <= i < j < |a|
      ensures a[i].group != a[j].group
    {
      assert a[i] in multiset(a) && a[j] in multiset(a);
      assert a[i] in b && a[j] in b;
      var x :| 0 <= x < |b| && b[x] == a[i];
      var y :| 0 <= y < |b| && b[y] == a[j];
      if x == y {
        TwiceInMultiset(a, i, j);
        OnceInMultiset(b, x);
      }
    }
  }

  lemma TwiceInMultiset(a: seq<Registration>, i: nat, j: nat)
    requires i < j < |a| && a[i] == a[j]
    ensures multiset(a)[a[i]] >= 2
  {
    assert a == a[..j] + [a[j]] + a[j + 1..];
    assert a[..j][i] in a[..j];
  }

  lemma OnceInMultiset(b: seq<Registration>, x: nat)
    requires x < |b| && forall i, j :: 0 <= i < j < |b| ==> b[i].group != b[j].group
    ensures multiset(b)[b[x]] == 1
  {
    assert b == b[..x] + [b[x]] + b[x + 1..];
    assert b[x] !in b[..x] && b[x] !in b[x + 1..];
  }

  lemma StrictlyAscending(s: seq<Registration>)
    requires Ascending(s) && forall j :: 0 < j < |s| ==> s[j - 1].group != s[j].group
    ensures forall i, j :: 0 <= i < j < |s| ==> TextLess(s[i].group, s[j].group)
    ensures forall i, j :: 0 <= i < j < |s| ==> s[i].group != s[j].group
  {
    forall i, j | 0 <= i < j < |s|
      ensures TextLess(s[i].group, s[j].group) && s[i].group != s[j].group
    {
      TextOrder(s[j - 1].group, s[j].group, s[j].group);
      TextOrder(s[i].group, s[j - 1].group, s[j].group);
      TextOrder(s[i].group, s[j].group, s[j].group);
    }
  }

  /** A slot is registered for an entry of its group's contract. */
  predicate SlotFits(groups: seq<Registration>, group: string, entry: string) {
    exists i :: 0 <= i < |groups| && groups[i].group == group && entry in groups[i].entries
  }

  method ValidateSlots(groups: seq<Registration>, slots: seq<Slot>) returns (ok: bool)
    requires forall i, j :: 0 <= i < j < |groups| ==> groups[i].group != groups[j].group
    ensures ok <==> forall k :: 0 <= k < |slots| ==> SlotFits(groups, slots[k].group, slots[k].entry)
  {
    for k := 0 to |slots|
      invariant forall j :: 0 <= j < k ==> SlotFits(groups, slots[j].group, slots[j].entry)
    {
      if !SlotFits(groups, slots[k].group, slots[k].entry) {
        return false;
      }
    }
    ok := true;
  }

  function Aimed(m: Module, entry: string, was: nat): nat {
    if AddressOf(m, entry) != 0 then AddressOf(m, entry) else was
  }

  /** Point every slot of the group at the module. An entry the module lacks leaves its slot alone. */
  method ApplySlots(slots: seq<Slot>, group: string, m: Module)
    requires forall i, j :: 0 <= i < j < |slots| ==> slots[i] != slots[j]
    modifies slots
    ensures forall k :: 0 <= k < |slots| ==>
              slots[k].target == if slots[k].group == group then Aimed(m, slots[k].entry, old(slots[k].target)) else old(slots[k].target)
  {
    for n := 0 to |slots|
      invariant forall k :: 0 <= k < n ==>
                  slots[k].target == if slots[k].group == group then Aimed(m, slots[k].entry, old(slots[k].target)) else old(slots[k].target)
      invariant forall k :: n <= k < |slots| ==> slots[k].target == old(slots[k].target)
    {
      var address := AddressOf(m, slots[n].entry);
      if slots[n].group == group && address != 0 {
        slots[n].target := address;
      }
    }
  }
}
