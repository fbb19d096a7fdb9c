/** Opening a browser session from what the program registered, and a generation that such a session never activates. */
module WasmStart {
  import opened Wrappers
  import opened Scanner
  import opened Wire
  import opened WasmOffer
  import opened WasmCandidate
  import opened OfferPoller
  import opened PltSlots
  import opened WasmSession

  /** What the program registered can be watched: sound registrations of distinct groups, and slots that fit them. */
  predicate Registered(records: seq<Registration>, slots: seq<Slot>) {
    && (forall i :: 0 <= i < |records| ==> RegistrationOk(records[i]))
    && (forall i, j :: 0 <= i < j < |records| ==> records[i].group != records[j].group)
    && (forall k :: 0 <= k < |slots| ==> SlotFits(records, slots[k].group, slots[k].entry))
  }

  /** The group is new and was made for the registration. */
  ghost predicate Opened(g: Group, r: Registration)
    reads g, g.poller, g.poller.pending
  {
    && g.id == r.group && !g.watching && g.active == None && g.reported == "" && g.lastApplied == ""
    && g.poller.Valid() && g.poller.group == r.group && g.poller.url == r.url && g.poller.expected == Contract(r.abi, r.entries, "")
    && !g.poller.fetching && g.poller.last == None && g.poller.pending == null
  }

  lemma SameFits(a: seq<Registration>, b: seq<Registration>, group: string, entry: string)
    requires multiset(a) == multiset(b) && SlotFits(a, group, entry)
    ensures SlotFits(b, group, entry)
  {
    var i :| 0 <= i < |a| && a[i].group == group && entry in a[i].entries;
    assert a[i] in multiset(a);
    assert a[i] in multiset(b);
  }

  /** Check the registrations and the slots, and make one group for every registration, in the order of the group names.
      Slots are null before. */
  method Open(records: seq<Registration>, slots: seq<Slot>) returns (s: Session?, ghost sorted: seq<Registration>)
    requires (forall i, j :: 0 <= i < j < |slots| ==> slots[i] != slots[j]) && forall k :: 0 <= k < |slots| ==> slots[k].target == 0
    ensures s != null <==> Registered(records, slots)
    ensures s != null ==> fresh(s) && s.Valid() && s.slots == slots && s.applied == s.rejected == 0
    ensures s != null ==> multiset(sorted) == multiset(records) && Ascending(sorted) && |s.groups| == |sorted|
    ensures s != null ==> forall i :: 0 <= i < |sorted| ==> fresh(s.groups[i]) && fresh(s.groups[i].poller) && Opened(s.groups[i], sorted[i])
  {
    hide RegistrationOk, SlotFits, Ascending, GroupOk;
    s, sorted := null, [];
    var read := ReadGroups(records);
    if read.None? {
      return;
    }
    sorted := read.value;
    DistinctUnsorted(sorted, records);
    var fits := ValidateSlots(read.value, slots);
    forall k | 0 <= k < |slots|
      ensures SlotFits(read.value, slots[k].group, slots[k].entry) <==> SlotFits(records, slots[k].group, slots[k].entry)
    {
      if SlotFits(read.value, slots[k].group, slots[k].entry) {
        SameFits(read.value, records, slots[k].group, slots[k].entry);
      }
      if SlotFits(records, slots[k].group, slots[k].entry) {
        SameFits(records, read.value, slots[k].group, slots[k].entry);
      }
    }
    if !fits {
      return;
    }
    SoundSorted(records, read.value);
    var groups := MakeGroups(read.value);
    forall i | 0 <= i < |groups|
      ensures GroupOk(groups[i], slots)
    {
      SoundMeans(read.value[i]);
      OpensOk(groups[i], slots, read.value, i);
    }
    s := new Session(groups, slots);
  }

  lemma SoundSorted(a: seq<Registration>, b: seq<Registration>)
    requires multiset(a) == multiset(b) && forall i :: 0 <= i < |a| ==> RegistrationOk(a[i])
    ensures forall i :: 0 <= i < |b| ==> RegistrationOk(b[i])
  {
    hide RegistrationOk;
    forall i | 0 <= i < |b|
      ensures RegistrationOk(b[i])
    {
      assert b[i] in multiset(b);
      assert b[i] in a;
    }
  }

  lemma SoundMeans(r: Registration)
    requires RegistrationOk(r)
    ensures r.url != "" && r.abi != ""
  {
  }

  method MakeGroups(records: seq<Registration>) returns (groups: seq<Group>)
    requires forall i :: 0 <= i < |records| ==> RegistrationOk(records[i])
    requires forall i, j :: 0 <= i < j < |records| ==> records[i].group != records[j].group
    ensures |groups| == |records|
    ensures forall i :: 0 <= i < |groups| ==> fresh(groups[i]) && fresh(groups[i].poller) && Opened(groups[i], records[i])
    ensures forall i, j :: 0 <= i < j < |groups| ==> Session.Separate(groups[i], groups[j])
  {
    hide RegistrationOk, Poller.Valid;
    groups := [];
    for n := 0 to |records|
      invariant |groups| == n
      invariant forall i :: 0 <= i < n ==> fresh(groups[i]) && fresh(groups[i].poller) && Opened(groups[i], records[i])
      invariant forall i, j :: 0 <= i < j < n ==> Session.Separate(groups[i], groups[j])
    {
      SoundMeans(records[n]);
      var poller := new Poller(records[n].url, records[n].group, Contract(records[n].abi, records[n].entries, ""));
      var group := new Group(records[n].group, poller);
      groups := groups + [group];
    }
  }

  // ---- a generation that is accepted again ----

  /** Two offers of one generation for the host's contract; the module of the first fails to load, that of the second is sound. */
  predicate Again(record: Registration, a: Offer, b: Offer, failure: LoadResult, good: LoadResult) {
    && RegistrationOk(record) && WasmOffer.Valid(a) && WasmOffer.Valid(b)
    && a.group == b.group == record.group && a.generation == b.generation && a.sequence < b.sequence
    && a.abi == b.abi == record.abi && a.entries == b.entries == record.entries
    && Judge(ContractOf(a), failure).Error?
    && ContractOk(ArtifactUrl(record.url, b.artifact), ContractOf(b)) && Judge(ContractOf(b), good).Ok?
  }

  /** Such a program and such offers: the module of f is first not found, and then published a second time. */
  lemma AgainOccurs() returns (record: Registration, a: Offer, b: Offer, failure: LoadResult, good: LoadResult)
    ensures Again(record, a, b, failure, good)
  {
    record := Registration("g", "u", "a", ["f"]);
    a := Offer("g", 1, "o", "a", "m", Nils(64), ["f"]);
    b := a.(sequence := 2);
    failure, good := NoImage(false), Image(Some(Descriptor(1, 20, Some("a"), 1, Some([DescriptorEntry(Some("f"), 16)]))));
    OneLetter("o", false);
    OneLetter("f", false);
    OneLetter("m", true);
    assert ArtifactUrl("u", "m") == "m";
  }

  function Nils(n: nat): (s: string)
    ensures |s| == n && forall i :: 0 <= i < n ==> s[i] == '0'
  {
    seq(n, _ => '0')
  }

  lemma OneLetter(s: string, allowComponents: bool)
    requires |s| == 1 && 'a' <= s[0] <= 'z'
    ensures PortablePath(s, allowComponents)
  {
    assert forall from: nat, to: nat :: from <= to <= 1 && IsComponent(s, from, to) ==> from == 0 && to == 1;
    assert s[0..1] == s;
  }

  /** The candidate is refused or rejected; or it is ready. */
  lemma AskedIs(record: Registration, o: Offer, immediate: LoadResult, c: Candidate?)
    requires o.abi == record.abi && o.entries == record.entries
    requires Asked(Contract(record.abi, record.entries, ""), record.url, o, Some(immediate), c)
    ensures c != null && (Judge(ContractOf(o), immediate).Error? ==> c.status == Rejected)
    ensures ContractOk(ArtifactUrl(record.url, o.artifact), ContractOf(o)) && Judge(ContractOf(o), immediate).Ok? ==> c.status == Ready
  {
    hide ContractOk, Judge;
  }

  lemma FetchedParses(group: string, last: Option<Offer>, o: Offer)
    requires WasmOffer.Valid(o) && o.group == group && (last.Some? ==> last.value.sequence < o.sequence)
    ensures Serialized(o).Ok? && Parsed(Serialized(o).value) == Ok(o) && Supersedes(group, last, Text(Serialized(o).value))
  {
    hide WasmOffer.Valid, Serialized, Parsed;
    RoundTrip(o);
  }

  /** A watched group fetches an offer, and the loader answers at once. */
  method Deliver(s: Session, record: Registration, o: Offer, answer: LoadResult)
    requires s.Valid() && |s.groups| == 1 && s.groups[0].watching && !s.groups[0].poller.fetching
    requires s.groups[0].poller.group == o.group && s.groups[0].poller.url == record.url
    requires s.groups[0].poller.expected == Contract(record.abi, record.entries, "") && o.abi == record.abi && o.entries == record.entries
    requires WasmOffer.Valid(o) && (s.groups[0].poller.last.Some? ==> s.groups[0].poller.last.value.sequence < o.sequence)
    modifies s.groups[0].poller
    ensures s.Valid() && !s.groups[0].poller.fetching && s.groups[0].poller.last == Some(o)
    ensures s.groups[0].poller.pending != null && fresh(s.groups[0].poller.pending)
    ensures Judge(ContractOf(o), answer).Error? ==> s.groups[0].poller.pending.status == Rejected
    ensures ContractOk(ArtifactUrl(record.url, o.artifact), ContractOf(o)) && Judge(ContractOf(o), answer).Ok? ==>
              s.groups[0].poller.pending.status == Ready
  {
    hide WasmOffer.Valid, Serialized, Parsed, Judge, ContractOk, Asked, GroupOk, Supersedes;
    FetchedParses(o.group, s.groups[0].poller.last, o);
    var text := Serialized(o).value;
    var started := s.Tick(0);
    var e := s.FetchCompleted(0, Text(text), Some(answer));
    AskedIs(record, o, answer, s.groups[0].poller.pending);
  }

  /** The session has one group, made for the registration, watched and without a module. */
  ghost predicate Lone(s: Session, record: Registration)
    reads s, s.groups, set g | g in s.groups :: g.poller, set g | g in s.groups :: g.poller.pending, s.slots
  {
    && s.Valid() && |s.groups| == 1 && s.groups[0].id == record.group && s.groups[0].watching && s.groups[0].active == None
    && s.groups[0].poller.group == record.group && s.groups[0].poller.url == record.url
    && s.groups[0].poller.expected == Contract(record.abi, record.entries, "") && !s.groups[0].poller.fetching
  }

  /** An offer whose module fails is reported once. */
  method Fail(s: Session, record: Registration, o: Offer, failure: LoadResult) returns (told: seq<UpdateEvent>)
    requires Lone(s, record) && s.groups[0].poller.last == None && s.groups[0].reported == ""
    requires WasmOffer.Valid(o) && o.group == record.group && o.abi == record.abi && o.entries == record.entries
    requires Judge(ContractOf(o), failure).Error?
    modifies s, s.groups[0], s.groups[0].poller, s.slots
    ensures Lone(s, record) && s.groups[0].poller.last == Some(o) && s.groups[0].reported == o.generation
    ensures |told| == 1 && !told[0].applied && told[0].generation == o.generation
  {
    hide WasmOffer.Valid, Judge, ContractOk, GroupOk, Poller.Valid, Session.Settles, Session.Apart;
    Deliver(s, record, o, failure);
    GenerationNamed(o);
    ghost var turns := s.Turns();
    ghost var order;
    told, order := s.Update();
    LogOne(turns, told, order);
  }

  lemma GenerationNamed(o: Offer)
    requires WasmOffer.Valid(o)
    ensures o.generation != ""
  {
  }

  /** The same generation again, ready this time: nothing tells of it. */
  method Succeed(s: Session, record: Registration, o: Offer, good: LoadResult) returns (events: seq<UpdateEvent>)
    requires Lone(s, record) && s.groups[0].poller.last.Some? && s.groups[0].poller.last.value.sequence < o.sequence
    requires s.groups[0].reported == o.generation
    requires WasmOffer.Valid(o) && o.group == record.group && o.abi == record.abi && o.entries == record.entries
    requires ContractOk(ArtifactUrl(record.url, o.artifact), ContractOf(o)) && Judge(ContractOf(o), good).Ok?
    modifies s, s.groups[0], s.groups[0].poller, s.slots
    ensures Lone(s, record) && s.groups[0].Waiting() && s.groups[0].poller.last == Some(o) && !s.groups[0].News()
    ensures events == []
  {
    hide WasmOffer.Valid, Judge, ContractOk, GroupOk, Poller.Valid, Session.Settles, Session.Apart;
    Deliver(s, record, o, good);
    ghost var turns := s.Turns();
    ghost var order;
    events, order := s.Update();
    LogOne(turns, events, order);
  }

  /** The first offer of a generation is rejected and reported; a later offer of the same generation is accepted and its module
      is ready. No update will activate it: it is not news, no event tells of it, and every slot stays null. */
  method NeverActivated(record: Registration, slots: seq<Slot>, a: Offer, b: Offer, failure: LoadResult, good: LoadResult)
    returns (s: Session, told: seq<UpdateEvent>, events: seq<UpdateEvent>)
    requires Again(record, a, b, failure, good) && Registered([record], slots)
    requires (forall i, j :: 0 <= i < j < |slots| ==> slots[i] != slots[j]) && forall k :: 0 <= k < |slots| ==> slots[k].target == 0
    modifies slots
    ensures Lone(s, record) && s.slots == slots
    ensures s.groups[0].Waiting() && s.groups[0].poller.last == Some(b) && !s.groups[0].News()
    ensures |told| == 1 && !told[0].applied && told[0].generation == b.generation && events == []
    ensures forall k :: 0 <= k < |slots| ==> slots[k].target == 0
  {
    hide WasmOffer.Valid, Judge, ContractOk, RegistrationOk, Registered, GroupOk, Poller.Valid, Ascending, Session.Apart, Group.News, Group.Waiting;
    ghost var sorted;
    var found;
    found, sorted := Open([record], slots);
    s := found;
    OneRegistration(record, sorted);
    s.SetWatching(0, true);
    told := Fail(s, record, a, failure);
    events := Succeed(s, record, b, good);
    AllNull(s, record);
  }

  lemma OneRegistration(record: Registration, sorted: seq<Registration>)
    requires multiset(sorted) == multiset([record])
    ensures sorted == [record]
  {
    assert |multiset(sorted)| == 1;
    assert sorted[0] in multiset(sorted);
  }

  lemma LogOne(turns: seq<Turn>, events: seq<UpdateEvent>, order: seq<nat>)
    requires |turns| == 1 && Log(turns, events, order, 1)
    ensures |events| == if turns[0].due then 1 else 0
    ensures turns[0].due ==> Tells(events[0], turns[0])
  {
    if turns[0].due {
      assert 0 in order;
    }
    if order != [] {
      AtLeastIndex(order, |order| - 1);
    }
  }

  lemma {:induction false} AtLeastIndex(order: seq<nat>, k: nat)
    requires k < |order| && forall i, j :: 0 <= i < j < |order| ==> order[i] < order[j]
    ensures order[k] >= k
  {
    if k > 0 {
      AtLeastIndex(order, k - 1);
    }
  }

  lemma AllNull(s: Session, record: Registration)
    requires s.Valid() && |s.groups| == 1 && s.groups[0].id == record.group && s.groups[0].active == None && Registered([record], s.slots)
    ensures forall k :: 0 <= k < |s.slots| ==> s.slots[k].target == 0
  {
    hide RegistrationOk, Poller.Valid;
    forall k | 0 <= k < |s.slots|
      ensures s.slots[k].target == 0
    {
      assert SlotFits([record], s.slots[k].group, s.slots[k].entry);
      assert GroupOk(s.groups[0], s.slots);
    }
  }
}
