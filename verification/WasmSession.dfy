/** The browser session: watching groups, consuming ready candidates, and redirecting the call slots. */
module WasmSession {
  import opened Wrappers
  import opened WasmOffer
  import opened WasmCandidate
  import opened OfferPoller
  import opened PltSlots

  datatype UpdateEvent = UpdateEvent(group: string, generation: string, applied: bool, redirects: nat)

  datatype GroupView = GroupView(
    watching: bool, active: Option<Module>, reported: string, lastApplied: string, fetching: bool, last: Option<Offer>,
    pending: Candidate?, state: Option<(Status, Option<Module>)>, targets: seq<nat>)

  /** Whether a group is due, what its event will say, and which generation it applied last. */
  datatype Turn = Turn(due: bool, group: string, generation: string, ready: bool, entries: nat, since: string)

  predicate Tells(e: UpdateEvent, t: Turn) {
    e.group == t.group && e.generation == t.generation && e.applied == t.ready && e.redirects == (if t.ready then t.entries else 0)
  }

  /** Group `i` has an event, of an applied generation or of a rejected one. */
  predicate TellsOf(events: seq<UpdateEvent>, order: seq<nat>, i: nat, applied: bool)
  {
    exists k :: 0 <= k < |order| && order[k] == i && k < |events| && events[k].applied == applied
  }

  /** The events of the first `n` groups: one for each that is due, in order; event `k` is about group `order[k]`. */
  predicate Log(turns: seq<Turn>, events: seq<UpdateEvent>, order: seq<nat>, n: nat) {
    && n <= |turns| && |order| == |events|
    && (forall j, k :: 0 <= j < k < |order| ==> order[j] < order[k])
    && (forall k :: 0 <= k < |order| ==> order[k] < n && turns[order[k]].due && Tells(events[k], turns[order[k]]))
    && (forall i :: 0 <= i < n && turns[i].due ==> i in order)
  }

  lemma LogSkips(turns: seq<Turn>, events: seq<UpdateEvent>, order: seq<nat>, n: nat)
    requires Log(turns, events, order, n) && n < |turns| && !turns[n].due
    ensures Log(turns, events, order, n + 1)
  {
  }

  lemma LogGrows(turns: seq<Turn>, events: seq<UpdateEvent>, order: seq<nat>, n: nat, e: UpdateEvent)
    requires Log(turns, events, order, n) && n < |turns| && turns[n].due && Tells(e, turns[n])
    ensures Log(turns, events + [e], order + [n], n + 1)
  {
  }

  class Group {
    const id: string
    const poller: Poller
    var watching: bool
    var active: Option<Module>
    var reported: string
    var lastApplied: string

    constructor (id: string, poller: Poller)
      ensures this.id == id && this.poller == poller && !watching && active == None && reported == "" && lastApplied == ""
    {
      this.id, this.poller := id, poller;
      watching, active, reported, lastApplied := false, None, "", "";
    }

    /** What an update will do with the group. */
    function ItsTurn(): Turn
      reads this, poller, poller.pending
    {
      Turn(Due(), id, if poller.last.Some? then poller.last.value.generation else "", poller.pending != null && poller.pending.status == Ready,
           |poller.expected.entries|, lastApplied)
    }

    /** The module a due group goes on with. */
    function Next(): Option<Module>
      reads this, poller, poller.pending
    {
      if poller.pending != null && poller.pending.status == Ready then poller.pending.prepared else active
    }

    /** A watched group has a ready candidate of an accepted offer. */
    predicate Waiting()
      reads this, poller, poller.pending
    {
      watching && poller.pending != null && poller.last.Some? && poller.pending.status == Ready
    }

    /** A watched group has a rejected candidate of an accepted offer. */
    predicate Failing()
      reads this, poller, poller.pending
    {
      watching && poller.pending != null && poller.last.Some? && poller.pending.status == Rejected
    }

    /** The accepted generation is not the one reported last. */
    predicate News()
      reads this, poller
    {
      poller.last.Some? && poller.last.value.generation != reported
    }

    /** The group has a decided candidate for a generation it did not report yet. */
    predicate Due()
      reads this, poller, poller.pending
    {
      watching && poller.pending != null && poller.last.Some? && poller.last.value.generation != reported
      && (poller.pending.status == Ready || poller.pending.status == Rejected)
    }
  }

  /** The call slots of one group lead to its active module, and to nothing while there is none. */
  ghost predicate SlotsFollow(slots: seq<Slot>, group: string, active: Option<Module>, entries: seq<string>)
    reads slots
  {
    forall k :: 0 <= k < |slots| && slots[k].group == group ==>
      slots[k].entry in entries && slots[k].target == (if active.Some? then AddressOf(active.value, slots[k].entry) else 0)
  }

  ghost predicate GroupOk(g: Group, slots: seq<Slot>)
    reads g, g.poller, g.poller.pending, slots
  {
    && g.poller.Valid() && g.poller.group == g.id && g.poller.expected.abi != ""
    && (g.active.Some? ==> Provides(g.active.value, g.poller.expected.entries))
    && SlotsFollow(slots, g.id, g.active, g.poller.expected.entries)
  }

  /** No two slots of a group lead to different generations: all are null, or each is the current module's own address
      for its entry. */
  lemma SlotsCoherent(g: Group, slots: seq<Slot>, k: nat)
    requires GroupOk(g, slots) && k < |slots| && slots[k].group == g.id
    ensures g.active.None? ==> slots[k].target == 0
    ensures g.active.Some? ==> slots[k].target != 0 && (slots[k].entry, slots[k].target) in g.active.value.entries
  {
    if g.active.Some? {
      ProvidedAddress(g.active.value, g.poller.expected.entries, slots[k].entry);
    }
  }

  /** A ready candidate of a group with a host contract provides the host's entries. */
  lemma ReadyProvides(g: Group, slots: seq<Slot>)
    requires GroupOk(g, slots) && g.poller.pending != null && g.poller.pending.status == Ready
    ensures g.poller.pending.prepared.Some? && Provides(g.poller.pending.prepared.value, g.poller.expected.entries)
  {
  }

  method TakePending(p: Poller) returns (m: Option<Module>)
    requires p.Valid() && p.pending != null
    modifies p.pending
    ensures p.Valid() && m == if old(p.pending.status) == Ready then old(p.pending.prepared) else None
    ensures if old(p.pending.status) == Ready then p.pending.status == Activated else unchanged(p.pending)
  {
    m := p.pending.Take();
  }

  method CompletePending(p: Poller, result: LoadResult)
    requires p.Valid() && p.pending != null
    modifies p.pending
    ensures p.Valid() && (old(p.pending.status) == Loading ==> p.pending.Decided(Judge(p.pending.contract, result)))
  {
    p.pending.Complete(result);
  }

  /** Every slot of the group names an entry the module has. */
  lemma AllAddressed(slots: seq<Slot>, group: string, active: Option<Module>, m: Module, entries: seq<string>)
    requires SlotsFollow(slots, group, active, entries) && Provides(m, entries)
    ensures forall k :: 0 <= k < |slots| && slots[k].group == group ==> AddressOf(m, slots[k].entry) != 0
  {
    forall k | 0 <= k < |slots| && slots[k].group == group
      ensures AddressOf(m, slots[k].entry) != 0
    {
      ProvidedAddress(m, entries, slots[k].entry);
    }
  }

  /** The poller's last offer is the one that was fetched, and its candidate the one that asks for. */
  ghost predicate Took(p: Poller, fetched: Fetched, immediate: Option<LoadResult>)
    reads p, p.pending
  {
    fetched.Text? && p.last.Some? && Parsed(fetched.text) == Ok(p.last.value) && Asked(p.expected, p.url, p.last.value, immediate, p.pending)
  }

  /** A group as it is opened: its slots are null and fit its contract. */
  lemma OpensOk(g: Group, slots: seq<Slot>, groups: seq<Registration>, n: nat)
    requires n < |groups| && (forall i, j :: 0 <= i < j < |groups| ==> groups[i].group != groups[j].group)
    requires forall k :: 0 <= k < |slots| ==> SlotFits(groups, slots[k].group, slots[k].entry) && slots[k].target == 0
    requires g.id == groups[n].group && g.active == None && g.poller.Valid() && g.poller.group == g.id
    requires g.poller.expected == Contract(groups[n].abi, groups[n].entries, "") && groups[n].abi != ""
    ensures GroupOk(g, slots)
  {
    hide Poller.Valid;
    forall k | 0 <= k < |slots| && slots[k].group == g.id
      ensures slots[k].entry in g.poller.expected.entries
    {
      var i :| 0 <= i < |groups| && groups[i].group == slots[k].group && slots[k].entry in groups[i].entries;
      assert i == n;
    }
  }

  /** One group of an update: take a ready module and redirect the group's slots, or report the rejection. */
  method Consume(g: Group, slots: seq<Slot>) returns (e: UpdateEvent)
    requires GroupOk(g, slots) && g.Due() && forall i, j :: 0 <= i < j < |slots| ==> slots[i] != slots[j]
    modifies g, g.poller.pending, slots
    ensures GroupOk(g, slots) && g.watching == old(g.watching) && !g.Due()
    ensures g.poller.pending == old(g.poller.pending)
    ensures e.group == g.id && e.generation == old(g.poller.last.value.generation) == g.reported
    ensures e.applied <==> old(g.poller.pending.status) == Ready
    ensures e.applied ==> g.active == old(g.poller.pending.prepared) && g.lastApplied == e.generation && g.poller.pending.status == Activated
    ensures e.redirects == if e.applied then |g.poller.expected.entries| else 0
    ensures !e.applied ==> g.active == old(g.active) && g.lastApplied == old(g.lastApplied)
    ensures forall k :: 0 <= k < |slots| && (slots[k].group != g.id || !e.applied) ==> slots[k].target == old(slots[k].target)
  {
    hide Poller.Valid, Candidate.Valid;
    var generation := g.poller.last.value.generation;
    var ready := g.poller.pending.status == Ready;
    if ready {
      ReadyProvides(g, slots);
      AllAddressed(slots, g.id, g.active, g.poller.pending.prepared.value, g.poller.expected.entries);
      var m := TakePending(g.poller);
      g.active := m;
      ApplySlots(slots, g.id, m.value);
      g.lastApplied := generation;
    }
    g.reported := generation;
    e := UpdateEvent(g.id, generation, ready, if ready then |g.active.value.entries| else 0);
  }

  class Session {
    const groups: seq<Group>
    const slots: seq<Slot>
    var applied: nat
    var rejected: nat

    /** Groups, pollers and candidates are all different objects, and every group is as it should be. */
    ghost predicate Valid()
      reads this, groups, set g | g in groups :: g.poller, set g | g in groups :: g.poller.pending, slots
    {
      && (forall i, j :: 0 <= i < j < |slots| ==> slots[i] != slots[j])
      && Apart()
      && (forall i :: 0 <= i < |groups| ==> GroupOk(groups[i], slots))
    }

    ghost predicate Apart()
      reads (set g | g in groups :: g.poller)`pending
    {
      forall i, j :: 0 <= i < j < |groups| ==> Separate(groups[i], groups[j])
    }

    lemma ApartAt(i: nat, j: nat)
      requires Apart() && i < |groups| && j < |groups| && i != j
      ensures groups[i] != groups[j] && groups[i].id != groups[j].id && groups[i].poller != groups[j].poller
      ensures groups[i].poller.pending == null || groups[i].poller.pending != groups[j].poller.pending
    {
      assert if i < j then Separate(groups[i], groups[j]) else Separate(groups[j], groups[i]);
    }

    static ghost predicate Separate(g: Group, h: Group)
      reads g.poller`pending, h.poller`pending
    {
      g != h && g.id != h.id && g.poller != h.poller && (g.poller.pending != null ==> g.poller.pending != h.poller.pending)
    }

    constructor (groups: seq<Group>, slots: seq<Slot>)
      requires forall i, j :: 0 <= i < j < |slots| ==> slots[i] != slots[j]
      requires forall i, j :: 0 <= i < j < |groups| ==> Separate(groups[i], groups[j])
      requires forall i :: 0 <= i < |groups| ==> GroupOk(groups[i], slots)
      ensures Valid() && this.groups == groups && this.slots == slots && applied == 0 && rejected == 0
    {
      this.groups, this.slots, applied, rejected := groups, slots, 0, 0;
    }

    method SetWatching(i: nat, watching: bool)
      requires Valid() && i < |groups|
      modifies groups[i]
      ensures Valid() && groups[i].watching == watching && groups[i].active == old(groups[i].active)
      ensures groups[i].reported == old(groups[i].reported) && groups[i].lastApplied == old(groups[i].lastApplied)
    {
      groups[i].watching := watching;
    }

    /** A tick of the group's timer. */
    method Tick(i: nat) returns (started: bool)
      requires Valid() && i < |groups|
      modifies groups[i].poller`fetching, groups[i].poller`outstanding
      ensures Valid() && started == (groups[i].watching && !old(groups[i].poller.fetching))
      ensures groups[i].poller.fetching == (groups[i].watching || old(groups[i].poller.fetching))
    {
      hide AskedFor, Rising, Candidate.Valid, SlotsFollow, Provides;
      started := false;
      if groups[i].watching {
        started := groups[i].poller.Poll();
      }
    }

    /** A fetch completes, whether or not the group is still watched. No slot changes. */
    method FetchCompleted(i: nat, fetched: Fetched, immediate: Option<LoadResult>) returns (e: OfferEvent)
      requires Valid() && i < |groups| && groups[i].poller.fetching
      modifies groups[i].poller
      ensures Valid() && !groups[i].poller.fetching
      ensures e == Accepted <==> Supersedes(groups[i].poller.group, old(groups[i].poller.last), fetched)
      ensures e == Accepted ==> Took(groups[i].poller, fetched, immediate) && fresh(groups[i].poller.pending)
      ensures e != Accepted ==> groups[i].poller.last == old(groups[i].poller.last) && groups[i].poller.pending == old(groups[i].poller.pending)
    {
      e := groups[i].poller.Deliver(fetched, immediate);
    }

    /** The loader answers for the pending candidate of a group. No slot changes. */
    method LoadCompleted(i: nat, result: LoadResult)
      requires Valid() && i < |groups| && groups[i].poller.pending != null
      modifies groups[i].poller.pending
      ensures Valid()
      ensures old(groups[i].poller.pending.status) == Loading ==>
                groups[i].poller.pending.Decided(Judge(groups[i].poller.pending.contract, result))
    {
      hide Provides, SlotsFollow, Poller.Valid, Candidate.Valid;
      CompletePending(groups[i].poller, result);
    }

    /** The loader answers for a candidate that was superseded: nothing the session can see changes. */
    method LateCompletion(c: Candidate, result: LoadResult)
      requires Valid() && c.Valid() && forall i :: 0 <= i < |groups| ==> groups[i].poller.pending != c
      modifies c
      ensures Valid()
      ensures if old(c.status) == Loading then c.Decided(Judge(c.contract, result)) else unchanged(c)
    {
      c.Complete(result);
    }

    /** Everything a group does next depends on this, and where its slots lead. */
    ghost function View(i: nat): GroupView
      requires i < |groups|
      reads groups[i], groups[i].poller, groups[i].poller.pending, slots
    {
      var g := groups[i];
      GroupView(g.watching, g.active, g.reported, g.lastApplied, g.poller.fetching, g.poller.last, g.poller.pending,
                if g.poller.pending == null then None else Some((g.poller.pending.status, g.poller.pending.prepared)),
                seq(|slots|, k requires 0 <= k < |slots| reads slots => if slots[k].group == g.id then slots[k].target else 0))
    }

    /** A group is untouched, and its slots are. */
    twostate predicate Untouched(i: nat)
      requires i < |groups|
      reads groups[i], groups[i].poller, groups[i].poller.pending, slots
    {
      && unchanged(groups[i]) && unchanged(groups[i].poller)
      && (groups[i].poller.pending != null ==> unchanged(groups[i].poller.pending))
      && forall k :: 0 <= k < |slots| && slots[k].group == groups[i].id ==> slots[k].target == old(slots[k].target)
    }

    twostate lemma UntouchedOk(i: nat)
      requires i < |groups| && Untouched(i) && old(GroupOk(groups[i], slots))
      ensures GroupOk(groups[i], slots) && View(i) == old(View(i))
    {
      hide Provides;
      assert old(groups[i].poller.Valid()) ==> groups[i].poller.Valid();
      assert old(SlotsFollow(slots, groups[i].id, groups[i].active, groups[i].poller.expected.entries));
    }

    /** Consume one due group; every other group and its slots stay as they were. */
    method ConsumeAt(n: nat) returns (e: UpdateEvent)
      requires Valid() && n < |groups| && groups[n].Due()
      modifies this`applied, this`rejected, groups[n], groups[n].poller.pending, slots
      ensures Valid() && !groups[n].Due()
      ensures forall i :: 0 <= i < |groups| && i != n ==> View(i) == old(View(i))
      ensures forall i :: 0 <= i < |groups| ==> groups[i].poller.pending == old(groups[i].poller.pending)
      ensures Tells(e, old(groups[n].ItsTurn())) && groups[n].reported == e.generation
      ensures Finished(groups[n], old(groups[n].ItsTurn()), old(groups[n].Next()))
      ensures if e.applied then applied == old(applied) + 1 && rejected == old(rejected) else applied == old(applied) && rejected == old(rejected) + 1
    {
      hide GroupOk, Provides, View, Apart;
      e := Consume(groups[n], slots);
      Count(e.applied);
      assert GroupOk(groups[n], slots);
      forall i | 0 <= i < |groups| && i != n
        ensures View(i) == old(View(i)) && GroupOk(groups[i], slots)
      {
        ApartAt(i, n);
        UntouchedOk(i);
      }
    }

    method Count(activated: bool)
      modifies this`applied, this`rejected
      ensures applied == (if activated then old(applied) + 1 else old(applied))
      ensures rejected == (if activated then old(rejected) else old(rejected) + 1)
    {
      if activated {
        applied := applied + 1;
      } else {
        rejected := rejected + 1;
      }
    }

    ghost function Turns(): (r: seq<Turn>)
      reads groups, set g | g in groups :: g.poller, set g | g in groups :: g.poller.pending
      ensures |r| == |groups| && forall i :: 0 <= i < |r| ==> r[i] == groups[i].ItsTurn()
    {
      seq(|groups|, i requires 0 <= i < |groups|
                      reads groups, set g | g in groups :: g.poller, set g | g in groups :: g.poller.pending => groups[i].ItsTurn())
    }

    /** Every group that is due is consumed, in order, and nothing else happens: a group that is not due keeps its module
        and its slots, and no group is due afterwards. */
    method Update() returns (events: seq<UpdateEvent>, ghost order: seq<nat>)
      requires Valid()
      modifies this`applied, this`rejected, groups, set g | g in groups :: g.poller.pending, slots
      ensures Valid() && |events| == (applied - old(applied)) + (rejected - old(rejected))
      ensures Log(old(Turns()), events, order, |groups|)
      ensures forall i :: 0 <= i < |groups| && !old(groups[i].Due()) ==> View(i) == old(View(i))
      ensures forall i :: 0 <= i < |groups| ==> Finished(groups[i], old(groups[i].ItsTurn()), old(groups[i].Next()))
      ensures forall i :: 0 <= i < |groups| ==> groups[i].poller.pending == old(groups[i].poller.pending)
      ensures forall i :: 0 <= i < |groups| && old(groups[i].Waiting()) ==> Settles(groups[i], old(groups[i].News()))
      ensures forall i :: 0 <= i < |groups| ==> (TellsOf(events, order, i, true) <==> old(groups[i].Waiting() && groups[i].News()))
      ensures forall i :: 0 <= i < |groups| ==> (TellsOf(events, order, i, false) <==> old(groups[i].Failing() && groups[i].News()))
    {
      hide TellsOf, Group.Failing, Settles, Group.Waiting, Group.News, GroupOk, Group.Due, Group.ItsTurn, Group.Next, Finished, Log, View;
      events, order := [], [];
      ghost var turns := Turns();
      EmptyLog(turns);
      for n := 0 to |groups|
        invariant Valid() && |events| == (applied - old(applied)) + (rejected - old(rejected))
        invariant Log(turns, events, order, n)
        invariant forall i :: n <= i < |groups| ==> View(i) == old(View(i))
        invariant forall i :: 0 <= i < n && !old(groups[i].Due()) ==> View(i) == old(View(i))
        invariant forall i :: 0 <= i < |groups| ==> groups[i].poller.pending == old(groups[i].poller.pending)
        invariant forall i :: 0 <= i < n ==> Finished(groups[i], old(groups[i].ItsTurn()), old(groups[i].Next()))
      {
        SameBefore(n);
        TurnDue(groups[n]);
        if groups[n].Due() {
          var e := ConsumeAt(n);
          LogGrows(turns, events, order, n, e);
          events, order := events + [e], order + [n];
        } else {
          LogSkips(turns, events, order, n);
        }
      }
      forall i | 0 <= i < |groups| && old(groups[i].Waiting())
        ensures Settles(groups[i], old(groups[i].News()))
      {
        WaitingSettles(i);
      }
      forall i | 0 <= i < |groups|
        ensures TellsOf(events, order, i, true) <==> old(groups[i].Waiting() && groups[i].News())
        ensures TellsOf(events, order, i, false) <==> old(groups[i].Failing() && groups[i].News())
      {
        LogTells(turns, events, order, i);
        TurnMeans(i);
      }
    }

    /** A group as an update leaves it. */
    static ghost predicate Finished(g: Group, turn: Turn, next: Option<Module>)
      reads g, g.poller, g.poller.pending
    {
      && !g.Due() && g.lastApplied == (if turn.due && turn.ready then turn.generation else turn.since)
      && (turn.due ==> g.watching && g.reported == turn.generation && g.active == next)
      && (turn.due && turn.ready ==> g.poller.pending != null && g.poller.pending.status == Activated)
    }

    /** A candidate that was ready is activated exactly when its generation was news. */
    static ghost predicate Settles(g: Group, news: bool)
      reads g, g.poller, g.poller.pending
    {
      g.poller.pending != null && (g.poller.pending.status == Activated <==> news) && (!news ==> g.poller.pending.status == Ready)
    }

    twostate lemma WaitingSettles(i: nat)
      requires i < |groups| && old(groups[i].Waiting()) && groups[i].poller.pending == old(groups[i].poller.pending)
      requires Finished(groups[i], old(groups[i].ItsTurn()), old(groups[i].Next()))
      requires !old(groups[i].Due()) ==> View(i) == old(View(i))
      ensures Settles(groups[i], old(groups[i].News()))
    {
    }

    static lemma LogTells(turns: seq<Turn>, events: seq<UpdateEvent>, order: seq<nat>, i: nat)
      requires i < |turns| && Log(turns, events, order, |turns|)
      ensures TellsOf(events, order, i, true) <==> turns[i].due && turns[i].ready
      ensures TellsOf(events, order, i, false) <==> turns[i].due && !turns[i].ready
    {
      if turns[i].due {
        var k :| 0 <= k < |order| && order[k] == i;
        assert Tells(events[k], turns[order[k]]);
      }
    }

    twostate lemma TurnMeans(i: nat)
      requires i < |groups|
      ensures old(groups[i].ItsTurn().due && groups[i].ItsTurn().ready) <==> old(groups[i].Waiting() && groups[i].News())
      ensures old(groups[i].ItsTurn().due && !groups[i].ItsTurn().ready) <==> old(groups[i].Failing() && groups[i].News())
    {
    }

    static lemma EmptyLog(turns: seq<Turn>)
      ensures Log(turns, [], [], 0)
    {
    }

    static lemma TurnDue(g: Group)
      ensures g.ItsTurn().due == g.Due()
    {
    }

    twostate lemma SameBefore(i: nat)
      requires i < |groups| && View(i) == old(View(i))
      ensures groups[i].Due() == old(groups[i].Due()) && groups[i].ItsTurn() == old(groups[i].ItsTurn()) && groups[i].Next() == old(groups[i].Next())
      ensures !groups[i].Due() ==> Finished(groups[i], groups[i].ItsTurn(), groups[i].Next())
    {
    }
  }
}
