/** The native session around its managed groups: watching, the worker, and `update`. */
module ManagedSession {
  import opened Wrappers
  import opened ManagedGroups

  /** What the object watches come to in one update: nothing is ready, or one transaction of their own. */
  datatype ObjectPass = NothingReady | ObjectsRefused(message: string) | ObjectsPrepared(redirects: nat, commit: CommitResult)

  /** The event of the object watches. */
  function Answered(objects: ObjectPass): seq<Event> {
    match objects
    case NothingReady => []
    case ObjectsRefused(message) => [Event("", "", false, 0, message)]
    case ObjectsPrepared(redirects, commit) =>
      match commit
      case Committed => [Event("", "", true, redirects, "")]
      case RolledBack(message) => [Event("", "", false, 0, message)]
      case Incomplete => []
  }

  function Count(events: seq<Event>, applied: bool): nat {
    if events == [] then 0
    else Count(events[..|events| - 1], applied) + if events[|events| - 1].applied == applied then 1 else 0
  }

  lemma CountAppend(events: seq<Event>, e: Event, applied: bool)
    ensures Count(events + [e], applied) == Count(events, applied) + if e.applied == applied then 1 else 0
  {
    assert (events + [e])[..|events|] == events;
  }

  lemma {:induction false} CountConcat(a: seq<Event>, b: seq<Event>, applied: bool)
    ensures Count(a + b, applied) == Count(a, applied) + Count(b, applied)
  {
    if b == [] {
      assert a + b == a;
    } else {
      var front := b[..|b| - 1];
      CountConcat(a, front, applied);
      assert b == front + [b[|b| - 1]] && a + b == a + front + [b[|b| - 1]];
      CountAppend(a + front, b[|b| - 1], applied);
      CountAppend(front, b[|b| - 1], applied);
    }
  }

  /** The parts one behind the other. */
  function Flat(parts: seq<seq<Event>>): seq<Event> {
    if parts == [] then [] else Flat(parts[..|parts| - 1]) + parts[|parts| - 1]
  }

  lemma FlatMore(parts: seq<seq<Event>>, part: seq<Event>)
    ensures Flat(parts + [part]) == Flat(parts) + part
  {
    assert (parts + [part])[..|parts|] == parts;
  }

  /** The text of the last event that was a rejection, or what there was before. */
  function LastText(events: seq<Event>, before: string): string {
    if events == [] then before
    else if events[|events| - 1].applied then LastText(events[..|events| - 1], before)
    else events[|events| - 1].message
  }

  lemma LastTextMore(events: seq<Event>, e: Event, before: string)
    ensures LastText(events + [e], before) == if e.applied then LastText(events, before) else e.message
  {
    assert (events + [e])[..|events|] == events;
  }

  lemma {:induction false} LastTextConcat(a: seq<Event>, b: seq<Event>, before: string)
    ensures LastText(a + b, before) == LastText(b, LastText(a, before))
  {
    if b == [] {
      assert a + b == a;
    } else {
      var front, last := b[..|b| - 1], b[|b| - 1];
      LastTextConcat(a, front, before);
      assert a + b == a + front + [last] && b == front + [last];
      LastTextMore(a + front, last, before);
      LastTextMore(front, last, LastText(a, before));
    }
  }

  /** The events of one group, in order. */
  function EventsOf(events: seq<Event>, group: string): seq<Event> {
    if events == [] then [] else EventsOf(events[..|events| - 1], group) + OfGroup(events[|events| - 1], group)
  }

  function OfGroup(e: Event, group: string): seq<Event> {
    if e.group == group then [e] else []
  }

  lemma EventsOfAppend(events: seq<Event>, e: Event, group: string)
    ensures EventsOf(events + [e], group) == EventsOf(events, group) + OfGroup(e, group)
    ensures EventsOf(events + [e], group) == if e.group == group then EventsOf(events, group) + [e] else EventsOf(events, group)
  {
    assert (events + [e])[..|events|] == events;
  }

  lemma {:induction false} EventsOfConcat(a: seq<Event>, b: seq<Event>, group: string)
    ensures EventsOf(a + b, group) == EventsOf(a, group) + EventsOf(b, group)
  {
    hide OfGroup, EventsOf;
    if b == [] {
      EventsOfNone(group);
      assert a + b == a;
    } else {
      var front, last := b[..|b| - 1], b[|b| - 1];
      EventsOfConcat(a, front, group);
      assert a + b == a + front + [last] && front + [last] == b;
      EventsOfAppend(a + front, last, group);
      EventsOfAppend(front, last, group);
      Regroup(EventsOf(a, group), EventsOf(front, group), OfGroup(last, group));
    }
  }

  lemma EventsOfNone(group: string)
    ensures EventsOf([], group) == []
  {
  }

  lemma Regroup(a: seq<Event>, b: seq<Event>, c: seq<Event>)
    ensures a + b + c == a + (b + c)
  {
  }

  /** Events of no group behind those of the groups. */
  lemma OwnBehind(returned: seq<Event>, events: seq<Event>, own: seq<Event>, group: string)
    requires group != "" && forall e :: e in own ==> e.group == ""
    ensures EventsOf(events + own, group) == EventsOf(events, group)
    ensures EventsOf(returned + (events + own), group) == EventsOf(returned, group) + EventsOf(events, group)
  {
    hide EventsOf;
    EventsOfConcat(events, own, group);
    NoneOf(own, group);
    EventsOfConcat(returned, events + own, group);
  }

  lemma OwnAlone(events: seq<Event>, own: seq<Event>)
    requires EventsOf(events, "") == [] && forall e :: e in own ==> e.group == ""
    ensures EventsOf(events + own, "") == own
  {
    hide EventsOf;
    EventsOfConcat(events, own, "");
    AllOf(own, "");
  }

  lemma CountsJoin(returned: seq<Event>, events: seq<Event>, own: seq<Event>, applied: bool)
    ensures Count(events + own, applied) == Count(events, applied) + Count(own, applied)
    ensures Count(returned + (events + own), applied) == Count(returned, applied) + Count(events + own, applied)
  {
    hide Count;
    CountConcat(events, own, applied);
    CountConcat(returned, events + own, applied);
  }

  lemma {:induction false} NoneOf(events: seq<Event>, group: string)
    requires forall e :: e in events ==> e.group != group
    ensures EventsOf(events, group) == []
  {
    if events != [] {
      NoneOf(events[..|events| - 1], group);
      assert events[|events| - 1] in events;
    }
  }

  lemma {:induction false} AllOf(events: seq<Event>, group: string)
    requires forall e :: e in events ==> e.group == group
    ensures EventsOf(events, group) == events
  {
    if events != [] {
      AllOf(events[..|events| - 1], group);
      assert events[|events| - 1] in events;
    }
  }

  class Session {
    const groups: seq<Group>
    var applied: nat
    var rejected: nat
    var lastResult: string
    var fatal: bool

    /** Every event any update ever returned. */
    ghost var returned: seq<Event>

    ghost predicate Valid()
      reads this, groups
    {
      && Distinct(groups)
      && (forall i :: 0 <= i < |groups| ==> groups[i].Valid())
      && (!fatal ==> Settled(returned))
    }

    static predicate Distinct(groups: seq<Group>) {
      && (forall i, j :: 0 <= i < j < |groups| ==> groups[i] != groups[j] && groups[i].id != groups[j].id)
      && (forall i :: 0 <= i < |groups| ==> groups[i].id != "")
    }

    /** The counters count the events, and every group's events are among them. */
    ghost predicate Settled(events: seq<Event>)
      reads this, groups
    {
      && applied == Count(events, true) && rejected == Count(events, false)
      && forall i :: 0 <= i < |groups| ==> EventsOf(events, groups[i].id) == groups[i].events
    }

    constructor (groups: seq<Group>)
      requires Distinct(groups) && forall i :: 0 <= i < |groups| ==> groups[i].Valid() && groups[i].events == []
      ensures Valid() && this.groups == groups && !fatal && applied == 0 && rejected == 0 && returned == []
    {
      this.groups := groups;
      applied, rejected, lastResult, fatal, returned := 0, 0, "", false, [];
    }

    static lemma Named(groups: seq<Group>, i: nat)
      requires Distinct(groups) && i < |groups|
      ensures groups[i].id != ""
    {
    }

    /** Enabling and disabling keep whatever outcome a group holds. */
    method SetEnabled(i: nat, enabled: bool) returns (ok: bool)
      requires Valid() && i < |groups|
      modifies groups[i]
      ensures Valid() && ok == !fatal
      ensures groups[i].Holding() == old(groups[i].Holding()) && groups[i].observed == old(groups[i].observed)
      ensures groups[i].events == old(groups[i].events) && groups[i].reported == old(groups[i].reported)
      ensures groups[i].enabled == if ok then enabled else old(groups[i].enabled)
    {
      hide Group.Valid, Group.Holding;
      if fatal {
        return false;
      }
      groups[i].SetEnabled(enabled);
      ok := true;
    }

    /** The worker polls enabled groups. A pass it cannot survive ends the session. */
    method Work(i: nat, pass: Pass, failure: bool)
      requires Valid() && i < |groups|
      modifies this`fatal, groups[i]
      ensures Valid() && (old(fatal) ==> fatal)
      ensures failure || old(fatal) || !old(groups[i].enabled) ==> unchanged(groups[i])
      ensures !failure && !old(fatal) && old(groups[i].enabled) && !pass.Idle? ==>
                if Silent(OutcomeOf(pass)) then !groups[i].Holding() else groups[i].Holding() && groups[i].Held() == OutcomeOf(pass)
      ensures fatal <==> failure || old(fatal)
    {
      if failure || fatal {
        fatal := true;
        return;
      }
      if groups[i].enabled {
        groups[i].Prepare(pass);
      }
    }

    /** Group `i` as `update` leaves it, given what its commit came to and the events returned. */
    twostate predicate Consumed(i: nat, commit: CommitResult, events: seq<Event>)
      requires i < |groups|
      reads groups
    {
      var g := groups[i];
      && g.Valid() && g.enabled == old(g.enabled)
      && EventsOf(events, g.id) == Told(g.id, old(g.enabled), old(g.Kept()), commit)
      && g.events == old(g.events) + EventsOf(events, g.id)
      && (g.enabled ==> !g.Holding()) && (!g.enabled ==> unchanged(g))
    }

    /** The group's commit could not be undone. */
    predicate Breaks(i: nat, commit: CommitResult)
      requires i < |groups|
      reads groups[i]
    {
      groups[i].enabled && groups[i].prepared.Some? && commit == Incomplete
    }

    /** Each enabled group in turn, one transaction or one rejection each. */
    method UpdateGroups(commits: seq<CommitResult>) returns (events: seq<Event>)
      requires Valid() && !fatal && |commits| == |groups|
      modifies this`applied, this`rejected, this`lastResult, this`fatal, groups
      ensures forall i :: 0 <= i < |groups| ==> groups[i].Valid()
      ensures fatal <==> exists i :: 0 <= i < |groups| && old(Breaks(i, commits[i]))
      ensures !fatal ==> forall i :: 0 <= i < |groups| ==> Consumed(i, commits[i], events)
      ensures !fatal ==> EventsOf(events, "") == []
      ensures !fatal ==> applied == old(applied) + Count(events, true) && rejected == old(rejected) + Count(events, false)
      ensures !fatal ==> events == Flat(old(Tellings(commits, |groups|))) && lastResult == LastText(events, old(lastResult))
    {
      hide Group.Valid, Group.Held, Group.Kept, Told, Reports, Count, EventsOf, Group.Holding, SettledAs, Flat, LastText;
      events := [];
      FlatNone(old(lastResult));
      ghost var tellings := Tellings(commits, |groups|);
      NothingYet();
      for n := 0 to |groups|
        invariant !fatal && EventsOf(events, "") == []
        invariant forall i :: n <= i < |groups| ==> unchanged(groups[i]) && EventsOf(events, groups[i].id) == []
        invariant forall i :: 0 <= i < n ==>
                    SettledAs(groups[i], old(groups[i].enabled), old(groups[i].Kept()), old(groups[i].events), commits[i], events)
        invariant forall i :: 0 <= i < n ==> !old(Breaks(i, commits[i]))
        invariant forall i :: 0 <= i < n && !old(groups[i].enabled) ==> unchanged(groups[i])
        invariant applied == old(applied) + Count(events, true) && rejected == old(rejected) + Count(events, false)
        invariant events == Flat(tellings[..n]) && lastResult == LastText(events, old(lastResult))
      {
        FlatMore(tellings[..n], tellings[n]);
        assert tellings[..n + 1] == tellings[..n] + [tellings[n]];
        assert groups[n].Valid() && groups[n].id != "" && unchanged(groups[n]);
        ghost var before := events;
        events := UpdateGroup(groups[n], commits[n], events);
        if fatal {
          forall i | 0 <= i < n
            ensures groups[i].Valid()
          {
            SettledMeans(groups[i], old(groups[i].enabled), old(groups[i].Kept()), old(groups[i].events), commits[i], before);
          }
          assert forall i :: n < i < |groups| ==> unchanged(groups[i]) && groups[i].Valid();
          return;
        }
        forall i | 0 <= i < n
          ensures SettledAs(groups[i], old(groups[i].enabled), old(groups[i].Kept()), old(groups[i].events), commits[i], events)
        {
          SettledMore(groups[i], old(groups[i].enabled), old(groups[i].Kept()), old(groups[i].events), commits[i], before, events);
        }
      }
      assert tellings[..|groups|] == tellings;
      forall i | 0 <= i < |groups|
        ensures Consumed(i, commits[i], events) && groups[i].Valid()
      {
        SettledMeans(groups[i], old(groups[i].enabled), old(groups[i].Kept()), old(groups[i].events), commits[i], events);
      }
    }

    /** The group after its turn, given what it was before, what its commit came to, and the events so far. */
    static ghost predicate SettledAs(
      g: Group, enabled: bool, kept: Option<Outcome>, before: seq<Event>, commit: CommitResult, events: seq<Event>)
      reads g
    {
      && g.Valid() && g.enabled == enabled && g.events == before + EventsOf(events, g.id)
      && EventsOf(events, g.id) == Told(g.id, enabled, kept, commit) && (enabled ==> !g.Holding())
    }

    static lemma SettledMeans(
      g: Group, enabled: bool, kept: Option<Outcome>, before: seq<Event>, commit: CommitResult, events: seq<Event>)
      requires SettledAs(g, enabled, kept, before, commit, events)
      ensures g.Valid() && g.enabled == enabled && g.events == before + EventsOf(events, g.id)
      ensures EventsOf(events, g.id) == Told(g.id, enabled, kept, commit) && (enabled ==> !g.Holding())
    {
    }

    static lemma SettledMore(
      g: Group, enabled: bool, kept: Option<Outcome>, before: seq<Event>, commit: CommitResult, events: seq<Event>, more: seq<Event>)
      requires SettledAs(g, enabled, kept, before, commit, events) && EventsOf(more, g.id) == EventsOf(events, g.id)
      ensures SettledAs(g, enabled, kept, before, commit, more)
    {
    }

    /** One group: consume what it holds, count it and append its event. */
    method UpdateGroup(g: Group, commit: CommitResult, events: seq<Event>) returns (more: seq<Event>)
      requires g.Valid() && !fatal && EventsOf(events, g.id) == []
      modifies this`applied, this`rejected, this`lastResult, this`fatal, g
      ensures g.Valid() && (!old(g.enabled) ==> unchanged(g))
      ensures fatal <==> old(g.enabled && g.prepared.Some?) && commit == Incomplete
      ensures !fatal ==> SettledAs(g, old(g.enabled), old(g.Kept()), old(g.events), commit, more)
      ensures !fatal ==> forall group :: group != g.id ==> EventsOf(more, group) == EventsOf(events, group)
      ensures !fatal ==> more == events + Told(g.id, old(g.enabled), old(g.Kept()), commit)
      ensures !fatal ==> forall before :: LastText(events, before) == old(lastResult) ==> LastText(more, before) == lastResult
      ensures !fatal ==> applied - Count(more, true) == old(applied) - Count(events, true)
      ensures !fatal ==> rejected - Count(more, false) == old(rejected) - Count(events, false)
    {
      hide Group.Valid, Group.Held, Group.Kept, Told, Reports, Count, EventsOf, Group.Holding, LastText;
      var e;
      e, fatal := g.Consume(commit);
      more := events;
      if e.Some? {
        more := Tally(events, e.value);
        forall before
          ensures LastText(more, before) == if e.value.applied then LastText(events, before) else e.value.message
        {
          LastTextMore(events, e.value, before);
        }
      } else {
        assert events + [] == events;
      }
    }

    /** What the first `n` groups have to tell, given what their commits come to. */
    ghost function Tellings(commits: seq<CommitResult>, n: nat): (r: seq<seq<Event>>)
      requires n <= |groups| && n <= |commits|
      reads groups
      ensures |r| == n && forall i :: 0 <= i < n ==> r[i] == Told(groups[i].id, groups[i].enabled, groups[i].Kept(), commits[i])
    {
      seq(n, i requires 0 <= i < n reads groups => Told(groups[i].id, groups[i].enabled, groups[i].Kept(), commits[i]))
    }

    lemma FlatNone(before: string)
      ensures Flat([]) == [] && LastText([], before) == before
    {
    }

    lemma NothingYet()
      ensures Count([], true) == Count([], false) == 0 && forall group :: EventsOf([], group) == []
    {
    }

    /** Count one event and append it. */
    method Tally(events: seq<Event>, e: Event) returns (more: seq<Event>)
      modifies this`applied, this`rejected, this`lastResult
      ensures more == events + [e]
      ensures lastResult == if e.applied then old(lastResult) else e.message
      ensures forall group :: EventsOf(more, group) == if e.group == group then EventsOf(events, group) + [e] else EventsOf(events, group)
      ensures applied - Count(more, true) == old(applied) - Count(events, true)
      ensures rejected - Count(more, false) == old(rejected) - Count(events, false)
    {
      CountAppend(events, e, true);
      CountAppend(events, e, false);
      forall group
        ensures EventsOf(events + [e], group) == if e.group == group then EventsOf(events, group) + [e] else EventsOf(events, group)
      {
        EventsOfAppend(events, e, group);
      }
      if e.applied {
        applied := applied + 1;
      } else {
        rejected, lastResult := rejected + 1, e.message;
      }
      more := events + [e];
    }

    /** The object watches as one transaction, reported under no group. */
    method UpdateObjects(objects: ObjectPass) returns (own: seq<Event>)
      requires !fatal
      modifies this`applied, this`rejected, this`lastResult, this`fatal
      ensures fatal <==> objects.ObjectsPrepared? && objects.commit == Incomplete
      ensures !fatal ==> applied == old(applied) + Count(own, true) && rejected == old(rejected) + Count(own, false)
      ensures !fatal ==> own == Answered(objects) && forall e :: e in own ==> e.group == ""
      ensures !fatal ==> lastResult == LastText(own, old(lastResult))
    {
      hide Count, EventsOf;
      NothingYet();
      own := [];
      match objects {
        case NothingReady =>
        case ObjectsRefused(message) =>
          own := Tally([], Event("", "", false, 0, message));
        case ObjectsPrepared(redirects, commit) =>
          match commit {
            case Incomplete =>
              fatal := true;
            case Committed =>
              own := Tally([], Event("", "", true, redirects, ""));
            case RolledBack(message) =>
              own := Tally([], Event("", "", false, 0, message));
          }
      }
    }

    /** Every outcome held by an enabled group is reported, in the order of the groups, and then that of the object watches.
        After an incomplete rollback nothing is returned, and never again. */
    method Update(commits: seq<CommitResult>, objects: ObjectPass) returns (r: Option<seq<Event>>)
      requires Valid() && |commits| == |groups|
      modifies this, groups
      ensures Valid() && (old(fatal) ==> fatal && returned == old(returned))
      ensures r.None? <==> fatal
      ensures fatal <==> old(fatal) || (objects.ObjectsPrepared? && objects.commit == Incomplete)
                         || exists i :: 0 <= i < |groups| && old(Breaks(i, commits[i]))
      ensures r.Some? ==> returned == old(returned) + r.value
      ensures r.Some? ==> forall i :: 0 <= i < |groups| ==> Consumed(i, commits[i], r.value)
      ensures r.Some? ==> EventsOf(r.value, "") == Answered(objects)
      ensures r.Some? ==> r.value == Flat(old(Tellings(commits, |groups|))) + Answered(objects)
      ensures r.Some? ==> lastResult == LastText(r.value, old(lastResult))
      ensures r.Some? ==> applied == old(applied) + Count(r.value, true) && rejected == old(rejected) + Count(r.value, false)
    {
      hide Group.Valid, Group.Held, Group.Kept, Group.Holding, Told, Count, EventsOf, Reports, Distinct, Breaks, Flat, LastText, Tellings, Answered;
      if fatal {
        return None;
      }
      assert forall i :: 0 <= i < |groups| ==> EventsOf(returned, groups[i].id) == groups[i].events;
      var events := UpdateGroups(commits);
      if fatal {
        return None;
      }
      label Reported:
      var own := UpdateObjects(objects);
      if fatal {
        return None;
      }
      OwnAlone(events, own);
      LastTextConcat(events, own, old(lastResult));
      CountsJoin(returned, events, own, true);
      CountsJoin(returned, events, own, false);
      forall i | 0 <= i < |groups|
        ensures Consumed(i, commits[i], events + own)
        ensures EventsOf(returned + (events + own), groups[i].id) == groups[i].events
      {
        assert unchanged@Reported(groups[i]);
        Named(groups, i);
        OwnBehind(returned, events, own, groups[i].id);
      }
      returned := returned + (events + own);
      r := Some(events + own);
    }
  }
}
