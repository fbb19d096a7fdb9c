/** `update` of the native session: every prepared generation is committed to live memory, and the events tell what came of it. */
module NativeUpdate {
  import opened Wrappers
  import opened ManagedGroups
  import opened World
  import ManagedSession
  import Session
  import StateTable

  /** What a commit comes to for the events; `text` is the message of a refusal. */
  function ResultOf(r: Session.CommitOutcome, text: string): CommitResult {
    match r
    case Applied(_) => Committed
    case Poisoned => Incomplete
    case _ => RolledBack(text)
  }

  /** What the object watches have ready. */
  datatype Watched = Nothing | Unprepared(message: string) | Objects

  /** `held[i]` is the prepared generation of group `i`, and the last one that of the object watches. */
  ghost predicate Matches(managed: ManagedSession.Session, held: seq<seq<Session.Image>>)
    reads managed, managed.groups
  {
    |held| == |managed.groups| + 1 && forall i :: 0 <= i < |managed.groups| ==> GroupMatches(managed.groups[i], held[i])
  }

  ghost predicate GroupMatches(g: Group, reloads: seq<Session.Image>)
    reads g
  {
    if g.prepared.Some? then g.prepared.value.1 == |Session.Batch(reloads)| else reloads == []
  }

  /** The events of a group say that its generation was applied exactly when it was installed, and how many functions then. */
  predicate Tells(events: seq<Event>, outcome: Option<Session.CommitOutcome>, reloads: seq<Session.Image>) {
    && (outcome.Some? ==> |events| == 1)
    && forall e :: e in events ==>
      (e.applied <==> outcome.Some? && outcome.value.Applied?) && (e.applied ==> e.redirects == |Session.Batch(reloads)|)
  }

  lemma ToldTells(group: string, enabled: bool, kept: Option<Outcome>, reloads: seq<Session.Image>, r: Session.CommitOutcome, text: string)
    requires enabled && kept.Some? && kept.value.Prepared? && kept.value.redirects == |Session.Batch(reloads)| && !r.Poisoned?
    ensures Tells(Told(group, enabled, kept, ResultOf(r, text)), Some(r), reloads)
  {
  }

  lemma ToldNothing(group: string, enabled: bool, kept: Option<Outcome>, commit: CommitResult, reloads: seq<Session.Image>)
    requires !enabled || kept.None? || kept.value.Failure?
    ensures Tells(Told(group, enabled, kept, commit), None, reloads)
  {
  }

  /** The generation of the group is due for its commit. */
  predicate Due(g: Group)
    reads g
  {
    g.enabled && g.prepared.Some?
  }

  /** What one generation's commit leaves in its place. */
  function Left(outcome: Option<Session.CommitOutcome>, reloads: seq<Session.Image>): seq<Session.Image> {
    if outcome.Some? then [] else reloads
  }

  /** The outcomes of the first `n` generations, with the candidates they leave. */
  ghost predicate Progress(
    env: Env, history: seq<World>, from: nat, held: seq<seq<Session.Image>>, rest: seq<seq<Session.Image>>,
    outcomes: seq<Option<Session.CommitOutcome>>)
  {
    && |outcomes| <= |held| == |rest|
    && (forall i :: 0 <= i < |outcomes| ==> rest[i] == Left(outcomes[i], held[i]))
    && (forall i :: |outcomes| <= i < |held| ==> rest[i] == held[i])
    && (forall i :: 0 <= i < |outcomes| && outcomes[i].Some? ==> Session.Happened(env, history, from, held[i], outcomes[i].value))
  }

  lemma ProgressStill(
    env: Env, past: seq<World>, history: seq<World>, from: nat, held: seq<seq<Session.Image>>, rest: seq<seq<Session.Image>>,
    outcomes: seq<Option<Session.CommitOutcome>>)
    requires past <= history && Progress(env, past, from, held, rest, outcomes)
    ensures Progress(env, history, from, held, rest, outcomes)
  {
    hide Session.Happened;
    forall i | 0 <= i < |outcomes| && outcomes[i].Some?
      ensures Session.Happened(env, history, from, held[i], outcomes[i].value)
    {
      Session.HappenedStill(env, past, history, from, held[i], outcomes[i].value);
    }
  }

  /** Commit the next held generation, when it is due. */
  method CommitNext(
    native: Session.NativeSession, held: seq<seq<Session.Image>>, due: bool, ghost from: nat, ghost rest: seq<seq<Session.Image>>,
    outcomes: seq<Option<Session.CommitOutcome>>)
    returns (more: seq<Option<Session.CommitOutcome>>, ghost left: seq<seq<Session.Image>>)
    requires native.Valid() && !native.closed && !native.poisoned && from <= |native.history| && |outcomes| < |held|
    requires Session.Pending(native.env, native.Now(), rest, 0) && Progress(native.env, native.history, from, held, rest, outcomes)
    modifies native`activeAllocations, native`poisoned, native`applied, native`redirects, native`targets, native`history,
             native.pages, native.pages.memory, native.table
    ensures native.Valid() && !native.closed && old(native.history) <= native.history
    ensures |more| == |outcomes| + 1 && outcomes <= more && (more[|outcomes|].Some? <==> due)
    ensures native.poisoned <==> due && more[|outcomes|] == Some(Session.Poisoned)
    ensures Session.Pending(native.env, native.Now(), left, 0) && Progress(native.env, native.history, from, held, left, more)
    ensures native.pages.memory.refused >= old(native.pages.memory.refused)
    ensures old(native.table.committed) <= native.table.committed
    ensures native.pages.memory.refused == old(native.pages.memory.refused) ==> !native.poisoned
    ensures native.pages.memory.refused == old(native.pages.memory.refused) && more[|outcomes|].Some? && more[|outcomes|].value.Rejected? ==>
              Session.Unfit(old(native.Now()), old(native.table.committed), held[|outcomes|])
  {
    hide Session.Happened, Session.Pending, Session.Settled, Session.Ready, Session.Unfit, StateTable.Introduced, Session.Definitions;
    more, left := outcomes + [None], rest;
    if due {
      var n := |outcomes|;
      ghost var w, past := native.Now(), native.history;
      HeldReady(native.env, w, rest, n);
      var r := native.CommitOrDiscard(held[n]);
      Session.PendingEmptied(native.env, w, native.Now(), rest, n, r.Applied? || r.Poisoned?);
      ProgressStill(native.env, past, native.history, from, held, rest, outcomes);
      Session.HappenedSince(native.env, native.history, from, |past|, held[n], r);
      more, left := outcomes + [Some(r)], rest[n := []];
    }
  }

  lemma HeldReady(env: Env, w: World, rest: seq<seq<Session.Image>>, n: nat)
    requires Session.Pending(env, w, rest, 0) && n < |rest|
    ensures Session.Ready(env, w, rest[n])
  {
  }

  /** The results that the events are made from; a generation without an outcome has none that matters. */
  function Results(outcomes: seq<Option<Session.CommitOutcome>>, text: nat -> string, n: nat): (r: seq<CommitResult>)
    ensures |r| == n
    ensures forall i :: 0 <= i < n && i < |outcomes| && outcomes[i].Some? ==> r[i] == ResultOf(outcomes[i].value, text(i))
    ensures forall i :: 0 <= i < n && (i >= |outcomes| || outcomes[i].None?) ==> r[i] == Committed
  {
    seq(n, i requires 0 <= i < n => if i < |outcomes| && outcomes[i].Some? then ResultOf(outcomes[i].value, text(i)) else Committed)
  }

  /** No commit so far was left half undone. */
  predicate Clean(outcomes: seq<Option<Session.CommitOutcome>>) {
    forall i :: 0 <= i < |outcomes| ==> outcomes[i] != Some(Session.Poisoned)
  }

  /** Commit the generations that are due, in order, until one is left half undone. */
  method CommitAll(native: Session.NativeSession, held: seq<seq<Session.Image>>, dues: seq<bool>)
    returns (outcomes: seq<Option<Session.CommitOutcome>>, ghost rest: seq<seq<Session.Image>>)
    requires native.Valid() && !native.closed && !native.poisoned && |dues| == |held|
    requires Session.Pending(native.env, native.Now(), held, 0)
    modifies native`activeAllocations, native`poisoned, native`applied, native`redirects, native`targets, native`history,
             native.pages, native.pages.memory, native.table
    ensures native.Valid() && !native.closed && old(native.history) <= native.history
    ensures Session.Pending(native.env, native.Now(), rest, 0)
    ensures Progress(native.env, native.history, |old(native.history)|, held, rest, outcomes)
    ensures |outcomes| <= |held| && forall i :: 0 <= i < |outcomes| ==> (outcomes[i].Some? <==> dues[i])
    ensures if native.poisoned then outcomes != [] && outcomes[|outcomes| - 1] == Some(Session.Poisoned) && Clean(outcomes[..|outcomes| - 1])
            else |outcomes| == |held| && Clean(outcomes)
    ensures native.pages.memory.refused >= old(native.pages.memory.refused)
    ensures native.pages.memory.refused == old(native.pages.memory.refused) ==>
              !native.poisoned && Blamed(native.history, |old(native.history)| - 1, old(native.table.committed), native.table.committed, held, outcomes)
  {
    hide Session.Pending, Progress, Blamed, Session.Unfit;
    native.HasHistory();
    ghost var from := |native.history|;
    outcomes, rest := [], held;
    NoProgress(native.env, native.history, from, held);
    NoneBlamed(native.history, from - 1, native.table.committed, native.table.committed, held);
    for i := 0 to |held|
      invariant native.Valid() && !native.closed && !native.poisoned && old(native.history) <= native.history
      invariant |outcomes| == i && Clean(outcomes) && forall j :: 0 <= j < i ==> (outcomes[j].Some? <==> dues[j])
      invariant Session.Pending(native.env, native.Now(), rest, 0)
      invariant Progress(native.env, native.history, from, held, rest, outcomes)
      invariant native.pages.memory.refused >= old(native.pages.memory.refused) && old(native.table.committed) <= native.table.committed
      invariant native.pages.memory.refused == old(native.pages.memory.refused) ==>
                  Blamed(native.history, from - 1, old(native.table.committed), native.table.committed, held, outcomes)
    {
      ghost var past, upto, were := native.history, native.table.committed, outcomes;
      outcomes, rest := CommitNext(native, held, dues[i], from, rest, outcomes);
      if native.pages.memory.refused == old(native.pages.memory.refused) {
        BlamedMore(past, native.history, from - 1, old(native.table.committed), upto, native.table.committed, held, were, outcomes);
      }
      if native.poisoned {
        return;
      }
    }
  }

  /** Every generation that was rejected was unfit in the run from state `from` on. */
  ghost predicate Blamed(
    history: seq<World>, from: nat, first: seq<StateTable.CommittedState>, last: seq<StateTable.CommittedState>, held: seq<seq<Session.Image>>,
    outcomes: seq<Option<Session.CommitOutcome>>)
  {
    |outcomes| <= |held| &&
    forall i :: 0 <= i < |outcomes| && outcomes[i].Some? && outcomes[i].value.Rejected? ==> Session.UnfitSince(history, from, first, last, held[i])
  }

  lemma NoneBlamed(history: seq<World>, from: nat, first: seq<StateTable.CommittedState>, last: seq<StateTable.CommittedState>, held: seq<seq<Session.Image>>)
    ensures Blamed(history, from, first, last, held, [])
  {
  }

  lemma BlamedMore(
    past: seq<World>, history: seq<World>, from: nat,
    first: seq<StateTable.CommittedState>, committed: seq<StateTable.CommittedState>, last: seq<StateTable.CommittedState>,
    held: seq<seq<Session.Image>>, were: seq<Option<Session.CommitOutcome>>, outcomes: seq<Option<Session.CommitOutcome>>)
    requires from < |past| && past <= history && first <= committed <= last && Blamed(past, from, first, committed, held, were)
    requires |were| < |held| && |outcomes| == |were| + 1 && were <= outcomes
    requires var r := outcomes[|were|]; r.Some? && r.value.Rejected? ==> Session.Unfit(past[|past| - 1], committed, held[|were|])
    ensures Blamed(history, from, first, last, held, outcomes)
  {
    hide Session.Unfit, Session.UnfitSince;
    forall i | 0 <= i < |outcomes| && outcomes[i].Some? && outcomes[i].value.Rejected?
      ensures Session.UnfitSince(history, from, first, last, held[i])
    {
      if i < |were| {
        Session.UnfitEarlier(past, history, from, from, first, committed, last, held[i]);
      } else {
        Session.UnfitNow(past, history, from, past[|past| - 1], first, committed, last, held[i]);
      }
    }
  }

  lemma NoProgress(env: Env, history: seq<World>, from: nat, held: seq<seq<Session.Image>>)
    ensures Progress(env, history, from, held, held, [])
  {
  }

  function PassOf(objects: Watched, outcomes: seq<Option<Session.CommitOutcome>>, n: nat, reloads: seq<Session.Image>, text: nat -> string):
    ManagedSession.ObjectPass
  {
    match objects
    case Nothing => ManagedSession.NothingReady
    case Unprepared(message) => ManagedSession.ObjectsRefused(message)
    case Objects =>
      if n < |outcomes| && outcomes[n].Some? then
        ManagedSession.ObjectsPrepared(|Session.Batch(reloads)|, ResultOf(outcomes[n].value, text(n)))
      else ManagedSession.NothingReady
  }

  /** Which generations are due: those of enabled groups, and that of the object watches. */
  function Dues(managed: ManagedSession.Session, objects: Watched): (r: seq<bool>)
    reads managed.groups
    ensures |r| == |managed.groups| + 1 && r[|managed.groups|] == objects.Objects?
    ensures forall i :: 0 <= i < |managed.groups| ==> r[i] == Due(managed.groups[i])
  {
    seq(|managed.groups|, i requires 0 <= i < |managed.groups| reads managed.groups => Due(managed.groups[i])) + [objects.Objects?]
  }

  lemma GroupTells(g: Group, outcome: Option<Session.CommitOutcome>, reloads: seq<Session.Image>, commit: CommitResult, text: string)
    requires g.Valid() && GroupMatches(g, reloads) && (outcome.Some? <==> Due(g)) && outcome != Some(Session.Poisoned)
    requires outcome.Some? ==> commit == ResultOf(outcome.value, text)
    ensures Tells(Told(g.id, g.enabled, g.Kept(), commit), outcome, reloads)
  {
    hide Group.Valid, Tells, Told;
    if outcome.Some? {
      ToldTells(g.id, g.enabled, g.Kept(), reloads, outcome.value, text);
    } else {
      ToldNothing(g.id, g.enabled, g.Kept(), commit, reloads);
    }
  }

  lemma ObjectsTell(objects: Watched, outcomes: seq<Option<Session.CommitOutcome>>, n: nat, reloads: seq<Session.Image>, text: nat -> string)
    requires n < |outcomes| && (outcomes[n].Some? <==> objects.Objects?) && Clean(outcomes)
    ensures Tells(ManagedSession.Answered(PassOf(objects, outcomes, n, reloads, text)), outcomes[n], reloads)
  {
  }

  /** One update: commit what every enabled group and the object watches have prepared, one transaction each, and return the
      events. An event says that a generation was applied exactly when its redirects were installed in the run; what a disabled
      group has prepared stays prepared; and a rollback that is left half undone ends both the session and its events. */
  method Update(
    native: Session.NativeSession, managed: ManagedSession.Session, held: seq<seq<Session.Image>>, objects: Watched, text: nat -> string)
    returns (r: Option<seq<Event>>, outcomes: seq<Option<Session.CommitOutcome>>, ghost rest: seq<seq<Session.Image>>)
    requires native.Valid() && managed.Valid() && !native.closed && !native.poisoned && !managed.fatal
    requires Matches(managed, held) && Session.Pending(native.env, native.Now(), held, 0)
    modifies native`activeAllocations, native`poisoned, native`applied, native`redirects, native`targets, native`history,
             native.pages, native.pages.memory, native.table, managed, managed.groups
    ensures native.Valid() && managed.Valid() && !native.closed && old(native.history) <= native.history
    ensures (r.None? <==> native.poisoned) && (managed.fatal <==> native.poisoned)
    ensures Session.Pending(native.env, native.Now(), rest, 0)
    ensures Progress(native.env, native.history, |old(native.history)|, held, rest, outcomes)
    ensures r.Some? ==> |outcomes| == |held| && Matches(managed, rest)
    ensures r.Some? ==> forall i :: 0 <= i < |managed.groups| ==>
                          (outcomes[i].Some? <==> old(Due(managed.groups[i])))
                          && Tells(ManagedSession.EventsOf(r.value, managed.groups[i].id), outcomes[i], held[i])
    ensures r.Some? ==> Tells(ManagedSession.EventsOf(r.value, ""), outcomes[|managed.groups|], held[|managed.groups|])
    ensures native.pages.memory.refused >= old(native.pages.memory.refused)
    ensures native.pages.memory.refused == old(native.pages.memory.refused) ==>
              r.Some? && Blamed(native.history, |old(native.history)| - 1, old(native.table.committed), native.table.committed, held, outcomes)
  {
    hide Session.Pending, Progress, ManagedSession.Session.Valid, Group.Valid, Group.Held, Group.Holding, Tells, ManagedSession.EventsOf, Matches,
      Clean, Blamed;
    native.HasHistory();
    HeldCount(managed, held);
    outcomes, rest := CommitAll(native, held, Dues(managed, objects));
    RestCount(native.env, native.history, |old(native.history)|, held, rest, outcomes);
    forall i | 0 <= i < |outcomes|
      ensures rest[i] == Left(outcomes[i], held[i])
    {
      ProgressAt(native.env, native.history, |old(native.history)|, held, rest, outcomes, i);
    }
    r := Answer(managed, held, objects, outcomes, text, rest, native.poisoned);
  }

  /** The events of an update from what its commits came to. */
  method Answer(
    managed: ManagedSession.Session, held: seq<seq<Session.Image>>, objects: Watched, outcomes: seq<Option<Session.CommitOutcome>>,
    text: nat -> string, ghost rest: seq<seq<Session.Image>>, ghost poisoned: bool)
    returns (r: Option<seq<Event>>)
    requires managed.Valid() && !managed.fatal && Matches(managed, held)
    requires |outcomes| <= |held| == |managed.groups| + 1 && forall i :: 0 <= i < |outcomes| ==> (outcomes[i].Some? <==> Dues(managed, objects)[i])
    requires if poisoned then outcomes != [] && outcomes[|outcomes| - 1] == Some(Session.Poisoned) && Clean(outcomes[..|outcomes| - 1])
             else |outcomes| == |held| && Clean(outcomes)
    requires |rest| == |held| && forall i :: 0 <= i < |outcomes| ==> rest[i] == Left(outcomes[i], held[i])
    modifies managed, managed.groups
    ensures managed.Valid() && (managed.fatal <==> poisoned) && (r.None? <==> poisoned)
    ensures r.Some? ==> Matches(managed, rest)
    ensures r.Some? ==> forall i :: 0 <= i < |managed.groups| ==>
                          (outcomes[i].Some? <==> old(Due(managed.groups[i])))
                          && Tells(ManagedSession.EventsOf(r.value, managed.groups[i].id), outcomes[i], held[i])
    ensures r.Some? ==> Tells(ManagedSession.EventsOf(r.value, ""), outcomes[|managed.groups|], held[|managed.groups|])
  {
    hide Group.Valid, Group.Held, Group.Holding, Group.Kept, Tells, Told, ManagedSession.EventsOf, ManagedSession.Count,
      ManagedSession.Session.Settled, ManagedSession.Session.Distinct, ManagedSession.Session.Breaks, Matches, Clean, PassOf,
      ManagedSession.Answered, ManagedSession.Flat, ManagedSession.LastText, ManagedSession.Session.Tellings;
    var n := |managed.groups|;
    var results := Results(outcomes, text, n);
    var pass := PassOf(objects, outcomes, n, held[n], text);
    BreaksWhen(managed, objects, outcomes, held[n], text, poisoned);
    forall i | 0 <= i < n && !poisoned
      ensures Tells(Told(managed.groups[i].id, managed.groups[i].enabled, managed.groups[i].Kept(), results[i]), outcomes[i], held[i])
      ensures GroupMatches(managed.groups[i], held[i]) && (managed.groups[i].prepared.None? ==> held[i] == [])
    {
      MatchesAt(managed, held, i);
      CleanAt(outcomes, i);
      GroupTells(managed.groups[i], outcomes[i], held[i], results[i], text(i));
    }
    r := managed.Update(results, pass);
    if r.Some? {
      ObjectsTell(objects, outcomes, n, held[n], text);
      forall i | 0 <= i < n
        ensures GroupMatches(managed.groups[i], rest[i])
      {
        if managed.groups[i].enabled {
          NotHolding(managed.groups[i]);
        }
      }
      RestMatches(managed, rest);
    }
  }

  lemma RestCount(
    env: Env, history: seq<World>, from: nat, held: seq<seq<Session.Image>>, rest: seq<seq<Session.Image>>,
    outcomes: seq<Option<Session.CommitOutcome>>)
    requires Progress(env, history, from, held, rest, outcomes)
    ensures |rest| == |held|
  {
  }

  lemma ProgressAt(
    env: Env, history: seq<World>, from: nat, held: seq<seq<Session.Image>>, rest: seq<seq<Session.Image>>,
    outcomes: seq<Option<Session.CommitOutcome>>, i: nat)
    requires Progress(env, history, from, held, rest, outcomes) && i < |outcomes|
    ensures |rest| == |held| && rest[i] == Left(outcomes[i], held[i])
  {
  }

  lemma NotHolding(g: Group)
    requires !g.Holding()
    ensures g.prepared.None?
  {
  }

  lemma RestMatches(managed: ManagedSession.Session, rest: seq<seq<Session.Image>>)
    requires |rest| == |managed.groups| + 1 && forall i :: 0 <= i < |managed.groups| ==> GroupMatches(managed.groups[i], rest[i])
    ensures Matches(managed, rest)
  {
  }

  lemma HeldCount(managed: ManagedSession.Session, held: seq<seq<Session.Image>>)
    requires Matches(managed, held)
    ensures |held| == |managed.groups| + 1
  {
  }

  lemma MatchesAt(managed: ManagedSession.Session, held: seq<seq<Session.Image>>, i: nat)
    requires Matches(managed, held) && i < |managed.groups|
    ensures GroupMatches(managed.groups[i], held[i])
  {
  }

  lemma CleanAt(outcomes: seq<Option<Session.CommitOutcome>>, i: nat)
    requires Clean(outcomes) && i < |outcomes|
    ensures outcomes[i] != Some(Session.Poisoned)
  {
  }

  /** The update of the groups ends the session just when a commit was left half undone. */
  lemma BreaksWhen(
    managed: ManagedSession.Session, objects: Watched, outcomes: seq<Option<Session.CommitOutcome>>, reloads: seq<Session.Image>,
    text: nat -> string, poisoned: bool)
    requires |outcomes| <= |managed.groups| + 1 && forall i :: 0 <= i < |outcomes| ==> (outcomes[i].Some? <==> Dues(managed, objects)[i])
    requires if poisoned then outcomes != [] && outcomes[|outcomes| - 1] == Some(Session.Poisoned) && Clean(outcomes[..|outcomes| - 1])
             else |outcomes| == |managed.groups| + 1 && Clean(outcomes)
    ensures var n := |managed.groups|; var pass := PassOf(objects, outcomes, n, reloads, text);
      poisoned <==>
        (pass.ObjectsPrepared? && pass.commit == Incomplete)
        || exists i :: 0 <= i < n && managed.Breaks(i, Results(outcomes, text, n)[i])
  {
    var n, results := |managed.groups|, Results(outcomes, text, |managed.groups|);
    if poisoned && |outcomes| <= n {
      assert managed.Breaks(|outcomes| - 1, results[|outcomes| - 1]);
    }
  }

  // ---- the worker ----

  /** What a pass over a group finds in its stream. */
  datatype Found = Quiet | BadOffer(id: string, message: string) | NewOffer(id: string, members: seq<Session.Candidate>)

  /** One worker pass over an enabled group: a new offer is loaded, linked and checked, and takes the place of whatever the group
      had prepared; a bad one, or one that cannot be prepared, leaves the group without a generation. Afterwards the session
      is as ready for the next update as it was before. */
  method Work(
    native: Session.NativeSession, managed: ManagedSession.Session, held: seq<seq<Session.Image>>, i: nat, found: Found,
    link: seq<Session.Image> -> Option<seq<Session.Rewrite>>, text: string)
    returns (next: seq<seq<Session.Image>>)
    requires native.Valid() && managed.Valid() && !native.closed && !managed.fatal && i < |managed.groups|
    requires Matches(managed, held) && Session.Pending(native.env, native.Now(), held, 0)
    requires found.NewOffer? ==> forall k :: 0 <= k < |found.members| ==> Session.CandidateOk(native.env, found.members[k])
    modifies native`history, native.pages, native.pages.memory, managed`fatal, managed.groups[i]
    ensures native.Valid() && managed.Valid() && !native.closed && old(native.history) <= native.history && !managed.fatal
    ensures Matches(managed, next) && Session.Pending(native.env, native.Now(), next, 0)
    ensures forall j :: 0 <= j < |held| && j != i ==> next[j] == held[j]
    ensures found.Quiet? || !old(managed.groups[i].enabled) ==> next == held && unchanged(managed.groups[i])
    ensures old(managed.groups[i].enabled) && found.NewOffer? && managed.groups[i].prepared.Some? ==>
              managed.groups[i].prepared.value.0 == found.id && Session.AllBuilt(next[i], found.members)
              && Session.LinkedAs(native.Now(), next[i], found.members, link)
    ensures old(managed.groups[i].enabled) && found.NewOffer? && native.pages.memory.refused == old(native.pages.memory.refused) ==>
              managed.groups[i].prepared.Some?
              || Session.Hindered(native.pages.page, native.pages.floor, native.history, |old(native.history)| - 1, found.members, link)
    ensures old(managed.groups[i].enabled) && found.BadOffer? ==> managed.groups[i].prepared.None? && next[i] == []
  {
    hide Session.Pending, Session.Ready, Session.Grows, Group.Valid, Group.Held, Group.Holding, ManagedSession.Session.Settled,
      ManagedSession.Session.Distinct, Matches, Session.Hindered, Session.LinkedAs;
    native.HasHistory();
    next := held;
    if found.Quiet? || !managed.groups[i].enabled {
      return;
    }
    HeldCount(managed, held);
    var built;
    built, next := PlaceNext(native, held, i, found, link);
    var pass := match found
      case NewOffer(id, _) => Offered(id, if built.Some? then Ok(|Session.Batch(built.value)|) else Error(text))
      case BadOffer(id, message) => Refused(id, message)
      case Quiet => Idle;
    forall j | 0 <= j < |managed.groups| && j != i
      ensures GroupMatches(managed.groups[j], held[j]) && managed.groups[j] != managed.groups[i]
    {
      MatchesAt(managed, held, j);
      OtherGroup(managed, i, j);
    }
    managed.Work(i, pass, false);
    PreparedIs(managed.groups[i], pass);
    RestMatches(managed, next);
  }

  lemma OtherGroup(managed: ManagedSession.Session, i: nat, j: nat)
    requires managed.Valid() && i < |managed.groups| && j < |managed.groups| && i != j
    ensures managed.groups[i] != managed.groups[j]
  {
    assert if i < j then managed.groups[i] != managed.groups[j] else managed.groups[j] != managed.groups[i];
  }

  /** A group that holds a prepared generation, or not, as the pass says. */
  lemma PreparedIs(g: Group, pass: Pass)
    requires !pass.Idle?
    requires if Silent(OutcomeOf(pass)) then !g.Holding() else g.Holding() && g.Held() == OutcomeOf(pass)
    ensures OutcomeOf(pass).Prepared? ==> g.prepared == Some((OutcomeOf(pass).id, OutcomeOf(pass).redirects))
    ensures OutcomeOf(pass).Failure? ==> g.prepared.None?
  {
  }

  lemma OthersApart(env: Env, w: World, all: seq<seq<Session.Image>>, i: nat, j: nat)
    requires Session.Pending(env, w, all, 0) && i < j < |all|
    ensures Session.Elements(Session.Handles(all[i])) !! Session.Elements(Session.Handles(all[j]))
  {
  }

  /** The new generation of the group, if there is one, is prepared, and then the one it held is given back. */
  method PlaceNext(
    native: Session.NativeSession, held: seq<seq<Session.Image>>, i: nat, found: Found, link: seq<Session.Image> -> Option<seq<Session.Rewrite>>)
    returns (built: Option<seq<Session.Image>>, next: seq<seq<Session.Image>>)
    requires native.Valid() && !native.closed && i < |held| && Session.Pending(native.env, native.Now(), held, 0)
    requires found.NewOffer? ==> forall k :: 0 <= k < |found.members| ==> Session.CandidateOk(native.env, found.members[k])
    modifies native`history, native.pages, native.pages.memory
    ensures native.Valid() && !native.closed && old(native.history) <= native.history
    ensures next == held[i := if built.Some? then built.value else []] && Session.Pending(native.env, native.Now(), next, 0)
    ensures built.Some? ==> found.NewOffer? && Session.AllBuilt(built.value, found.members)
    ensures built.Some? ==> Session.LinkedAs(native.Now(), built.value, found.members, link)
    ensures native.pages.memory.refused >= old(native.pages.memory.refused)
    ensures found.NewOffer? && built.None? && native.pages.memory.refused == old(native.pages.memory.refused) ==>
              Session.Hindered(native.pages.page, native.pages.floor, native.history, |old(native.history)| - 1, found.members, link)
  {
    hide Session.Pending, Session.Ready, Session.Grows, Session.StayExcept, Session.Handles, Session.LinkedAs, Session.GroupHindered,
      Session.Hindered;
    native.HasHistory();
    built := None;
    ghost var w, all := native.Now(), held;
    if found.NewOffer? {
      native.ActiveOwned();
      built := native.PrepareGroup(found.members, link);
      if built.Some? {
        Session.PendingMore(native.env, w, native.Now(), held, built.value);
        all := held + [built.value];
      } else {
        Session.PendingStays(native.env, w, native.Now(), held);
      }
    }
    if found.NewOffer? && built.None? && native.pages.memory.refused == old(native.pages.memory.refused) {
      Session.HinderedNow(native.pages.page, native.pages.floor, old(native.history), native.history, |old(native.history)| - 1,
                          old(native.Now()), found.members, link);
    }
    ghost var past := native.history;
    HeldReady(native.env, native.Now(), all, i);
    if built.Some? {
      OthersApart(native.env, native.Now(), all, i, |held|);
    }
    w := native.Now();
    native.Discard(held[i]);
    if built.Some? {
      Session.LinkedStays(w, native.Now(), Session.Elements(Session.Handles(held[i])), built.value, found.members, link);
    } else if found.NewOffer? && native.pages.memory.refused == old(native.pages.memory.refused) {
      Session.HinderedLonger(native.pages.page, native.pages.floor, past, native.history, |old(native.history)| - 1, found.members, link);
    }
    Session.PendingEmptied(native.env, w, native.Now(), all, i, false);
    next := held[i := if built.Some? then built.value else []];
    if built.Some? {
      assert all[i := []] == held[i := []] + [built.value];
      Session.PendingMoved(native.env, native.Now(), held[i := []], i, built.value);
      assert held[i := []][i := built.value] == next;
    }
  }
}
