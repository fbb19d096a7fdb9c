/** The managed groups of a native session: the worker stores one outcome per group, `update` reports it. */
module ManagedGroups {
  import opened Wrappers

  /** What one worker pass finds: nothing new, a refused offer, or an offer that could be prepared or not. */
  datatype Pass =
    | Idle
    | Refused(id: string, message: string)
    | Offered(id: string, built: Result<nat, string>)

  /** An observation as the worker stores it. */
  datatype Outcome = Prepared(id: string, redirects: nat) | Failure(id: string, message: string)

  /** What a commit of a prepared generation comes to. */
  datatype CommitResult = Committed | RolledBack(message: string) | Incomplete

  datatype Event = Event(group: string, generation: string, applied: bool, redirects: nat, message: string)

  function OutcomeOf(pass: Pass): Outcome
    requires !pass.Idle?
  {
    match pass
    case Refused(id, message) => Failure(id, message)
    case Offered(id, built) => if built.Ok? then Prepared(id, built.value) else Failure(id, built.error)
  }

  /** A failure with an empty text leaves nothing to report, because an empty text is how the absence of one is kept. */
  predicate Silent(o: Outcome) {
    o.Failure? && o.message == ""
  }

  /** The event of an outcome: a failure as it is, a prepared generation as applied or as refused by the commit. */
  predicate Reports(e: Event, group: string, o: Outcome) {
    e.group == group && e.generation == o.id
    && match o
       case Prepared(_, redirects) => e.applied ==> e.redirects == redirects && e.message == ""
       case Failure(_, message) => !e.applied && e.message == message
  }

  /** What an update returns for a group: nothing for a disabled one or one that holds nothing, and otherwise one event, which
      says of a prepared generation what its commit came to. */
  function Told(group: string, enabled: bool, kept: Option<Outcome>, commit: CommitResult): seq<Event> {
    if !enabled || kept.None? then []
    else
      match kept.value
      case Failure(generation, message) => [Event(group, generation, false, 0, message)]
      case Prepared(generation, redirects) =>
        match commit
        case Committed => [Event(group, generation, true, redirects, "")]
        case RolledBack(message) => [Event(group, generation, false, 0, message)]
        case Incomplete => []
  }

  /** Of `n` observations each one was reported, or was superseded, or was silent, or is the last one and still held; and
      just one of these. Reports come in the order of the observations, so none is reported twice. */
  ghost predicate Ledger(n: nat, reported: seq<nat>, superseded: set<nat>, silent: set<nat>, holding: bool) {
    && (holding ==> n > 0)
    && (forall k: nat :: k in superseded || k in reported || k in silent || (holding && k == n - 1) <==> k < n)
    && superseded !! silent && (forall k: nat :: k in superseded || k in silent ==> k !in reported)
    && (holding ==> n - 1 !in superseded && n - 1 !in silent && n - 1 !in reported)
    && (forall i, j :: 0 <= i < j < |reported| ==> reported[i] < reported[j])
  }

  /** The observation that a new one supersedes. */
  function Superseded(n: nat, holding: bool): set<nat> {
    if holding && n > 0 then {n - 1} else {}
  }

  lemma LedgerObserves(n: nat, reported: seq<nat>, superseded: set<nat>, silent: set<nat>, holding: bool)
    requires Ledger(n, reported, superseded, silent, holding)
    ensures Ledger(n + 1, reported, superseded + Superseded(n, holding), silent, true)
    ensures Ledger(n + 1, reported, superseded + Superseded(n, holding), silent + {n}, false)
  {
    forall k: nat | k in reported
      ensures k < n
    {
    }
  }

  lemma LedgerReports(n: nat, reported: seq<nat>, superseded: set<nat>, silent: set<nat>)
    requires Ledger(n, reported, superseded, silent, true)
    ensures Ledger(n, reported + [n - 1], superseded, silent, false)
  {
    var more := reported + [n - 1];
    forall k: nat
      ensures k in more <==> k in reported || k == n - 1
    {
    }
    forall i | 0 <= i < |reported|
      ensures reported[i] < n - 1
    {
      assert reported[i] in reported;
    }
  }

  /** The books of a group: the ledger of its observations, and one event for every report. */
  ghost predicate Books(
    id: string, observed: seq<Outcome>, reported: seq<nat>, superseded: set<nat>, silent: set<nat>, events: seq<Event>, holding: bool)
  {
    && Ledger(|observed|, reported, superseded, silent, holding)
    && (forall k: nat :: k in silent <==> k < |observed| && Silent(observed[k]))
    && |events| == |reported|
    && (forall i :: 0 <= i < |events| ==> reported[i] < |observed| && Reports(events[i], id, observed[reported[i]]))
  }

  class Group {
    const id: string
    var enabled: bool
    var failed: bool
    var prepared: Option<(string, nat)>
    var pendingRejection: string
    var rejectionId: string
    var lastApplied: string

    /** All observations; the numbers of those reported, superseded, and silent; and the events of the reports. */
    ghost var observed: seq<Outcome>
    ghost var reported: seq<nat>
    ghost var superseded: set<nat>
    ghost var silent: set<nat>
    ghost var events: seq<Event>

    predicate Holding()
      reads this
    {
      prepared.Some? || pendingRejection != ""
    }

    ghost function Held(): Outcome
      requires Holding()
      reads this
    {
      if prepared.Some? then Prepared(prepared.value.0, prepared.value.1) else Failure(rejectionId, pendingRejection)
    }

    ghost function Kept(): Option<Outcome>
      reads this
    {
      if Holding() then Some(Held()) else None
    }

    /** At most one outcome is held, the last one observed. Every observation is held, superseded, reported, or one that was
        silent, and just one of these; each report is one event that says what the observation was. */
    ghost predicate Valid()
      reads this
    {
      && !(prepared.Some? && pendingRejection != "")
      && (prepared.Some? ==> !failed) && (pendingRejection != "" ==> failed)
      && (Holding() ==> observed != [] && observed[|observed| - 1] == Held())
      && Books(id, observed, reported, superseded, silent, events, Holding())
    }

    constructor (id: string)
      ensures Valid() && this.id == id && !enabled && !Holding() && observed == [] && events == []
    {
      this.id := id;
      enabled, failed := false, false;
      prepared, pendingRejection, rejectionId, lastApplied := None, "", "", "";
      observed, reported, superseded, silent, events := [], [], {}, {}, [];
    }

    method SetEnabled(enabled: bool)
      requires Valid()
      modifies this`enabled
      ensures Valid() && this.enabled == enabled && Holding() == old(Holding())
    {
      hide Books;
      this.enabled := enabled;
    }

    /** One worker pass. A newer observation supersedes an outcome still held, and is held in turn unless it is silent. */
    method Prepare(pass: Pass)
      requires Valid()
      modifies this
      ensures Valid() && enabled == old(enabled) && lastApplied == old(lastApplied)
      ensures pass.Idle? ==> unchanged(this)
      ensures !pass.Idle? ==> observed == old(observed) + [OutcomeOf(pass)] && (Holding() <==> !Silent(OutcomeOf(pass)))
      ensures !pass.Idle? && Holding() ==> Held() == OutcomeOf(pass)
      ensures !pass.Idle? ==> superseded == old(superseded) + Superseded(|old(observed)|, old(Holding()))
      ensures reported == old(reported) && events == old(events)
    {
      hide Books;
      if pass.Idle? {
        return;
      }
      Observe(OutcomeOf(pass));
      match pass {
        case Refused(generation, message) =>
          pendingRejection, rejectionId, failed, prepared := message, generation, true, None;
        case Offered(generation, built) =>
          if built.Ok? {
            prepared, failed, pendingRejection := Some((generation, built.value)), false, "";
          } else {
            pendingRejection, rejectionId, failed, prepared := built.error, generation, true, None;
          }
      }
    }

    /** The books of one more observation. */
    ghost method Observe(o: Outcome)
      requires Valid()
      modifies this`observed, this`superseded, this`silent
      ensures observed == old(observed) + [o] && superseded == old(superseded) + Superseded(|old(observed)|, Holding())
      ensures Books(id, observed, reported, superseded, silent, events, !Silent(o))
    {
      hide Ledger, Reports;
      LedgerObserves(|observed|, reported, superseded, silent, Holding());
      superseded := superseded + Superseded(|observed|, Holding());
      silent := if Silent(o) then silent + {|observed|} else silent;
      observed := observed + [o];
    }

    /** The part of `update` for one group. An incomplete rollback ends the session and reports nothing. */
    method Consume(commit: CommitResult) returns (e: Option<Event>, fatal: bool)
      requires Valid()
      modifies this
      ensures Valid() && enabled == old(enabled)
      ensures fatal <==> old(enabled) && old(prepared).Some? && commit == Incomplete
      ensures fatal || !old(enabled) ==> unchanged(this) && e.None?
      ensures !fatal && old(enabled) ==>
                !Holding() && observed == old(observed) && superseded == old(superseded) && silent == old(silent)
                && (e.Some? <==> old(Holding())) && events == old(events) + if e.Some? then [e.value] else []
      ensures !fatal ==> (if e.Some? then [e.value] else []) == Told(id, old(enabled), old(Kept()), commit)
      ensures e.Some? ==> Reports(e.value, id, old(Held())) && reported == old(reported) + [|observed| - 1]
      ensures e.Some? ==> (e.value.applied <==> old(prepared).Some? && commit == Committed) && (old(prepared).Some? ==> !commit.Incomplete?)
      ensures e.Some? ==> e.value.group == id
      ensures e.Some? && !e.value.applied ==>
                e.value.redirects == 0 && e.value.message == if old(prepared).Some? then commit.message else old(pendingRejection)
      ensures e.None? ==> reported == old(reported)
      ensures lastApplied == if e.Some? && e.value.applied then e.value.generation else old(lastApplied)
    {
      hide Books;
      e, fatal := None, false;
      if !enabled || !Holding() {
        return;
      }
      if prepared.Some? {
        var generation, redirects := prepared.value.0, prepared.value.1;
        if commit.Incomplete? {
          return None, true;
        }
        var event := if commit.Committed? then Event(id, generation, true, redirects, "") else Event(id, generation, false, 0, commit.message);
        Report(event);
        failed, lastApplied := !event.applied, if event.applied then generation else lastApplied;
        prepared := None;
        e := Some(event);
      } else {
        var event := Event(id, rejectionId, false, 0, pendingRejection);
        Report(event);
        pendingRejection := "";
        e := Some(event);
      }
    }

    /** The books of one report. */
    ghost method Report(e: Event)
      requires Valid() && Holding() && Reports(e, id, Held())
      modifies this`reported, this`events
      ensures reported == old(reported) + [|observed| - 1] && events == old(events) + [e]
      ensures Books(id, observed, reported, superseded, silent, events, false)
    {
      hide Ledger, Reports;
      LedgerReports(|observed|, reported, superseded, silent);
      reported := reported + [|observed| - 1];
      events := events + [e];
    }
  }
}
