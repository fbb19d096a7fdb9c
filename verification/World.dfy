/** The whole native session as a value, the steps it can take, and what every run keeps. */
module World {
  import opened Words
  import opened LiveMemory
  import opened Patching
  import opened Redirect
  import opened Arena
  import opened CodePages

  /** What the process supplies once and for all: the page size, the function entries of the
      running program, and the bytes they had before the first reload. */
  datatype Env = Env(page: nat, entries: set<nat>, original: Bytes)

  /** `owned` holds the begins of all live handles, `active` those the session keeps because a
      redirect may lead into them; `redirects` are the entries the session has rewritten, and `targets` the addresses inside
      loaded code that any generation redirected an entry to. */
  datatype World = World(
    bytes: Bytes,
    pools: seq<Pool>,
    owned: set<nat>,
    active: set<nat>,
    redirects: map<nat, nat>,
    targets: set<nat>,
    poisoned: bool,
    closed: bool)
  {
    ghost function Live(): set<Slot> {
      LiveSlots(pools)
    }

    /** A slot that no later step may reclaim: it belongs to the session or to the process. */
    ghost predicate Pinned(s: Slot) {
      s in Live() && (s.processLifetime || s.begin in active)
    }

    ghost predicate PinnedCode(s: Slot) {
      Pinned(s) && s.executable
    }

    /** `target` is an address of pinned code. */
    ghost predicate Lands(target: nat) {
      exists s :: PinnedCode(s) && s.begin <= target < s.usableEnd
    }
  }

  ghost predicate EnvOk(env: Env) {
    forall e :: e in env.entries ==> e < TWO_64 && Mapped(env.original, e, WINDOW)
  }

  /** No two entries lie so close that one's window reaches into the other's. */
  ghost predicate EntriesSpaced(env: Env) {
    forall e, f :: e in env.entries && f in env.entries && e < f ==> e + WINDOW <= f
  }

  ghost predicate ArenaInv(env: Env, w: World) {
    && ArenaOk(env.page, w.pools)
    && OwnersOk(w.Live(), w.owned)
    && w.active <= w.owned
    && (w.closed ==> w.owned == {})
    && (forall p :: 0 <= p < |w.pools| ==> w.pools[p].end <= MAX_64)
    && (forall s, a: nat :: Mine(w, s) && s.begin <= a < s.extentEnd ==> a in w.bytes)
    && (!w.closed ==> PoolRangesMapped(w.bytes, w.pools))
  }

  ghost predicate Mine(w: World, s: Slot) {
    s in w.Live() && (s.processLifetime || !w.closed)
  }

  /** The windows of all entries are mapped and lie outside every pool. */
  ghost predicate EntriesOk(env: Env, w: World) {
    forall e, a: nat :: e in env.entries && e <= a < e + WINDOW ==> a in w.bytes && !InPools(w.pools, a)
  }

  /** Every rewritten entry holds its jump, as far as no other entry's window cuts into it. */
  ghost predicate RedirectOk(env: Env, w: World, e: nat) {
    e in env.entries && e in w.redirects &&
    var t := w.redirects[e];
    t < TWO_64 && InReach(e, t) && (EntriesSpaced(env) ==> Holds(w.bytes, Patch(e, Jump(e, t))))
  }

  /** Every target lies in pinned code. */
  ghost predicate TargetsOk(w: World) {
    forall t :: t in w.targets ==> w.Lands(t)
  }

  ghost predicate Inv(env: Env, w: World) {
    && ArenaInv(env, w)
    && EntriesOk(env, w)
    && (forall e :: e in w.redirects ==> RedirectOk(env, w, e))
    && TargetsOk(w)
    && (EntriesSpaced(env) ==> forall e :: e in env.entries && e !in w.redirects ==> SameAt(env.original, w.bytes, e, WINDOW))
  }

  // ---- what the invariant means for one entry ----

  /** No dangling redirect: whatever the session wrote over an entry sends the processor to the target it was meant for, and if
      that lay inside the code loaded for it, into the usable part of an active, executable slot that is pinned; and then the
      entry stays patchable for every later target in reach. */
  lemma NoDanglingRedirect(env: Env, w: World, e: nat)
    requires EnvOk(env) && EntriesSpaced(env) && Inv(env, w) && e in w.redirects
    ensures Mapped(w.bytes, e, WINDOW)
    ensures JumpTarget(e, Read(w.bytes, e, WINDOW)) == w.redirects[e]
    ensures w.redirects[e] in w.targets ==> w.Lands(w.redirects[e])
    ensures w.redirects[e] in w.targets ==> forall t :: InReach(e, t) ==> Patchable(w.bytes, w.Live(), e, t)
  {
    assert RedirectOk(env, w, e);
    var t := w.redirects[e];
    HoldsRead(w.bytes, Patch(e, Jump(e, t)));
    JumpDecodes(e, t);
    if t in w.targets {
      var s :| w.PinnedCode(s) && s.begin <= t < s.usableEnd;
      assert InCode(w.Live(), t);
    }
  }

  // ---- steps ----

  /** A reservation: a slot is taken or cut, possibly in a new pool on fresh ground. */
  ghost predicate ReserveStep(env: Env, w: World, w': World, s: Slot) {
    && w' == w.(bytes := w'.bytes, pools := w'.pools, owned := w.owned + {s.begin})
    && !w.closed && Reserved(env.page, w.bytes, w.pools, w'.bytes, w'.pools, s)
  }

  /** The bytes of a slot that is not pinned are written; the slot may become executable. */
  ghost predicate FillStep(w: World, w': World, s: Slot) {
    && w' == w.(bytes := w'.bytes, pools := w'.pools)
    && !w.closed && s in w.Live() && s.begin in w.owned - w.active
    && (w'.pools == w.pools || Rewritten(w.pools, w'.pools, s, s.(executable := true)))
    && ChangedWithin(w.bytes, w'.bytes, s.begin, s.usableEnd)
  }

  /** The handle of a slot that is not pinned is destroyed: the slot is free, or belongs to the process from now on. */
  ghost predicate DropStep(w: World, w': World, s: Slot) {
    && w' == w.(bytes := w'.bytes, pools := w'.pools, owned := w.owned - {s.begin})
    && !w.closed && s in w.Live() && s.begin in w.owned - w.active
    && (Rewritten(w.pools, w'.pools, s, Freed(s)) || Rewritten(w.pools, w'.pools, s, s.(processLifetime := true)))
    && ChangedWithin(w.bytes, w'.bytes, s.begin, s.extentEnd)
  }

  function Patches(batch: seq<(nat, nat)>): (r: seq<Patch>)
    ensures |r| == |batch|
    ensures forall j :: 0 <= j < |r| ==> r[j] == Patch(batch[j].0, Jump(batch[j].0, batch[j].1))
  {
    seq(|batch|, j requires 0 <= j < |batch| => Patch(batch[j].0, Jump(batch[j].0, batch[j].1)))
  }

  /** A generation ready for commit: distinct program entries, and candidate handles `moved` that own its code. */
  ghost predicate BatchOk(env: Env, w: World, moved: set<nat>, batch: seq<(nat, nat)>) {
    && moved <= w.owned - w.active
    && (forall i, j :: 0 <= i < j < |batch| ==> batch[i].0 != batch[j].0)
    && (forall j :: 0 <= j < |batch| ==> batch[j].0 in env.entries && batch[j].1 < TWO_64)
  }

  /** The targets of a batch that lie inside executable candidate code of `moved`. */
  ghost function Aimed(w: World, moved: set<nat>, batch: seq<(nat, nat)>): set<nat> {
    set x | x in batch && CandidateTarget(w, moved, x.1) :: x.1
  }

  ghost predicate CandidateTarget(w: World, moved: set<nat>, target: nat) {
    exists s :: s in w.Live() && s.executable && s.begin in moved && s.begin <= target < s.usableEnd
  }

  /** Every target of the batch does. */
  ghost predicate AllAimed(w: World, moved: set<nat>, batch: seq<(nat, nat)>) {
    forall x :: x in batch ==> x.1 in Aimed(w, moved, batch)
  }

  /** Every target of the batch is one that the session vouches for. */
  ghost predicate Vouched(w: World, batch: seq<(nat, nat)>) {
    forall x :: x in batch ==> x.1 in w.targets
  }

  lemma AimedVouched(w: World, w': World, moved: set<nat>, batch: seq<(nat, nat)>)
    requires AllAimed(w, moved, batch) && w'.targets == w.targets + Aimed(w, moved, batch)
    ensures Vouched(w', batch)
  {
    hide Aimed;
  }

  /** `was` overridden by the redirects of a batch. */
  ghost function Override(was: map<nat, nat>, batch: seq<(nat, nat)>): (now: map<nat, nat>)
    ensures Merged(was, now, batch)
  {
    map e | e in was.Keys + (set x | x in batch :: x.0) ::
      if Names(batch, e) then (var j :| 0 <= j < |batch| && batch[j].0 == e; batch[j].1) else was[e]
  }

  ghost predicate AllInReach(batch: seq<(nat, nat)>, n: nat) {
    forall k :: 0 <= k < n <= |batch| ==> InReach(batch[k].0, batch[k].1)
  }

  /** A successful commit: every entry of the batch is redirected and every handle pinned. */
  ghost predicate CommitStep(env: Env, w: World, w': World, moved: set<nat>, batch: seq<(nat, nat)>) {
    && !w.closed && !w.poisoned && BatchOk(env, w, moved, batch)
    && AllInReach(batch, |batch|)
    && w' == w.(bytes := PatchFirst(w.bytes, Patches(batch), |batch|), active := w.active + moved, redirects := w'.redirects,
               targets := w.targets + Aimed(w, moved, batch))
    && Merged(w.redirects, w'.redirects, batch)
  }

  ghost predicate Names(batch: seq<(nat, nat)>, e: nat) {
    exists j :: 0 <= j < |batch| && batch[j].0 == e
  }

  /** `now` is `was` overridden by the batch. */
  ghost predicate Merged(was: map<nat, nat>, now: map<nat, nat>, batch: seq<(nat, nat)>) {
    forall e :: (e in now <==> e in was || Names(batch, e)) &&
                (e in now ==> if Names(batch, e) then (e, now[e]) in batch else now[e] == was[e])
  }

  /** A commit whose rollback is incomplete: the session is poisoned, all candidate memory is kept. */
  ghost predicate PoisonStep(env: Env, w: World, w': World, moved: set<nat>, batch: seq<(nat, nat)>, written: nat, failures: nat) {
    && !w.closed && !w.poisoned && BatchOk(env, w, moved, batch)
    && failures > 0 && written <= |batch|
    && AllInReach(batch, written)
    && RollingBack(w.bytes, w'.bytes, Patches(batch), written, 0, failures)
    && w' == w.(bytes := w'.bytes, active := w.active + moved, poisoned := true, redirects := w'.redirects,
               targets := w.targets + Aimed(w, moved, batch))
    && ExposedOk(env, w, w', batch, written)
  }

  /** The redirects of `w'` tell the truth about every window: it holds its patch, or is as it was in `w`. */
  ghost predicate ExposedOk(env: Env, w: World, w': World, batch: seq<(nat, nat)>, written: nat) {
    && w.redirects.Keys <= w'.redirects.Keys
    && (forall e :: e in w'.redirects ==> ExposedAt(env, w, w', batch, written, e))
    && (EntriesSpaced(env) ==> forall e :: e in env.entries && e !in w'.redirects ==> SameAt(w.bytes, w'.bytes, e, WINDOW))
  }

  ghost predicate ExposedAt(env: Env, w: World, w': World, batch: seq<(nat, nat)>, written: nat, e: nat)
    requires e in w'.redirects
  {
    || (e in w.redirects && w'.redirects[e] == w.redirects[e] && (EntriesSpaced(env) ==> SameAt(w.bytes, w'.bytes, e, WINDOW)))
    || (exists j: nat :: j < written <= |batch| && batch[j] == (e, w'.redirects[e]) && Holds(w'.bytes, Patches(batch)[j]))
  }

  ghost predicate HeldAt(m: Bytes, batch: seq<(nat, nat)>, written: nat, e: nat) {
    exists j: nat :: j < written <= |batch| && batch[j].0 == e && Holds(m, Patches(batch)[j])
  }

  /** The redirects after an incomplete rollback: the earlier ones, overridden where a patch stayed. */
  ghost function Exposed(was: map<nat, nat>, m: Bytes, batch: seq<(nat, nat)>, written: nat): map<nat, nat> {
    map e | e in was.Keys + (set x | x in batch :: x.0) && (e in was || HeldAt(m, batch, written, e)) ::
      if HeldAt(m, batch, written, e) then
        (var j: nat :| j < written <= |batch| && batch[j].0 == e && Holds(m, Patches(batch)[j]); batch[j].1)
      else was[e]
  }

  /** Session destruction hands one pinned slot to the process. */
  ghost predicate ReleaseStep(w: World, w': World, s: Slot) {
    && w' == w.(pools := w'.pools, owned := w.owned - {s.begin}, active := w.active - {s.begin})
    && !w.closed && s in w.Live() && s.begin in w.active
    && Rewritten(w.pools, w'.pools, s, s.(processLifetime := true))
  }

  /** The allocator is gone; only memory outside the pools and slots of the process must remain. */
  ghost predicate CloseStep(w: World, w': World) {
    && w' == w.(bytes := w'.bytes, closed := true)
    && !w.closed && w.owned == {}
    && Kept(w.bytes, w'.bytes)
    && (forall a :: a in w.bytes && !InPools(w.pools, a) ==> a in w'.bytes)
    && (forall s, a: nat :: s in w.Live() && s.processLifetime && s.begin <= a < s.extentEnd ==> a in w'.bytes)
  }

  /** One step of the session. A rolled-back commit is a step that changes nothing. */
  ghost predicate Next(env: Env, w: World, w': World) {
    || w' == w
    || (exists s :: ReserveStep(env, w, w', s))
    || (exists s :: FillStep(w, w', s))
    || (exists s :: DropStep(w, w', s))
    || (exists moved, batch :: CommitStep(env, w, w', moved, batch))
    || (exists moved, batch, written, failures :: PoisonStep(env, w, w', moved, batch, written, failures))
    || (exists s :: ReleaseStep(w, w', s))
    || CloseStep(w, w')
  }

  lemma ReserveIsNext(env: Env, w: World, w': World, s: Slot)
    requires ReserveStep(env, w, w', s)
    ensures Next(env, w, w')
  {
  }

  lemma FillIsNext(env: Env, w: World, w': World, s: Slot)
    requires FillStep(w, w', s)
    ensures Next(env, w, w')
  {
  }

  lemma DropIsNext(env: Env, w: World, w': World, s: Slot)
    requires DropStep(w, w', s)
    ensures Next(env, w, w')
  {
  }

  lemma ReleaseIsNext(env: Env, w: World, w': World, s: Slot)
    requires ReleaseStep(w, w', s)
    ensures Next(env, w, w')
  {
  }

  lemma CloseIsNext(env: Env, w: World, w': World)
    requires CloseStep(w, w')
    ensures Next(env, w, w')
  {
  }

  // ---- the allocator, step by step ----

  /** The allocator's invariant, seen from the world. */
  lemma ArenaInvFrom(env: Env, w: World)
    requires ArenaOk(env.page, w.pools) && OwnersOk(w.Live(), w.owned) && w.active <= w.owned && !w.closed
    requires PoolRangesMapped(w.bytes, w.pools)
    ensures ArenaInv(env, w)
  {
    forall s, a: nat | Mine(w, s) && s.begin <= a < s.extentEnd
      ensures a in w.bytes
    {
      var p, i := Locate(w.pools, s);
      SlotInPool(env.page, w.pools[p], i);
      assert MappedRange(w.bytes, w.pools[p].begin, w.pools[p].end);
    }
  }

  lemma RewrittenOk(page: nat, was: seq<Pool>, now: seq<Pool>, s: Slot, t: Slot)
    requires ArenaOk(page, was) && Rewritten(was, now, s, t) && s in LiveSlots(was)
    requires t == Freed(s) || t == s.(processLifetime := t.processLifetime, executable := t.executable)
    ensures ArenaOk(page, now) && SameRanges(was, now)
    ensures LiveSlots(now) == LiveSlots(was) - {s} + if t.active then {t} else {}
  {
    var p: nat, i: nat :| IsSlot(was, p, i) && was[p].slots[i] == s && now == WithSlot(was, p, i, t);
    var _, _ := Locate(was, s);
    SlotInPool(page, was[p], i);
    WithSlotOk(page, was, p, i, t);
  }

  /** A slot is added apart from all others, and whatever was mapped outside the pools stays outside. */
  lemma ReservedOk(page: nat, was: Bytes, pools: seq<Pool>, now: Bytes, pools': seq<Pool>, s: Slot)
    requires ArenaOk(page, pools) && PoolRangesMapped(was, pools) && Reserved(page, was, pools, now, pools', s)
    ensures ArenaOk(page, pools') && PoolRangesMapped(now, pools')
    ensures LiveSlots(pools') == LiveSlots(pools) + {s} && forall t :: t in LiveSlots(pools) ==> SlotsApart(t, s) && t.begin != s.begin
    ensures Extends(was, now) && forall a :: a in was && !InPools(pools, a) ==> !InPools(pools', a)
  {
    hide ArenaOk, PoolRangesMapped, Placed, LiveSlots, InPools;
    var mid :| Grown(was, pools, now, mid) && Placed(page, mid, pools', s);
    if begin: nat, size: nat :| GrownBy(was, pools, now, mid, begin, size) {
      NewPoolMapped(page, pools, was, begin, size);
    }
    PlacedOk(page, mid, pools', s);
    SameRangesMapped(mid, pools', now, now);
  }

  lemma PlacedOk(page: nat, was: seq<Pool>, now: seq<Pool>, s: Slot)
    requires ArenaOk(page, was) && Placed(page, was, now, s)
    ensures ArenaOk(page, now) && SameRanges(was, now) && LiveSlots(now) == LiveSlots(was) + {s}
    ensures forall t :: t in LiveSlots(was) ==> SlotsApart(t, s) && t.begin != s.begin
  {
    if Reused(page, was, now, s) {
      ReusedOk(page, was, now, s);
    } else {
      CutOk(page, was, now, s);
    }
    forall t | t in LiveSlots(was)
      ensures t.begin != s.begin
    {
      var p, i := Locate(was, t);
      SlotInPool(page, was[p], i);
    }
  }

  lemma ReusedOk(page: nat, was: seq<Pool>, now: seq<Pool>, s: Slot)
    requires ArenaOk(page, was) && Reused(page, was, now, s) && s == Slot(s.begin, s.usableEnd, s.extentEnd, true, false, false)
    ensures ArenaOk(page, now) && SameRanges(was, now) && LiveSlots(now) == LiveSlots(was) + {s}
    ensures forall t :: t in LiveSlots(was) ==> SlotsApart(t, s)
  {
    hide ArenaOk, LiveSlots, SlotsApart, SameRanges;
    var t: Slot :| !t.active && t.begin == s.begin && t.extentEnd == s.extentEnd && Rewritten(was, now, t, s);
    var p: nat, i: nat :| IsSlot(was, p, i) && was[p].slots[i] == t && now == WithSlot(was, p, i, s);
    WithSlotOk(page, was, p, i, s);
    WithSlotRanges(was, p, i, s);
    forall u | u in LiveSlots(was)
      ensures SlotsApart(u, s) && u != t
    {
      FreeSlotApart(page, was, p, i, u, s);
    }
  }

  lemma WithSlotRanges(was: seq<Pool>, p: nat, i: nat, s: Slot)
    requires IsSlot(was, p, i)
    ensures SameRanges(was, WithSlot(was, p, i, s))
  {
  }

  /** A slot in the place of an inactive one is apart from every active slot. */
  lemma FreeSlotApart(page: nat, was: seq<Pool>, p: nat, i: nat, u: Slot, s: Slot)
    requires ArenaOk(page, was) && IsSlot(was, p, i) && !was[p].slots[i].active && u in LiveSlots(was)
    requires s.begin == was[p].slots[i].begin && s.extentEnd == was[p].slots[i].extentEnd
    ensures SlotsApart(u, s) && u != was[p].slots[i]
  {
    hide ArenaOk, LiveSlots;
    var q, j := Locate(was, u);
    SlotsDisjoint(page, was, p, i, q, j);
  }

  lemma CutOk(page: nat, was: seq<Pool>, now: seq<Pool>, s: Slot)
    requires ArenaOk(page, was) && Cut(page, was, now, s)
    ensures ArenaOk(page, now) && SameRanges(was, now) && LiveSlots(now) == LiveSlots(was) + {s}
    ensures forall t :: t in LiveSlots(was) ==> SlotsApart(t, s)
  {
    hide ArenaOk, LiveSlots, SlotsApart;
    var p: nat, span: nat :| p < |was| && 0 < span && span + page <= was[p].end - was[p].cursor
                             && s == FreshSlot(page, was[p].cursor, span) && now == was[p := Carved(page, was[p], span)];
    CarvedOk(page, was, p, span);
  }

  /** A reservation keeps the allocator's half of the invariant. */
  lemma ReserveArena(env: Env, w: World, w': World, s: Slot)
    requires ArenaInv(env, w) && ReserveStep(env, w, w', s)
    ensures ArenaInv(env, w') && w'.Live() == w.Live() + {s} && s.begin !in w.owned
    ensures !s.executable && !s.processLifetime
    ensures Extends(w.bytes, w'.bytes) && forall a :: a in w.bytes && !InPools(w.pools, a) ==> !InPools(w'.pools, a)
  {
    hide Reserved, LiveSlots, InPools, Extends, ArenaOk;
    ReservedOk(env.page, w.bytes, w.pools, w'.bytes, w'.pools, s);
    ReservedFlags(env.page, w.bytes, w.pools, w'.bytes, w'.pools, s);
    forall b | b in w.owned
      ensures exists t :: t in w'.Live() && t.begin == b
    {
      var t :| t in w.Live() && t.begin == b;
    }
    ArenaInvFrom(env, w');
  }

  lemma ReservedFlags(page: nat, was: Bytes, pools: seq<Pool>, now: Bytes, pools': seq<Pool>, s: Slot)
    requires Reserved(page, was, pools, now, pools', s)
    ensures !s.executable && !s.processLifetime
  {
  }

  lemma FillArena(env: Env, w: World, w': World, s: Slot)
    requires ArenaInv(env, w) && FillStep(w, w', s)
    ensures ArenaInv(env, w') && SameRanges(w.pools, w'.pools)
    ensures w'.pools == w.pools || w'.Live() == w.Live() - {s} + {s.(executable := true)}
  {
    hide ArenaOk, LiveSlots, Rewritten, PoolRangesMapped, MappedRange;
    var t := s.(executable := true);
    var _, _ := Locate(w.pools, s);
    if w'.pools != w.pools {
      RewrittenOk(env.page, w.pools, w'.pools, s, t);
      forall b | b in w.owned
        ensures exists u :: u in w'.Live() && u.begin == b
      {
        var u :| u in w.Live() && u.begin == b;
        assert (if u == s then t else u) in w'.Live();
      }
    }
    SameRangesMapped(w.pools, w'.pools, w.bytes, w'.bytes);
    ArenaInvFrom(env, w');
  }

  /** A slot that leaves its handle. */
  lemma LeaveArena(env: Env, w: World, w': World, s: Slot, t: Slot)
    requires ArenaInv(env, w) && !w.closed && s in w.Live() && s.begin in w.owned && w'.bytes.Keys == w.bytes.Keys
    requires w' == w.(bytes := w'.bytes, pools := w'.pools, owned := w.owned - {s.begin}, active := w.active - {s.begin})
    requires (t == Freed(s) || t == s.(processLifetime := true)) && Rewritten(w.pools, w'.pools, s, t)
    ensures ArenaInv(env, w') && SameRanges(w.pools, w'.pools)
    ensures w'.Live() == w.Live() - {s} + if t.active then {t} else {}
  {
    hide ArenaOk, LiveSlots, Rewritten, PoolRangesMapped, MappedRange;
    var _, _ := Locate(w.pools, s);
    RewrittenOk(env.page, w.pools, w'.pools, s, t);
    OwnersAfterDrop(env.page, w.pools, w.owned, w'.Live(), s);
    SameRangesMapped(w.pools, w'.pools, w.bytes, w'.bytes);
    ArenaInvFrom(env, w');
  }

  lemma DropArena(env: Env, w: World, w': World, s: Slot)
    requires ArenaInv(env, w) && DropStep(w, w', s)
    ensures ArenaInv(env, w') && SameRanges(w.pools, w'.pools) && Dropped(w.Live(), w'.Live(), s)
  {
    hide ArenaInv, LiveSlots, Rewritten, SameRanges;
    var t := if Rewritten(w.pools, w'.pools, s, Freed(s)) then Freed(s) else s.(processLifetime := true);
    assert w.active - {s.begin} == w.active;
    LeaveArena(env, w, w', s, t);
    SlotBounds(env, w, s);
  }

  lemma ReleaseArena(env: Env, w: World, w': World, s: Slot)
    requires ArenaInv(env, w) && ReleaseStep(w, w', s)
    ensures ArenaInv(env, w') && SameRanges(w.pools, w'.pools) && w'.Live() == w.Live() - {s} + {s.(processLifetime := true)}
  {
    hide LiveSlots, Rewritten, SameRanges;
    SlotBounds(env, w, s);
    LeaveArena(env, w, w', s, s.(processLifetime := true));
  }

  lemma CloseArena(env: Env, w: World, w': World)
    requires ArenaInv(env, w) && CloseStep(w, w')
    ensures ArenaInv(env, w')
  {
  }

  // ---- what every step keeps ----

  /** Pinned code is still pinned code, with the same extent and the same bytes. */
  ghost predicate CodeKept(w: World, w': World, s: Slot) {
    (w'.PinnedCode(s) || w'.PinnedCode(s.(processLifetime := true))) && SlotBytesKept(w, w', s)
  }

  ghost predicate SlotBytesKept(w: World, w': World, s: Slot) {
    forall a: nat :: s.begin <= a < s.usableEnd ==> a in w.bytes && a in w'.bytes && w'.bytes[a] == w.bytes[a]
  }

  ghost predicate AllCodeKept(w: World, w': World) {
    forall s :: w.PinnedCode(s) ==> CodeKept(w, w', s)
  }

  lemma LandsKept(w: World, w': World, t: nat)
    requires AllCodeKept(w, w') && w.Lands(t)
    ensures w'.Lands(t)
  {
    var s :| w.PinnedCode(s) && s.begin <= t < s.usableEnd;
    assert CodeKept(w, w', s);
  }

  lemma TargetsKept(w: World, w': World, more: set<nat>)
    requires TargetsOk(w) && AllCodeKept(w, w') && w'.targets == w.targets + more && forall t :: t in more ==> w'.Lands(t)
    ensures TargetsOk(w')
  {
    hide AllCodeKept, World.Lands;
    forall t | t in w.targets
      ensures w'.Lands(t)
    {
      LandsKept(w, w', t);
    }
  }

  lemma SlotInPools(env: Env, w: World, s: Slot, a: nat)
    requires ArenaInv(env, w) && s in w.Live() && s.begin <= a < s.extentEnd
    ensures InPools(w.pools, a)
  {
    var p, i := Locate(w.pools, s);
    SlotInPool(env.page, w.pools[p], i);
  }

  lemma SlotBounds(env: Env, w: World, s: Slot)
    requires ArenaInv(env, w) && s in w.Live()
    ensures s.active && s.begin < s.usableEnd < s.extentEnd
  {
    var p, i := Locate(w.pools, s);
    SlotInPool(env.page, w.pools[p], i);
  }

  lemma RedirectKept(env: Env, w: World, w': World, e: nat)
    requires RedirectOk(env, w, e)
    requires e in w'.redirects && w'.redirects[e] == w.redirects[e]
    requires EntriesSpaced(env) ==> SameAt(w.bytes, w'.bytes, e, WINDOW)
    ensures RedirectOk(env, w', e)
  {
    if EntriesSpaced(env) {
      HoldsSame(w.bytes, w'.bytes, Patch(e, Jump(e, w.redirects[e])));
    }
  }

  lemma HoldsSame(m: Bytes, m': Bytes, r: Patch)
    requires Holds(m, r) && SameAt(m, m', r.entry, WINDOW)
    ensures Holds(m', r)
  {
    forall a | Covers(r, a)
      ensures a in m' && m'[a] == r.code[a - r.entry]
    {
      assert r.entry <= a < r.entry + WINDOW;
    }
  }

  lemma PinnedMapped(env: Env, w: World, s: Slot)
    requires ArenaInv(env, w) && w.Pinned(s)
    ensures MappedRange(w.bytes, s.begin, s.extentEnd)
    ensures s.begin < s.usableEnd < s.extentEnd
  {
    SlotBounds(env, w, s);
    assert Mine(w, s);
  }

  /** No entry window changes. */
  ghost predicate EntriesSame(env: Env, w: World, w': World) {
    forall e :: e in env.entries ==> SameAt(w.bytes, w'.bytes, e, WINDOW)
  }

  lemma NothingChanges(env: Env, w: World)
    ensures EntriesSame(env, w, w)
  {
  }

  /** Steps that leave every entry window alone keep the invariant. */
  lemma QuietStepKeepsInv(env: Env, w: World, w': World)
    requires Inv(env, w) && ArenaInv(env, w') && EntriesOk(env, w') && AllCodeKept(w, w')
    requires w'.redirects == w.redirects && w'.targets == w.targets && EntriesSame(env, w, w')
    ensures Inv(env, w')
  {
    hide AllCodeKept, World.Lands;
    TargetsKept(w, w', {});
    forall e | e in w'.redirects
      ensures RedirectOk(env, w', e)
    {
      assert RedirectOk(env, w, e);
      RedirectKept(env, w, w', e);
    }
  }

  lemma ReserveCode(env: Env, w: World, w': World, s: Slot, t: Slot)
    requires ArenaInv(env, w) && w'.Live() == w.Live() + {s} && w'.active == w.active && Extends(w.bytes, w'.bytes) && w.PinnedCode(t)
    ensures CodeKept(w, w', t)
  {
    PinnedMapped(env, w, t);
  }

  lemma ReserveWindows(env: Env, w: World, w': World, s: Slot)
    requires EntriesOk(env, w) && Extends(w.bytes, w'.bytes) && forall a :: a in w.bytes && !InPools(w.pools, a) ==> !InPools(w'.pools, a)
    ensures EntriesOk(env, w') && EntriesSame(env, w, w')
  {
  }

  lemma ReserveKeeps(env: Env, w: World, w': World, s: Slot)
    requires Inv(env, w) && ReserveStep(env, w, w', s)
    ensures Inv(env, w') && AllCodeKept(w, w') && EntriesSame(env, w, w')
  {
    hide Reserved, ArenaInv, RedirectOk, CodeKept, SameAt, Extends, InPools, LiveSlots;
    ReserveArena(env, w, w', s);
    forall t | w.PinnedCode(t)
      ensures CodeKept(w, w', t)
    {
      ReserveCode(env, w, w', s, t);
    }
    ReserveWindows(env, w, w', s);
    QuietStepKeepsInv(env, w, w');
  }

  lemma UnpinnedWindows(env: Env, w: World, w': World, s: Slot)
    requires ArenaInv(env, w) && EntriesOk(env, w) && s in w.Live()
    requires SameRanges(w.pools, w'.pools) && ChangedWithin(w.bytes, w'.bytes, s.begin, s.extentEnd)
    ensures EntriesOk(env, w')
    ensures EntriesSame(env, w, w')
  {
    SameRangesMapped(w.pools, w'.pools, w.bytes, w.bytes);
    forall a: nat | s.begin <= a < s.extentEnd
      ensures InPools(w.pools, a)
    {
      SlotInPools(env, w, s, a);
    }
    hide ArenaInv, SameRanges;
  }

  lemma UnpinnedCode(env: Env, w: World, w': World, s: Slot, t: Slot)
    requires ArenaInv(env, w) && s in w.Live() && s.begin in w.owned - w.active && w.PinnedCode(t)
    requires ChangedWithin(w.bytes, w'.bytes, s.begin, s.extentEnd)
    ensures t != s && SlotBytesKept(w, w', t)
  {
    assert !s.processLifetime && t != s;
    PinnedMapped(env, w, t);
    LiveSlotsDisjoint(env.page, w.pools, s, t);
  }

  /** Changing bytes of one unpinned slot only: pinned code and entry windows stay as they are. */
  lemma UnpinnedChange(env: Env, w: World, w': World, s: Slot)
    requires Inv(env, w) && s in w.Live() && s.begin in w.owned - w.active
    requires SameRanges(w.pools, w'.pools) && ChangedWithin(w.bytes, w'.bytes, s.begin, s.extentEnd)
    ensures EntriesOk(env, w')
    ensures EntriesSame(env, w, w')
    ensures forall t :: w.PinnedCode(t) ==> t != s && SlotBytesKept(w, w', t)
  {
    hide ArenaInv, RedirectOk, SameRanges, ChangedWithin;
    UnpinnedWindows(env, w, w', s);
    forall t | w.PinnedCode(t)
      ensures t != s && SlotBytesKept(w, w', t)
    {
      UnpinnedCode(env, w, w', s, t);
    }
  }

  lemma OthersStay(w: World, w': World, s: Slot)
    requires w'.active == w.active && w.Live() - {s} <= w'.Live()
    requires forall t :: w.PinnedCode(t) ==> t != s && SlotBytesKept(w, w', t)
    ensures AllCodeKept(w, w')
  {
    forall t | w.PinnedCode(t)
      ensures CodeKept(w, w', t)
    {
      assert t in w.Live() - {s};
    }
  }

  lemma FillKeeps(env: Env, w: World, w': World, s: Slot)
    requires Inv(env, w) && FillStep(w, w', s)
    ensures Inv(env, w') && AllCodeKept(w, w') && EntriesSame(env, w, w')
  {
    hide ArenaInv, RedirectOk, CodeKept, SameAt, LiveSlots, Rewritten, SameRanges, SlotBytesKept;
    FillArena(env, w, w', s);
    SlotBounds(env, w, s);
    UnpinnedChange(env, w, w', s);
    OthersStay(w, w', s);
    QuietStepKeepsInv(env, w, w');
  }

  lemma DropKeeps(env: Env, w: World, w': World, s: Slot)
    requires Inv(env, w) && DropStep(w, w', s)
    ensures Inv(env, w') && AllCodeKept(w, w') && EntriesSame(env, w, w')
  {
    hide ArenaInv, RedirectOk, CodeKept, SameAt, LiveSlots, Rewritten, SameRanges, ChangedWithin, SlotBytesKept;
    DropArena(env, w, w', s);
    UnpinnedChange(env, w, w', s);
    OthersStay(w, w', s);
    QuietStepKeepsInv(env, w, w');
  }

  lemma ReleaseKeeps(env: Env, w: World, w': World, s: Slot)
    requires Inv(env, w) && ReleaseStep(w, w', s)
    ensures Inv(env, w') && AllCodeKept(w, w') && EntriesSame(env, w, w')
  {
    hide ArenaInv, RedirectOk, CodeKept, LiveSlots, Rewritten, SameRanges, InPools;
    ReleaseArena(env, w, w', s);
    SameRangesMapped(w.pools, w'.pools, w.bytes, w.bytes);
    forall t | w.PinnedCode(t)
      ensures CodeKept(w, w', t)
    {
      ReleaseCode(env, w, w', s, t);
    }
    QuietStepKeepsInv(env, w, w');
  }

  lemma ReleaseCode(env: Env, w: World, w': World, s: Slot, t: Slot)
    requires ArenaInv(env, w) && s in w.Live() && w.PinnedCode(t)
    requires w'.bytes == w.bytes && w'.active == w.active - {s.begin} && w'.Live() == w.Live() - {s} + {s.(processLifetime := true)}
    ensures CodeKept(w, w', t)
  {
    PinnedMapped(env, w, t);
    if t != s {
      LiveSlotsDisjoint(env.page, w.pools, s, t);
    }
  }

  lemma CloseCode(env: Env, w: World, w': World, t: Slot)
    requires ArenaInv(env, w) && CloseStep(w, w') && w.PinnedCode(t)
    ensures CodeKept(w, w', t)
  {
    PinnedMapped(env, w, t);
    assert t.processLifetime && w'.PinnedCode(t);
  }

  lemma CloseWindow(env: Env, w: World, w': World, e: nat)
    requires EntriesOk(env, w) && CloseStep(w, w') && e in env.entries
    ensures SameAt(w.bytes, w'.bytes, e, WINDOW)
  {
  }

  lemma CloseEntries(env: Env, w: World, w': World)
    requires EntriesOk(env, w) && CloseStep(w, w')
    ensures EntriesOk(env, w') && w'.redirects == w.redirects && w'.targets == w.targets
  {
  }

  lemma CloseKeeps(env: Env, w: World, w': World)
    requires Inv(env, w) && CloseStep(w, w')
    ensures Inv(env, w') && AllCodeKept(w, w') && EntriesSame(env, w, w')
  {
    hide ArenaInv, RedirectOk, SameAt, CodeKept, World.PinnedCode, EntriesOk, CloseStep;
    CloseArena(env, w, w');
    CloseEntries(env, w, w');
    forall t | w.PinnedCode(t)
      ensures CodeKept(w, w', t)
    {
      CloseCode(env, w, w', t);
    }
    forall e | e in env.entries
      ensures SameAt(w.bytes, w'.bytes, e, WINDOW)
    {
      CloseWindow(env, w, w', e);
    }
    QuietStepKeepsInv(env, w, w');
  }

  lemma BatchSpaced(env: Env, w: World, moved: set<nat>, batch: seq<(nat, nat)>)
    requires EnvOk(env) && EntriesSpaced(env) && BatchOk(env, w, moved, batch)
    ensures Spaced(Patches(batch))
  {
    var patches := Patches(batch);
    forall i, j | 0 <= i < j < |patches|
      ensures patches[i].entry + WINDOW <= patches[j].entry || patches[j].entry + WINDOW <= patches[i].entry
    {
      var e, f := batch[i].0, batch[j].0;
      assert e != f && e in env.entries && f in env.entries;
    }
  }

  lemma BatchMapped(env: Env, w: World, moved: set<nat>, batch: seq<(nat, nat)>)
    requires EntriesOk(env, w) && BatchOk(env, w, moved, batch)
    ensures AllMapped(w.bytes, Patches(batch))
  {
    hide InPools, Mapped, EntriesOk;
    var patches := Patches(batch);
    forall j | 0 <= j < |patches|
      ensures Mapped(w.bytes, patches[j].entry, WINDOW)
    {
      assert batch[j].0 in env.entries;
      EntryMapped(env, w, batch[j].0);
    }
  }

  lemma EntryMapped(env: Env, w: World, e: nat)
    requires EntriesOk(env, w) && e in env.entries
    ensures Mapped(w.bytes, e, WINDOW)
  {
    hide InPools;
  }

  /** The patches of a batch touch neither pool memory nor the window of any other entry. */
  lemma BatchMisses(env: Env, w: World, moved: set<nat>, batch: seq<(nat, nat)>, n: nat, a: nat)
    requires EnvOk(env) && EntriesOk(env, w) && BatchOk(env, w, moved, batch) && n <= |batch|
    requires InPools(w.pools, a) || exists e :: EntriesSpaced(env) && e in env.entries && e <= a < e + WINDOW && forall j :: 0 <= j < n ==> batch[j].0 != e
    ensures !Touched(Patches(batch), n, a)
  {
    forall j | 0 <= j < n
      ensures !Covers(Patches(batch)[j], a)
    {
      assert batch[j].0 in env.entries;
    }
  }

  lemma AimedLand(w: World, w': World, moved: set<nat>, batch: seq<(nat, nat)>)
    requires w'.pools == w.pools && moved <= w'.active
    ensures forall t :: t in Aimed(w, moved, batch) ==> w'.Lands(t)
  {
    forall t | t in Aimed(w, moved, batch)
      ensures w'.Lands(t)
    {
      var s :| s in w.Live() && s.executable && s.begin in moved && s.begin <= t < s.usableEnd;
      assert w'.PinnedCode(s);
    }
  }

  /** Memory that differs from before in the first `n` windows of a batch only keeps all pinned code. */
  lemma BatchKeepsCode(env: Env, w: World, w': World, moved: set<nat>, batch: seq<(nat, nat)>, n: nat)
    requires EnvOk(env) && Inv(env, w) && BatchOk(env, w, moved, batch) && n <= |batch|
    requires w'.pools == w.pools && w.active <= w'.active && Framed(w.bytes, w'.bytes, Patches(batch), n)
    ensures AllCodeKept(w, w') && EntriesOk(env, w')
  {
    hide Inv, BatchOk, Framed, SlotBytesKept, EntriesOk;
    InvAllocates(env, w);
    FramedEntries(env, w, w', Patches(batch), n);
    forall s | w.PinnedCode(s)
      ensures CodeKept(w, w', s)
    {
      FramedSlot(env, w, w', moved, batch, n, s);
    }
  }

  lemma InvAllocates(env: Env, w: World)
    requires Inv(env, w)
    ensures ArenaInv(env, w) && EntriesOk(env, w)
  {
    hide ArenaInv, EntriesOk, RedirectOk, SameAt;
  }

  lemma FramedEntries(env: Env, w: World, w': World, patches: seq<Patch>, n: nat)
    requires EntriesOk(env, w) && w'.pools == w.pools && Framed(w.bytes, w'.bytes, patches, n)
    ensures EntriesOk(env, w')
  {
    hide InPools, Touched;
  }

  lemma FramedSlot(env: Env, w: World, w': World, moved: set<nat>, batch: seq<(nat, nat)>, n: nat, s: Slot)
    requires EnvOk(env) && ArenaInv(env, w) && EntriesOk(env, w) && BatchOk(env, w, moved, batch) && n <= |batch|
    requires Framed(w.bytes, w'.bytes, Patches(batch), n) && w.PinnedCode(s)
    ensures SlotBytesKept(w, w', s)
  {
    hide ArenaInv, EntriesOk, BatchOk, InPools, Touched;
    PinnedMapped(env, w, s);
    forall a: nat | s.begin <= a < s.usableEnd
      ensures a in w.bytes && a in w'.bytes && w'.bytes[a] == w.bytes[a]
    {
      SlotInPools(env, w, s, a);
      BatchMisses(env, w, moved, batch, n, a);
    }
  }

  lemma UntouchedWindow(env: Env, w: World, m: Bytes, moved: set<nat>, batch: seq<(nat, nat)>, n: nat, e: nat)
    requires EnvOk(env) && EntriesSpaced(env) && EntriesOk(env, w) && BatchOk(env, w, moved, batch) && n <= |batch|
    requires e in env.entries && (forall j :: 0 <= j < n ==> batch[j].0 != e)
    requires Framed(w.bytes, m, Patches(batch), n)
    ensures SameAt(w.bytes, m, e, WINDOW)
  {
    forall a | e <= a < e + WINDOW
      ensures a in w.bytes && m[a] == w.bytes[a]
    {
      BatchMisses(env, w, moved, batch, n, a);
    }
  }

  lemma BatchRedirects(env: Env, w: World, w': World, moved: set<nat>, batch: seq<(nat, nat)>, j: nat)
    requires EnvOk(env) && Inv(env, w) && BatchOk(env, w, moved, batch) && j < |batch|
    requires w'.pools == w.pools && moved <= w'.active
    requires InReach(batch[j].0, batch[j].1) && (EntriesSpaced(env) ==> Holds(w'.bytes, Patches(batch)[j]))
    requires batch[j].0 in w'.redirects && w'.redirects[batch[j].0] == batch[j].1
    ensures RedirectOk(env, w', batch[j].0)
  {
  }

  lemma CommitEntry(env: Env, w: World, w': World, moved: set<nat>, batch: seq<(nat, nat)>, e: nat)
    requires EnvOk(env) && Inv(env, w) && BatchOk(env, w, moved, batch)
    requires AllInReach(batch, |batch|)
    requires w'.bytes == PatchFirst(w.bytes, Patches(batch), |batch|)
    requires w'.pools == w.pools && w'.active == w.active + moved && Merged(w.redirects, w'.redirects, batch)
    requires Framed(w.bytes, w'.bytes, Patches(batch), |batch|) && AllCodeKept(w, w')
    ensures e in w'.redirects ==> RedirectOk(env, w', e)
    ensures EntriesSpaced(env) && e in env.entries && e !in w'.redirects ==> SameAt(env.original, w'.bytes, e, WINDOW)
  {
    hide Inv, Holds, RollingBack, Framed, SameAt, EntriesSpaced;
    InvAt(env, w, e);
    if Names(batch, e) {
      if e in w'.redirects {
        var j :| 0 <= j < |batch| && batch[j] == (e, w'.redirects[e]);
        if EntriesSpaced(env) {
          BatchMapped(env, w, moved, batch);
          BatchSpaced(env, w, moved, batch);
          PatchFirstHolds(w.bytes, Patches(batch), |batch|, j);
        }
        BatchRedirects(env, w, w', moved, batch, j);
      }
    } else {
      if EntriesSpaced(env) && e in env.entries {
        UntouchedWindow(env, w, w'.bytes, moved, batch, |batch|, e);
        OriginalStays(env, w, w', e);
      }
      if e in w'.redirects {
        RedirectKept(env, w, w', e);
      }
    }
  }

  lemma InvAt(env: Env, w: World, e: nat)
    requires Inv(env, w)
    ensures EntriesOk(env, w) && (e in w.redirects ==> RedirectOk(env, w, e))
  {
  }

  lemma OriginalStays(env: Env, w: World, w': World, e: nat)
    requires Inv(env, w) && EntriesSpaced(env) && e in env.entries && SameAt(w.bytes, w'.bytes, e, WINDOW)
    ensures e !in w.redirects ==> SameAt(env.original, w'.bytes, e, WINDOW)
  {
  }

  /** After an incomplete rollback a window holds its patch or its snapshot; every other one is untouched. */
  lemma UnheldWindow(env: Env, w: World, m: Bytes, moved: set<nat>, batch: seq<(nat, nat)>, written: nat, failures: nat, e: nat)
    requires EnvOk(env) && EntriesSpaced(env) && EntriesOk(env, w) && BatchOk(env, w, moved, batch) && e in env.entries
    requires written <= |batch| && RollingBack(w.bytes, m, Patches(batch), written, 0, failures)
    requires !HeldAt(m, batch, written, e)
    ensures SameAt(w.bytes, m, e, WINDOW)
  {
    BatchSpaced(env, w, moved, batch);
    if j: nat :| j < written && batch[j].0 == e {
      assert HalfAt(w.bytes, m, Patches(batch)[j], 0 <= j);
    } else {
      UntouchedWindow(env, w, m, moved, batch, written, e);
    }
  }

  lemma ExposedFrom(env: Env, w: World, w': World, moved: set<nat>, batch: seq<(nat, nat)>, written: nat, failures: nat)
    requires EnvOk(env) && EntriesOk(env, w) && BatchOk(env, w, moved, batch)
    requires forall e :: e in w.redirects ==> e in env.entries
    requires written <= |batch| && RollingBack(w.bytes, w'.bytes, Patches(batch), written, 0, failures)
    requires w'.redirects == Exposed(w.redirects, w'.bytes, batch, written)
    ensures ExposedOk(env, w, w', batch, written)
  {
    hide EnvOk, EntriesSpaced, EntriesOk, BatchOk, RollingBack, SameAt, Holds, HeldAt, ExposedAt, Exposed;
    ExposedKeys(w, w', batch, written);
    forall e: nat
      ensures e in w'.redirects ==> ExposedAt(env, w, w', batch, written, e)
      ensures EntriesSpaced(env) && e in env.entries && e !in w'.redirects ==> SameAt(w.bytes, w'.bytes, e, WINDOW)
    {
      if HeldAt(w'.bytes, batch, written, e) {
        HeldExposed(env, w, w', batch, written, e);
      } else if e in env.entries {
        if EntriesSpaced(env) {
          UnheldWindow(env, w, w'.bytes, moved, batch, written, failures, e);
        }
        UnheldExposed(env, w, w', batch, written, e);
      }
    }
  }

  lemma ExposedKeys(w: World, w': World, batch: seq<(nat, nat)>, written: nat)
    requires w'.redirects == Exposed(w.redirects, w'.bytes, batch, written)
    ensures w.redirects.Keys <= w'.redirects.Keys
    ensures forall e :: e in w'.redirects ==> e in w.redirects || HeldAt(w'.bytes, batch, written, e)
  {
    hide HeldAt;
  }

  lemma HeldExposed(env: Env, w: World, w': World, batch: seq<(nat, nat)>, written: nat, e: nat)
    requires w'.redirects == Exposed(w.redirects, w'.bytes, batch, written) && HeldAt(w'.bytes, batch, written, e)
    ensures e in w'.redirects && ExposedAt(env, w, w', batch, written, e)
  {
    hide Holds, SameAt;
    var j: nat :| j < written <= |batch| && batch[j].0 == e && Holds(w'.bytes, Patches(batch)[j]);
    assert batch[j] in batch;
  }

  lemma UnheldExposed(env: Env, w: World, w': World, batch: seq<(nat, nat)>, written: nat, e: nat)
    requires w'.redirects == Exposed(w.redirects, w'.bytes, batch, written) && !HeldAt(w'.bytes, batch, written, e)
    requires EntriesSpaced(env) ==> SameAt(w.bytes, w'.bytes, e, WINDOW)
    ensures e in w'.redirects ==> ExposedAt(env, w, w', batch, written, e)
  {
    hide HeldAt, Holds, SameAt;
  }

  lemma CommitArena(env: Env, w: World, w': World, moved: set<nat>)
    requires ArenaInv(env, w) && moved <= w.owned && w'.bytes.Keys == w.bytes.Keys
    requires w' == w.(bytes := w'.bytes, active := w.active + moved, redirects := w'.redirects, poisoned := w'.poisoned, targets := w'.targets)
    ensures ArenaInv(env, w')
  {
    forall s, a: nat | Mine(w', s) && s.begin <= a < s.extentEnd
      ensures a in w'.bytes
    {
      assert Mine(w, s);
    }
  }

  ghost function CommitResult(w: World, moved: set<nat>, batch: seq<(nat, nat)>): World {
    w.(bytes := PatchFirst(w.bytes, Patches(batch), |batch|), active := w.active + moved, redirects := Override(w.redirects, batch),
       targets := w.targets + Aimed(w, moved, batch))
  }

  lemma CommitNext(env: Env, w: World, moved: set<nat>, batch: seq<(nat, nat)>)
    requires Inv(env, w) && !w.closed && !w.poisoned && BatchOk(env, w, moved, batch)
    requires AllInReach(batch, |batch|)
    ensures CommitStep(env, w, CommitResult(w, moved, batch), moved, batch)
    ensures Next(env, w, CommitResult(w, moved, batch))
  {
    var w' := CommitResult(w, moved, batch);
    assert CommitStep(env, w, w', moved, batch);
  }

  ghost function PoisonResult(w: World, m: Bytes, moved: set<nat>, batch: seq<(nat, nat)>, written: nat): World {
    w.(bytes := m, active := w.active + moved, poisoned := true, redirects := Exposed(w.redirects, m, batch, written),
       targets := w.targets + Aimed(w, moved, batch))
  }

  lemma PoisonNext(env: Env, w: World, m: Bytes, moved: set<nat>, batch: seq<(nat, nat)>, written: nat, failures: nat)
    requires EnvOk(env) && Inv(env, w) && !w.closed && !w.poisoned && BatchOk(env, w, moved, batch)
    requires failures > 0 && written <= |batch| && AllInReach(batch, written)
    requires RollingBack(w.bytes, m, Patches(batch), written, 0, failures)
    ensures PoisonStep(env, w, PoisonResult(w, m, moved, batch, written), moved, batch, written, failures)
    ensures Next(env, w, PoisonResult(w, m, moved, batch, written))
  {
    var w' := PoisonResult(w, m, moved, batch, written);
    forall e | e in w.redirects
      ensures e in env.entries
    {
      assert RedirectOk(env, w, e);
    }
    ExposedFrom(env, w, w', moved, batch, written, failures);
    assert PoisonStep(env, w, w', moved, batch, written, failures);
  }

  lemma CommitKeeps(env: Env, w: World, w': World, moved: set<nat>, batch: seq<(nat, nat)>)
    requires EnvOk(env) && Inv(env, w) && CommitStep(env, w, w', moved, batch)
    ensures Inv(env, w') && AllCodeKept(w, w')
  {
    hide BatchOk, RedirectOk, SameAt, AllMapped, EntriesOk, ArenaInv, Framed, RollingBack, CodeKept, EntriesSpaced;
    BatchMapped(env, w, moved, batch);
    MovedOwned(env, w, moved, batch);
    CommitArena(env, w, w', moved);
    RollbackStarts(w.bytes, Patches(batch), |batch|);
    BatchKeepsCode(env, w, w', moved, batch, |batch|);
    AimedLand(w, w', moved, batch);
    TargetsKept(w, w', Aimed(w, moved, batch));
    forall e: nat
      ensures e in w'.redirects ==> RedirectOk(env, w', e)
      ensures EntriesSpaced(env) && e in env.entries && e !in w'.redirects ==> SameAt(env.original, w'.bytes, e, WINDOW)
    {
      CommitEntry(env, w, w', moved, batch, e);
    }
  }

  lemma MovedOwned(env: Env, w: World, moved: set<nat>, batch: seq<(nat, nat)>)
    requires BatchOk(env, w, moved, batch)
    ensures moved <= w.owned
  {
  }

  lemma CommitDecodes(env: Env, w: World, w': World, moved: set<nat>, batch: seq<(nat, nat)>, j: nat)
    requires EnvOk(env) && EntriesSpaced(env) && Inv(env, w) && CommitStep(env, w, w', moved, batch) && j < |batch|
    ensures Mapped(w'.bytes, batch[j].0, WINDOW)
    ensures JumpTarget(batch[j].0, Read(w'.bytes, batch[j].0, WINDOW)) == batch[j].1
  {
    hide InReach, JumpTarget, RedirectOk, Touched, Merged;
    BatchMapped(env, w, moved, batch);
    BatchSpaced(env, w, moved, batch);
    PatchFirstHolds(w.bytes, Patches(batch), |batch|, j);
    HoldsRead(w'.bytes, Patches(batch)[j]);
    JumpDecodes(batch[j].0, batch[j].1);
  }

  /** A successful commit changes exactly the entry windows, and each of them decodes to its target when entries are spaced. */
  lemma CommitExact(env: Env, w: World, w': World, moved: set<nat>, batch: seq<(nat, nat)>)
    requires EnvOk(env) && Inv(env, w) && CommitStep(env, w, w', moved, batch)
    ensures EntriesSpaced(env) ==> forall j :: 0 <= j < |batch| ==>
              Mapped(w'.bytes, batch[j].0, WINDOW) && JumpTarget(batch[j].0, Read(w'.bytes, batch[j].0, WINDOW)) == batch[j].1
    ensures w'.bytes.Keys == w.bytes.Keys
    ensures forall a :: a in w.bytes && w'.bytes[a] != w.bytes[a] ==> exists j :: 0 <= j < |batch| && Covers(Patches(batch)[j], a)
  {
    hide InReach, JumpTarget, Inv, BatchOk, EnvOk, EntriesSpaced, Merged;
    forall j | EntriesSpaced(env) && 0 <= j < |batch|
      ensures Mapped(w'.bytes, batch[j].0, WINDOW) && JumpTarget(batch[j].0, Read(w'.bytes, batch[j].0, WINDOW)) == batch[j].1
    {
      CommitDecodes(env, w, w', moved, batch, j);
    }
    forall a | a in w.bytes && !Touched(Patches(batch), |batch|, a)
      ensures w'.bytes[a] == w.bytes[a]
    {
      PatchFirstFrame(w.bytes, Patches(batch), |batch|, a);
    }
  }

  lemma PoisonEntry(env: Env, w: World, w': World, moved: set<nat>, batch: seq<(nat, nat)>, written: nat, failures: nat, e: nat)
    requires EnvOk(env) && Inv(env, w) && e in w'.redirects && AllCodeKept(w, w')
    requires PoisonStep(env, w, w', moved, batch, written, failures)
    ensures RedirectOk(env, w', e)
  {
    assert ExposedAt(env, w, w', batch, written, e);
    if j: nat :| j < written && batch[j] == (e, w'.redirects[e]) && Holds(w'.bytes, Patches(batch)[j]) {
      BatchRedirects(env, w, w', moved, batch, j);
    } else {
      assert RedirectOk(env, w, e);
      RedirectKept(env, w, w', e);
    }
  }

  lemma PoisonKeeps(env: Env, w: World, w': World, moved: set<nat>, batch: seq<(nat, nat)>, written: nat, failures: nat)
    requires EnvOk(env) && Inv(env, w)
    requires PoisonStep(env, w, w', moved, batch, written, failures)
    ensures Inv(env, w') && AllCodeKept(w, w')
  {
    hide BatchOk, RedirectOk, SameAt, AllMapped, EntriesOk, ArenaInv, CodeKept, EntriesSpaced, ExposedAt;
    BatchMapped(env, w, moved, batch);
    RollingBackKeys(w.bytes, w'.bytes, Patches(batch), written, 0, failures);
    MovedOwned(env, w, moved, batch);
    CommitArena(env, w, w', moved);
    BatchKeepsCode(env, w, w', moved, batch, written);
    AimedLand(w, w', moved, batch);
    TargetsKept(w, w', Aimed(w, moved, batch));
    forall e | e in w'.redirects
      ensures RedirectOk(env, w', e)
    {
      PoisonEntry(env, w, w', moved, batch, written, failures, e);
    }
    forall e | EntriesSpaced(env) && e in env.entries && e !in w'.redirects
      ensures SameAt(env.original, w'.bytes, e, WINDOW)
    {
      OriginalStays(env, w, w', e);
    }
  }

  /** Every step keeps the invariant and all pinned code. */
  lemma NextKeeps(env: Env, w: World, w': World)
    requires EnvOk(env) && Inv(env, w) && Next(env, w, w')
    ensures Inv(env, w') && AllCodeKept(w, w')
  {
    if s :| ReserveStep(env, w, w', s) {
      ReserveKeeps(env, w, w', s);
    } else if s :| FillStep(w, w', s) {
      FillKeeps(env, w, w', s);
    } else if s :| DropStep(w, w', s) {
      DropKeeps(env, w, w', s);
    } else if moved, batch :| CommitStep(env, w, w', moved, batch) {
      CommitKeeps(env, w, w', moved, batch);
    } else if moved, batch, written, failures :| PoisonStep(env, w, w', moved, batch, written, failures) {
      PoisonKeeps(env, w, w', moved, batch, written, failures);
    } else if s :| ReleaseStep(w, w', s) {
      ReleaseKeeps(env, w, w', s);
    } else if CloseStep(w, w') {
      CloseKeeps(env, w, w');
    } else {
      forall s | w.PinnedCode(s)
        ensures CodeKept(w, w', s)
      {
        PinnedMapped(env, w, s);
      }
    }
  }

  lemma CodeKeptTransitive(w: World, w': World, w'': World, s: Slot)
    requires w.PinnedCode(s) && CodeKept(w, w', s) && AllCodeKept(w', w'')
    ensures CodeKept(w, w'', s)
  {
    var s' := if w'.PinnedCode(s) then s else s.(processLifetime := true);
    assert CodeKept(w', w'', s');
  }

  // ---- whole runs ----

  ghost predicate Run(env: Env, run: seq<World>) {
    && EnvOk(env) && run != [] && Initial(env, run[0])
    && (forall i :: 0 < i < |run| ==> StepAt(env, run, i))
  }

  ghost predicate StepAt(env: Env, run: seq<World>, i: int) {
    0 < i < |run| && Next(env, run[i - 1], run[i])
  }

  /** The session before its first step. */
  ghost predicate Initial(env: Env, w: World) {
    w == World(env.original, [], {}, {}, map[], {}, false, false) && env.page > 0
  }

  lemma InitialInv(env: Env, w: World)
    requires EnvOk(env) && Initial(env, w)
    ensures Inv(env, w)
  {
    assert w.Live() == {};
    assert EntriesOk(env, w);
  }

  lemma {:induction false} RunKeepsInv(env: Env, run: seq<World>, i: nat)
    requires Run(env, run) && i < |run|
    ensures Inv(env, run[i])
  {
    if i == 0 {
      InitialInv(env, run[0]);
    } else {
      RunKeepsInv(env, run, i - 1);
      assert StepAt(env, run, i);
      NextKeeps(env, run[i - 1], run[i]);
    }
  }

  lemma RunStep(env: Env, run: seq<World>, i: nat)
    requires Run(env, run) && 0 < i < |run|
    ensures Inv(env, run[i - 1]) && Inv(env, run[i]) && AllCodeKept(run[i - 1], run[i])
    ensures run[i - 1].poisoned ==> run[i].poisoned && run[i].redirects == run[i - 1].redirects && EntriesSame(env, run[i - 1], run[i])
  {
    RunKeepsInv(env, run, i - 1);
    assert StepAt(env, run, i);
    NextKeeps(env, run[i - 1], run[i]);
    if run[i - 1].poisoned {
      PoisonedStep(env, run[i - 1], run[i]);
    }
  }

  /** In every state of every run, whatever byte of a function entry differs from the original program
      belongs to a redirect, and that redirect jumps to pinned code: candidates may come and go, commits
      succeed, roll back or be left half undone, and the session may end. */
  lemma NoDanglingInAnyRun(env: Env, run: seq<World>, i: nat, e: nat)
    requires Run(env, run) && EntriesSpaced(env) && i < |run| && e in env.entries
    ensures Mapped(run[i].bytes, e, WINDOW)
    ensures Read(run[i].bytes, e, WINDOW) != Read(env.original, e, WINDOW) ==> e in run[i].redirects
    ensures e in run[i].redirects ==> JumpTarget(e, Read(run[i].bytes, e, WINDOW)) == run[i].redirects[e]
    ensures e in run[i].redirects && run[i].redirects[e] in run[i].targets ==>
              run[i].Lands(JumpTarget(e, Read(run[i].bytes, e, WINDOW)))
              && forall t :: InReach(e, t) ==> Patchable(run[i].bytes, run[i].Live(), e, t)
  {
    hide Inv, EntriesSpaced, Patchable, InReach, JumpTarget, StepAt, Initial;
    RunKeepsInv(env, run, i);
    if e in run[i].redirects {
      NoDanglingRedirect(env, run[i], e);
    } else {
      OriginalHere(env, run[i], e);
    }
  }

  lemma OriginalHere(env: Env, w: World, e: nat)
    requires EnvOk(env) && EntriesSpaced(env) && Inv(env, w) && e in env.entries && e !in w.redirects
    ensures Mapped(env.original, e, WINDOW) && Mapped(w.bytes, e, WINDOW)
    ensures Read(w.bytes, e, WINDOW) == Read(env.original, e, WINDOW)
  {
    ReadSame(env.original, w.bytes, e, WINDOW);
  }

  /** Code that a redirect can reach is never reclaimed, reused or overwritten by a later step. */
  lemma {:induction false} PinnedForever(env: Env, run: seq<World>, i: nat, j: nat, s: Slot)
    requires Run(env, run) && i <= j < |run| && run[i].PinnedCode(s)
    ensures CodeKept(run[i], run[j], s)
  {
    if i == j {
      RunKeepsInv(env, run, i);
      PinnedMapped(env, run[i], s);
    } else {
      PinnedForever(env, run, i, j - 1, s);
      RunStep(env, run, j);
      CodeKeptTransitive(run[i], run[j - 1], run[j], s);
    }
  }

  lemma PoisonedStep(env: Env, w: World, w': World)
    requires EnvOk(env) && Inv(env, w) && Next(env, w, w') && w.poisoned
    ensures w'.poisoned && w'.redirects == w.redirects && EntriesSame(env, w, w')
  {
    hide Reserved, Rewritten, ChangedWithin, Inv, EnvOk, BatchOk, LiveSlots, AllInReach, RollingBack;
    if s :| ReserveStep(env, w, w', s) {
      ReserveKeeps(env, w, w', s);
    } else if s :| FillStep(w, w', s) {
      FillKeeps(env, w, w', s);
    } else if s :| DropStep(w, w', s) {
      DropKeeps(env, w, w', s);
    } else if s :| ReleaseStep(w, w', s) {
      ReleaseKeeps(env, w, w', s);
    } else if CloseStep(w, w') {
      CloseKeeps(env, w, w');
    }
  }

  /** A poisoned session stays poisoned and changes no entry any more. */
  lemma {:induction false} PoisonedForever(env: Env, run: seq<World>, i: nat, j: nat, e: nat)
    requires Run(env, run) && i <= j < |run| && run[i].poisoned && e in env.entries
    ensures run[j].poisoned && run[j].redirects == run[i].redirects
    ensures Mapped(run[i].bytes, e, WINDOW) && Mapped(run[j].bytes, e, WINDOW)
    ensures Read(run[j].bytes, e, WINDOW) == Read(run[i].bytes, e, WINDOW)
  {
    RunKeepsInv(env, run, i);
    if i < j {
      PoisonedForever(env, run, i, j - 1, e);
      RunStep(env, run, j);
      ReadSame(run[j - 1].bytes, run[j].bytes, e, WINDOW);
    }
  }
}
