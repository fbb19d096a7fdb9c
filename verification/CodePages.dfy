/** Executable memory and entry redirection: the mutable allocator and the entry writer. */
module CodePages {
  import opened Wrappers
  import opened Words
  import opened LiveMemory
  import opened Arena
  import opened Patching
  import opened Redirect
  import PoolSearch

  /** A reservation handle: where it begins and how many bytes were asked for. */
  datatype Handle = Handle(begin: nat, size: nat)

  datatype CodeCommit = Committed | Refused | Failed

  /** Any two pages from where an entry begins hold its window. */
  type PageSize = p: nat | WINDOW <= p witness 4096

  const LIMIT: nat := PoolSearch.REL32_LIMIT

  predicate WithinRel32(a: nat, b: nat) {
    (if a > b then a - b else b - a) < LIMIT
  }

  predicate RangeWithinRel32(begin: nat, end: nat, hint: nat) {
    begin < end && WithinRel32(begin, hint) && WithinRel32(end - 1, hint)
  }

  /** Every byte of a block granted for a hint in user space is reached from it by `jmp rel32`. */
  lemma BlockReached(begin: nat, end: nat, hint: nat, a: nat)
    requires RangeWithinRel32(begin, end, hint) && begin <= a < end <= 0x8000_0000_0000_0000
    requires hint + WINDOW < 0x8000_0000_0000_0000
    ensures InReach(hint, a)
  {
    NearIsInReach(hint, a);
  }

  ghost predicate PoolRangesMapped(bytes: Bytes, pools: seq<Pool>) {
    forall p :: 0 <= p < |pools| ==> pools[p].end <= MAX_64 && MappedRange(bytes, pools[p].begin, pools[p].end)
  }

  /** Every active slot is owned by exactly one of a live handle and the process, and every
      live handle owns an active slot. */
  ghost predicate OwnersOk(live: set<Slot>, owned: set<nat>) {
    && (forall s :: s in live ==> (s.begin in owned <==> !s.processLifetime))
    && (forall b :: b in owned ==> exists s :: s in live && s.begin == b)
  }

  predicate SlotFor(live: set<Slot>, b: nat, s: Slot) {
    s in live && s.begin == b
  }

  /** The first five bytes the entry check accepts besides an earlier redirect. */
  predicate KnownPrologue(code: Window) {
    code[..4] == [0x55, 0x48, 0x89, 0xE5] || code == [0xF3, 0x0F, 0x1E, 0xFA, 0x55]
  }

  /** In the encoding of the Intel 64 manual: `push` of a register, and `mov` from one 64-bit register to another. */
  function Push(register: nat): seq<byte>
    requires register < 8
  {
    [0x50 + register]
  }

  function Move(to: nat, from: nat): seq<byte>
    requires to < 8 && from < 8
  {
    [0x48, 0x89, 0xC0 + 8 * from + to]
  }

  const RSP: nat := 4
  const RBP: nat := 5
  const ENDBR64: seq<byte> := [0xF3, 0x0F, 0x1E, 0xFA]

  /** The known prologues set up a frame, `push rbp` and `mov rbp, rsp`, or push `rbp` behind `endbr64`. */
  lemma PrologueMeans(code: Window)
    ensures KnownPrologue(code) <==> Push(RBP) + Move(RBP, RSP) <= code || code == ENDBR64 + Push(RBP)
  {
    assert Push(RBP) + Move(RBP, RSP) <= code <==> code[..4] == Push(RBP) + Move(RBP, RSP);
  }

  /** An address inside the usable part of an active executable slot. */
  ghost predicate InCode(live: set<Slot>, a: nat) {
    exists s :: s in live && s.executable && s.begin <= a < s.usableEnd
  }

  ghost predicate Patchable(bytes: Bytes, live: set<Slot>, entry: nat, target: nat)
    requires Mapped(bytes, entry, WINDOW)
  {
    var code := Read(bytes, entry, WINDOW);
    (KnownPrologue(code) || (code[0] == JMP && InCode(live, JumpTarget(entry, code)))) && InReach(entry, target)
  }

  ghost predicate SameRanges(was: seq<Pool>, now: seq<Pool>) {
    |was| == |now| && forall p :: 0 <= p < |was| ==> now[p].begin == was[p].begin && now[p].end == was[p].end
  }

  ghost predicate InPools(pools: seq<Pool>, a: nat) {
    exists p :: 0 <= p < |pools| && pools[p].begin <= a < pools[p].end
  }

  ghost predicate InsidePool(pools: seq<Pool>, s: Slot) {
    exists p :: 0 <= p < |pools| && pools[p].begin <= s.begin && s.extentEnd <= pools[p].end
  }

  /** The arena has, besides the active slots `was`, the new slot `s` of `span` usable bytes: clear of
      every other one, followed by at least one page, and within the jump limit of the hint. */
  ghost predicate Granted(page: nat, was: set<Slot>, now: seq<Pool>, s: Slot, hint: nat, span: nat) {
    && ArenaOk(page, now) && InsidePool(now, s)
    && LiveSlots(now) == was + {s}
    && (forall t :: t in was ==> SlotsApart(s, t))
    && s.active && !s.processLifetime && !s.executable
    && s.usableEnd == s.begin + span && s.usableEnd + page <= s.extentEnd
    && RangeWithinRel32(s.begin, s.usableEnd, hint)
  }

  /** `now` keeps every byte of `was`. */
  ghost predicate Extends(was: Bytes, now: Bytes) {
    forall a :: a in was ==> a in now && now[a] == was[a]
  }

  /** `now` differs from `was` inside `[begin, end)` only. */
  ghost predicate ChangedWithin(was: Bytes, now: Bytes, begin: nat, end: nat) {
    now.Keys == was.Keys && forall a :: a in was && !(begin <= a < end) ==> now[a] == was[a]
  }

  /** The active slots after the handle of `s` is destroyed: the slot is free again, or, when it
      could not be protected, it stays mapped and belongs to the process. */
  ghost predicate Dropped(was: set<Slot>, now: set<Slot>, s: Slot) {
    now == was - {s} || now == was - {s} + {s.(processLifetime := true)}
  }

  /** One slot becomes another of the same extent. */
  ghost predicate Rewritten(was: seq<Pool>, now: seq<Pool>, s: Slot, t: Slot) {
    exists p: nat, i: nat :: IsSlot(was, p, i) && was[p].slots[i] == s && now == WithSlot(was, p, i, t)
  }

  /** An inactive slot with room for its guard page is taken. */
  ghost predicate Reused(page: nat, was: seq<Pool>, now: seq<Pool>, s: Slot) {
    s.begin < s.usableEnd && s.usableEnd + page <= s.extentEnd
    && exists t: Slot :: !t.active && t.begin == s.begin && t.extentEnd == s.extentEnd && Rewritten(was, now, t, s)
  }

  /** A slot is cut at the cursor of a pool with room for it. */
  ghost predicate Cut(page: nat, was: seq<Pool>, now: seq<Pool>, s: Slot) {
    exists p: nat, span: nat :: p < |was| && 0 < span && span + page <= was[p].end - was[p].cursor
                                && s == FreshSlot(page, was[p].cursor, span) && now == was[p := Carved(page, was[p], span)]
  }

  ghost predicate Placed(page: nat, was: seq<Pool>, now: seq<Pool>, s: Slot) {
    s == Slot(s.begin, s.usableEnd, s.extentEnd, true, false, false) && (Reused(page, was, now, s) || Cut(page, was, now, s))
  }

  /** No new pool, or one on ground that was not mapped. */
  ghost predicate Grown(was: Bytes, pools: seq<Pool>, now: Bytes, mid: seq<Pool>) {
    (now == was && mid == pools)
    || exists begin: nat, size: nat :: GrownBy(was, pools, now, mid, begin, size)
  }

  ghost predicate GrownBy(was: Bytes, pools: seq<Pool>, now: Bytes, mid: seq<Pool>, begin: nat, size: nat) {
    && 0 < size && begin + size <= MAX_64 && (forall a :: begin <= a < begin + size ==> a !in was)
    && now == was + Zeros(begin, size) && mid == pools + [Pool(begin, begin + size, begin, [])]
  }

  /** The allocator's own account of one reservation. */
  ghost predicate Reserved(page: nat, was: Bytes, pools: seq<Pool>, now: Bytes, pools': seq<Pool>, s: Slot) {
    exists mid :: Grown(was, pools, now, mid) && Placed(page, mid, pools', s)
  }

  lemma OwnersDistinct(page: nat, pools: seq<Pool>, owned: set<nat>, b: nat) returns (s: Slot)
    requires ArenaOk(page, pools) && OwnersOk(LiveSlots(pools), owned) && b in owned
    ensures SlotFor(LiveSlots(pools), b, s) && !s.processLifetime
    ensures forall t :: t in LiveSlots(pools) && t != s ==> SlotsApart(s, t) && t.begin != b
  {
    s :| s in LiveSlots(pools) && s.begin == b;
    forall t | t in LiveSlots(pools) && t != s
      ensures SlotsApart(s, t) && t.begin != b
    {
      LiveSlotsDisjoint(page, pools, s, t);
    }
  }

  lemma OwnersAfterGrant(page: nat, was: set<Slot>, pools: seq<Pool>, owned: set<nat>, s: Slot, hint: nat, span: nat)
    requires span > 0 && OwnersOk(was, owned) && Granted(page, was, pools, s, hint, span)
    ensures ArenaOk(page, pools) && OwnersOk(LiveSlots(pools), owned + {s.begin}) && s.begin !in owned
  {
    hide ArenaOk, LiveSlots, InsidePool, RangeWithinRel32;
    forall t | t in was
      ensures t.begin != s.begin
    {
      LiveBounds(page, pools, t);
      assert SlotsApart(s, t);
    }
    forall b | b in owned
      ensures exists t :: t in LiveSlots(pools) && t.begin == b
    {
      var t :| t in was && t.begin == b;
      assert t in LiveSlots(pools);
    }
  }

  lemma LiveBounds(page: nat, pools: seq<Pool>, t: Slot)
    requires ArenaOk(page, pools) && t in LiveSlots(pools)
    ensures t.begin < t.usableEnd < t.extentEnd
  {
    var p, i := Locate(pools, t);
    SlotInPool(page, pools[p], i);
  }

  function Freed(s: Slot): Slot {
    Slot(s.begin, s.begin, s.extentEnd, false, false, false)
  }

  lemma OwnersAfterDrop(page: nat, pools: seq<Pool>, owned: set<nat>, now: set<Slot>, s: Slot)
    requires ArenaOk(page, pools) && OwnersOk(LiveSlots(pools), owned)
    requires s.begin in owned && s in LiveSlots(pools) && Dropped(LiveSlots(pools), now, s)
    ensures OwnersOk(now, owned - {s.begin})
  {
    var t := OwnersDistinct(page, pools, owned, s.begin);
    assert s == t;
    forall b | b in owned - {s.begin}
      ensures exists u :: u in now && u.begin == b
    {
      var u :| u in LiveSlots(pools) && u.begin == b;
      assert u in now;
    }
  }

  /** Freeing an owned slot, or handing it to the process, keeps the arena and its ownership. */
  lemma SlotLeaves(page: nat, pools: seq<Pool>, owned: set<nat>, p: nat, i: nat, s': Slot)
    requires ArenaOk(page, pools) && OwnersOk(LiveSlots(pools), owned)
    requires IsSlot(pools, p, i) && pools[p].slots[i].active && pools[p].slots[i].begin in owned
    requires var s := pools[p].slots[i];
             s' == s.(processLifetime := true) || s' == Freed(s)
    ensures var pools' := WithSlot(pools, p, i, s');
            && ArenaOk(page, pools') && SameRanges(pools, pools')
            && Dropped(LiveSlots(pools), LiveSlots(pools'), pools[p].slots[i])
            && OwnersOk(LiveSlots(pools'), owned - {s'.begin})
  {
    hide PoolOk, PoolsApart, OwnersOk;
    SlotInPool(page, pools[p], i);
    WithSlotOk(page, pools, p, i, s');
    assert pools[p].slots[i] in LiveSlots(pools);
    OwnersAfterDrop(page, pools, owned, LiveSlots(WithSlot(pools, p, i, s')), pools[p].slots[i]);
  }

  /** A range that was entirely unmapped lies apart from every mapped pool. */
  lemma FreshRangeApart(page: nat, pools: seq<Pool>, bytes: Bytes, begin: nat, end: nat)
    requires ArenaOk(page, pools) && PoolRangesMapped(bytes, pools) && begin < end
    requires forall a :: begin <= a < end ==> a !in bytes
    ensures forall p :: 0 <= p < |pools| ==> PoolsApart(pools[p], Pool(begin, end, begin, []))
  {
    forall p | 0 <= p < |pools|
      ensures PoolsApart(pools[p], Pool(begin, end, begin, []))
    {
      assert PoolOk(page, pools[p]);
      var a := Max(begin, pools[p].begin);
      assert a < pools[p].end && a < end ==> a in bytes && a !in bytes;
    }
  }

  lemma NewPoolMapped(page: nat, pools: seq<Pool>, bytes: Bytes, begin: nat, size: nat)
    requires ArenaOk(page, pools) && PoolRangesMapped(bytes, pools) && size > 0 && begin + size <= MAX_64
    requires forall a :: begin <= a < begin + size ==> a !in bytes
    ensures var pools' := pools + [Pool(begin, begin + size, begin, [])];
            && ArenaOk(page, pools') && LiveSlots(pools') == LiveSlots(pools)
            && PoolRangesMapped(bytes + Zeros(begin, size), pools')
            && (forall a :: a in bytes && !InPools(pools, a) ==> !InPools(pools', a))
    ensures Extends(bytes, bytes + Zeros(begin, size))
    ensures (map a | a in bytes + Zeros(begin, size) && !(begin <= a < begin + size) :: (bytes + Zeros(begin, size))[a]) == bytes
  {
    hide ArenaOk, LiveSlots, PoolsApart;
    FreshRangeApart(page, pools, bytes, begin, begin + size);
    NewPoolOk(page, pools, begin, begin + size);
    ZerosAdded(bytes, begin, size);
  }

  /** Fresh zeros leave every old byte, and can be taken away again. */
  lemma ZerosAdded(bytes: Bytes, begin: nat, size: nat)
    requires forall a :: begin <= a < begin + size ==> a !in bytes
    ensures Extends(bytes, bytes + Zeros(begin, size))
    ensures (map a | a in bytes + Zeros(begin, size) && !(begin <= a < begin + size) :: (bytes + Zeros(begin, size))[a]) == bytes
  {
    hide Zeros;
  }

  lemma SameRangesMapped(was: seq<Pool>, now: seq<Pool>, bytes: Bytes, bytes': Bytes)
    requires SameRanges(was, now) && bytes'.Keys == bytes.Keys
    ensures PoolRangesMapped(bytes, was) ==> PoolRangesMapped(bytes', now)
    ensures forall a: nat :: InPools(now, a) <==> InPools(was, a)
  {
    forall a: nat
      ensures InPools(now, a) <==> InPools(was, a)
    {
      if InPools(was, a) {
        var p :| 0 <= p < |was| && was[p].begin <= a < was[p].end;
        assert now[p].begin <= a < now[p].end;
      }
    }
  }

  lemma ReuseGrants(page: nat, pools: seq<Pool>, p: nat, i: nat, hint: nat, span: nat)
    requires ArenaOk(page, pools) && IsSlot(pools, p, i) && !pools[p].slots[i].active && span > 0
    requires var s := pools[p].slots[i];
             span + page <= s.extentEnd - s.begin && RangeWithinRel32(s.begin, s.begin + span, hint)
    ensures var s := pools[p].slots[i];
            var s' := Slot(s.begin, s.begin + span, s.extentEnd, true, false, false);
            Granted(page, LiveSlots(pools), WithSlot(pools, p, i, s'), s', hint, span)
            && SameRanges(pools, WithSlot(pools, p, i, s')) && Placed(page, pools, WithSlot(pools, p, i, s'), s')
  {
    var s := pools[p].slots[i];
    var s' := Slot(s.begin, s.begin + span, s.extentEnd, true, false, false);
    WithSlotOk(page, pools, p, i, s');
    SlotInPool(page, pools[p], i);
    assert s !in LiveSlots(pools) by {
      if s in LiveSlots(pools) { var q, j := Locate(pools, s); }
    }
    forall t | t in LiveSlots(pools)
      ensures SlotsApart(s', t)
    {
      var q, j := Locate(pools, t);
      SlotsDisjoint(page, pools, p, i, q, j);
    }
  }

  lemma CarveGrants(page: nat, pools: seq<Pool>, p: nat, hint: nat, span: nat)
    requires ArenaOk(page, pools) && p < |pools| && span > 0
    requires span + page <= pools[p].end - pools[p].cursor
    requires RangeWithinRel32(pools[p].cursor, pools[p].cursor + span, hint)
    ensures SameRanges(pools, pools[p := Carved(page, pools[p], span)])
    ensures Granted(page, LiveSlots(pools), pools[p := Carved(page, pools[p], span)],
                    FreshSlot(page, pools[p].cursor, span), hint, span)
    ensures Placed(page, pools, pools[p := Carved(page, pools[p], span)], FreshSlot(page, pools[p].cursor, span))
  {
    CarvedOk(page, pools, p, span);
    CursorInPool(page, pools[p]);
    var pools' := pools[p := Carved(page, pools[p], span)];
    assert pools'[p].end == pools[p].end;
  }

  predicate SlotRuns(s: Slot, a: nat) {
    s.active && s.executable && s.begin <= a < s.usableEnd
  }

  ghost predicate Retained(s: Slot) {
    s.active && s.processLifetime
  }

  /** `now` holds no byte that `was` did not hold. */
  ghost predicate Kept(was: Bytes, now: Bytes) {
    forall a :: a in now ==> a in was && now[a] == was[a]
  }

  /** The destruction of this pool may unmap `a`. */
  ghost predicate Lost(pool: Pool, a: nat) {
    pool.begin <= a < pool.end &&
    forall j :: 0 <= j < |pool.slots| && Retained(pool.slots[j]) ==> !(pool.slots[j].begin <= a < pool.slots[j].extentEnd)
  }

  /** The address lies between slots of the pool that belong to the process. */
  ghost predicate BetweenRetained(pool: Pool, a: nat) {
    exists i, j :: 0 <= i < |pool.slots| && 0 <= j < |pool.slots| && Retained(pool.slots[i]) && Retained(pool.slots[j])
                   && pool.slots[i].begin <= a < pool.slots[j].extentEnd
  }

  /** What is left of the first `n` pools lies between their retained slots. */
  ghost predicate OnlyRetained(m: Bytes, pools: seq<Pool>, n: nat) {
    forall p, a: nat :: 0 <= p < n <= |pools| && pools[p].begin <= a < pools[p].end && a in m ==> BetweenRetained(pools[p], a)
  }

  ghost predicate LostIn(pools: seq<Pool>, n: nat, a: nat) {
    exists p :: 0 <= p < n <= |pools| && Lost(pools[p], a)
  }

  ghost predicate Shrunk(was: Bytes, now: Bytes, pool: Pool) {
    Kept(was, now) && forall a :: a in was && !Lost(pool, a) ==> a in now
  }

  lemma LostStep(before: Bytes, after: Bytes, first: Bytes, pools: seq<Pool>, p: nat)
    requires p < |pools| && Shrunk(before, after, pools[p])
    requires forall a :: a in first && !LostIn(pools, p, a) ==> a in before
    ensures forall a :: a in first && !LostIn(pools, p + 1, a) ==> a in after
  {
    forall a | a in first && !LostIn(pools, p + 1, a)
      ensures a in after
    {
      assert !LostIn(pools, p, a) && !Lost(pools[p], a);
    }
  }

  lemma RetainedNotLost(page: nat, pools: seq<Pool>, s: Slot, a: nat)
    requires ArenaOk(page, pools) && s in LiveSlots(pools) && s.processLifetime && s.begin <= a < s.extentEnd
    ensures !LostIn(pools, |pools|, a) && InPools(pools, a)
  {
    var p, i := Locate(pools, s);
    SlotInPool(page, pools[p], i);
    forall q | 0 <= q < |pools|
      ensures !Lost(pools[q], a)
    {
      if q == p {
        assert Retained(pools[p].slots[i]);
      } else {
        assert PoolsApart(pools[p], pools[q]);
      }
    }
  }

  // ---- where a reservation finds room ----

  /** Position `i` of a pool has room: an inactive slot that is large enough, or behind all slots the cursor. */
  predicate Room(page: nat, pool: Pool, i: nat, hint: nat, span: nat) {
    if i < |pool.slots| then
      var s := pool.slots[i];
      !s.active && s.begin + span + page <= s.extentEnd && RangeWithinRel32(s.begin, s.begin + span, hint)
    else
      i == |pool.slots| && pool.cursor + span + page <= pool.end && RangeWithinRel32(pool.cursor, pool.cursor + span, hint)
  }

  function Place(pool: Pool, i: nat): nat {
    if i < |pool.slots| then pool.slots[i].begin else pool.cursor
  }

  ghost predicate FullTo(page: nat, pool: Pool, n: nat, hint: nat, span: nat) {
    forall i: nat :: i < n ==> !Room(page, pool, i, hint, span)
  }

  /** How many of the first `n` positions have room. */
  ghost function Rooms(page: nat, pool: Pool, n: nat, hint: nat, span: nat): nat {
    if n == 0 then 0 else Rooms(page, pool, n - 1, hint, span) + if Room(page, pool, n - 1, hint, span) then 1 else 0
  }

  lemma {:induction false} NoRooms(page: nat, pool: Pool, n: nat, hint: nat, span: nat)
    ensures Rooms(page, pool, n, hint, span) == 0 <==> FullTo(page, pool, n, hint, span)
  {
    hide Room;
    if n > 0 {
      NoRooms(page, pool, n - 1, hint, span);
    }
  }

  /** The pool grants the first room that the kernel does not refuse: there were as many rooms before it as refusals. */
  ghost predicate GrantedAfter(page: nat, pool: Pool, hint: nat, span: nat, r: Option<nat>, refusals: int) {
    if r.Some? then
      exists i: nat :: Room(page, pool, i, hint, span) && r.value == Place(pool, i) && Rooms(page, pool, i, hint, span) == refusals
    else
      Rooms(page, pool, |pool.slots| + 1, hint, span) == refusals
  }

  ghost function AllRooms(page: nat, pools: seq<Pool>, n: nat, hint: nat, span: nat): nat {
    if n == 0 || n > |pools| then 0
    else AllRooms(page, pools, n - 1, hint, span) + Rooms(page, pools[n - 1], |pools[n - 1].slots| + 1, hint, span)
  }

  ghost predicate GrantedInOrder(page: nat, pools: seq<Pool>, hint: nat, span: nat, r: Option<nat>, refusals: int) {
    if r.Some? then
      exists p: nat :: p < |pools| && GrantedAfter(page, pools[p], hint, span, r, refusals - AllRooms(page, pools, p, hint, span))
    else
      AllRooms(page, pools, |pools|, hint, span) == refusals
  }

  /** None of the first `n` pools has room. */
  ghost predicate Full(page: nat, pools: seq<Pool>, n: nat, hint: nat, span: nat) {
    forall p :: 0 <= p < n <= |pools| ==> FullTo(page, pools[p], |pools[p].slots| + 1, hint, span)
  }

  ghost predicate FirstIn(page: nat, pool: Pool, hint: nat, span: nat, at: nat) {
    exists i: nat :: Room(page, pool, i, hint, span) && at == Place(pool, i) && FullTo(page, pool, i, hint, span)
  }

  /** `at` is the first room of all pools, in their order. */
  ghost predicate FirstRoom(page: nat, pools: seq<Pool>, hint: nat, span: nat, at: nat) {
    exists p: nat :: p < |pools| && FirstIn(page, pools[p], hint, span, at) && Full(page, pools, p, hint, span)
  }

  /** Whole pages of memory that nothing uses, in the window of the hint. */
  ghost predicate FreeGround(page: nat, floor: nat, bytes: Bytes, hint: nat, b: nat, n: nat)
    requires page > 0
  {
    && PoolSearch.Aligned(page, b) && PoolSearch.Aligned(page, n)
    && floor <= b && b + n <= MAX_64 && hint <= b + LIMIT && b + n <= hint + LIMIT
    && forall a :: b <= a < b + n ==> a !in bytes
  }

  /** All ground from the edge of the window, where no code can start, to the end of the block is free, and makes one pool. */
  ghost predicate AtEdge(page: nat, floor: nat, bytes: Bytes, hint: nat, b: nat, n: nat)
    requires page > 0
  {
    LIMIT <= hint <= b + LIMIT && FreeGround(page, floor, bytes, hint, hint - LIMIT, b + n - (hint - LIMIT))
    && (n <= LIMIT ==> b + n <= hint - LIMIT + Max(PoolSearch.DEFAULT_POOL, n))
  }

  /** No pool has room for the block, and all free ground that could hold it begins at the edge of the window. */
  ghost predicate Crowded(page: nat, floor: nat, bytes: Bytes, pools: seq<Pool>, hint: nat, span: nat)
    requires page > 0
  {
    Full(page, pools, |pools|, hint, span) && OnlyEdge(page, floor, bytes, hint, span + page)
  }

  ghost predicate OnlyEdge(page: nat, floor: nat, bytes: Bytes, hint: nat, n: nat)
    requires page > 0
  {
    forall b: nat :: FreeGround(page, floor, bytes, hint, b, n) ==> AtEdge(page, floor, bytes, hint, b, n)
  }

  /** Ground at the edge of the window is not used, although a block behind its first page could be. */
  lemma EdgeMissed() returns (bytes: Bytes, hint: nat)
    ensures Crowded(4096, 65536, bytes, [], hint, 4096) && LIMIT <= hint
    ensures FreeGround(4096, 65536, bytes, hint, hint - LIMIT + 4096, 8192)
    ensures RangeWithinRel32(hint - LIMIT + 4096, hint - LIMIT + 8192, hint)
  {
    var edge := 0x10_0000;
    bytes, hint := Zeros(0, edge) + Zeros(edge + 12288, 0x2_0000_0000), edge + LIMIT;
    forall b: nat | FreeGround(4096, 65536, bytes, hint, b, 8192)
      ensures AtEdge(4096, 65536, bytes, hint, b, 8192)
    {
      assert b !in bytes && b + 8191 !in bytes;
      PoolSearch.AlignedDifference(4096, b, 8192);
      PoolSearch.AlignedDifference(4096, b + 8192, edge);
    }
  }

  /** No byte of free ground for `n` bytes is nearer to the hint than some byte of `[at, at + size)`. */
  ghost predicate Nearest(page: nat, floor: nat, bytes: Bytes, hint: nat, n: nat, at: nat, size: nat)
    requires page > 0
  {
    exists near: nat :: at <= near < at + size && NoneNearer(page, floor, bytes, hint, n, PoolSearch.Distance(hint, near))
  }

  ghost predicate NoneNearer(page: nat, floor: nat, bytes: Bytes, hint: nat, n: nat, distance: nat)
    requires page > 0
  {
    forall b: nat, a: nat :: FreeGround(page, floor, bytes, hint, b, n) && b <= a < b + n ==> distance <= PoolSearch.Distance(hint, a)
  }

  /** The usable bytes of a reservation: whole pages. */
  function Span(page: nat, bytes: nat): (span: nat)
    requires page > 0
    ensures bytes <= span < bytes + page && PoolSearch.Aligned(page, span)
  {
    PoolSearch.AlignDown(bytes + page - 1, page)
  }

  /** Something to reserve, and with its guard page a size at all. */
  predicate Reservable(page: nat, bytes: nat)
    requires page > 0
  {
    0 < bytes && Span(page, bytes) + page <= MAX_64
  }

  /** What the listed mappings leave is what the memory leaves. */
  lemma ListedGround(page: nat, floor: nat, table: seq<Range>, bytes: Bytes, hint: nat, minimum: nat, b: nat, n: nat)
    requires page > 0 && Table(table) && Lists(table, bytes)
    ensures PoolSearch.Query(page, floor, table, hint, minimum).Free(b, n) ==> FreeGround(page, floor, bytes, hint, b, n)
    ensures n > 0 && FreeGround(page, floor, bytes, hint, b, n) ==> PoolSearch.Query(page, floor, table, hint, minimum).Free(b, n)
  {
    var q := PoolSearch.Query(page, floor, table, hint, minimum);
    if q.Free(b, n) {
      assert forall i :: 0 <= i < |table| ==> PoolSearch.Apart(table[i], b, b + n);
    }
    if n > 0 && FreeGround(page, floor, bytes, hint, b, n) {
      forall i | 0 <= i < |table|
        ensures PoolSearch.Apart(table[i], b, b + n)
      {
        var a := Max(b, table[i].begin);
        assert table[i].begin <= a < table[i].end ==> a in bytes;
      }
    }
  }

  class CodePages {
    const page: PageSize
    const floor: nat
    const memory: Memory
    var pools: seq<Pool>
    /** Begins of the reservations whose handle is alive and still owns its slot. */
    var owned: set<nat>

    ghost predicate Valid()
      reads this, memory`bytes
    {
      && PoolSearch.Query(page, floor, [], 0, page).Valid()
      && ArenaOk(page, pools)
      && PoolRangesMapped(memory.bytes, pools)
      && OwnersOk(LiveSlots(pools), owned)
    }

    constructor (page: PageSize, floor: nat, memory: Memory)
      requires PoolSearch.Query(page, floor, [], 0, page).Valid()
      ensures Valid() && pools == [] && owned == {}
      ensures this.memory == memory && this.page == page && this.floor == floor
    {
      this.page, this.floor, this.memory := page, floor, memory;
      pools, owned := [], {};
    }

    /** The active slot that begins at `begin`. */
    method Find(begin: nat) returns (r: Option<(nat, nat)>)
      requires ArenaOk(page, pools)
      ensures r.Some? ==>
                IsSlot(pools, r.value.0, r.value.1) && SlotFor(LiveSlots(pools), begin, pools[r.value.0].slots[r.value.1])
      ensures r.None? ==> forall s :: !SlotFor(LiveSlots(pools), begin, s)
    {
      for p := 0 to |pools|
        invariant forall q: nat, j: nat :: q < p && j < |pools[q].slots| && pools[q].slots[j].active ==> pools[q].slots[j].begin != begin
      {
        for i := 0 to |pools[p].slots|
          invariant forall j: nat :: j < i && pools[p].slots[j].active ==> pools[p].slots[j].begin != begin
        {
          if pools[p].slots[i].active && pools[p].slots[i].begin == begin {
            return Some((p, i));
          }
        }
      }
      r := None;
    }

    /** One pool: a large enough inactive slot near the hint is reused, or a new one is cut at the cursor. */
    method ReserveInPool(p: nat, hint: nat, span: nat) returns (r: Option<nat>)
      requires ArenaOk(page, pools) && p < |pools| && span > 0
      modifies this`pools, memory`refused, memory`granted
      ensures memory.refused >= old(memory.refused) && memory.granted == old(memory.granted) + if r.Some? then 1 else 0
      ensures r.None? ==> pools == old(pools)
      ensures SameRanges(old(pools), pools)
      ensures r.Some? ==> exists s: Slot :: s.begin == r.value && Granted(page, LiveSlots(old(pools)), pools, s, hint, span)
                                            && Placed(page, old(pools), pools, s)
      ensures GrantedAfter(page, old(pools)[p], hint, span, r, memory.refused - old(memory.refused))
    {
      hide ArenaOk, Granted, Placed, RangeWithinRel32;
      ghost var pool := pools[p];
      for i := 0 to |pools[p].slots|
        invariant pools == old(pools) && memory.granted == old(memory.granted)
        invariant memory.refused == old(memory.refused) + Rooms(page, pool, i, hint, span)
      {
        var s := pools[p].slots[i];
        if s.active || s.extentEnd < s.begin + span + page || !RangeWithinRel32(s.begin, s.begin + span, hint) {
          continue;
        }
        var ok := memory.Protect();
        if ok {
          ReuseGrants(page, pools, p, i, hint, span);
          assert Place(pool, i) == s.begin;
          pools := WithSlot(pools, p, i, Slot(s.begin, s.begin + span, s.extentEnd, true, false, false));
          return Some(s.begin);
        }
      }
      var cursor := pools[p].cursor;
      if cursor + span + page > pools[p].end || !RangeWithinRel32(cursor, cursor + span, hint) {
        return None;
      }
      var ok := memory.Protect();
      if !ok {
        return None;
      }
      CarveGrants(page, pools, p, hint, span);
      assert Place(pool, |pool.slots|) == cursor;
      pools := pools[p := Carved(page, pools[p], span)];
      r := Some(cursor);
    }

    /** Without a refusal that is the first room, or there is none. */
    static lemma GrantedFirst(page: nat, pool: Pool, hint: nat, span: nat, r: Option<nat>)
      requires GrantedAfter(page, pool, hint, span, r, 0)
      ensures if r.Some? then FirstIn(page, pool, hint, span, r.value) else FullTo(page, pool, |pool.slots| + 1, hint, span)
    {
      hide Room, FullTo;
      if r.Some? {
        var i: nat :| Room(page, pool, i, hint, span) && r.value == Place(pool, i) && Rooms(page, pool, i, hint, span) == 0;
        NoRooms(page, pool, i, hint, span);
      } else {
        NoRooms(page, pool, |pool.slots| + 1, hint, span);
      }
    }

    method Reserve(hint: nat, span: nat) returns (r: Option<nat>)
      requires ArenaOk(page, pools) && span > 0
      modifies this`pools, memory`refused, memory`granted
      ensures memory.refused >= old(memory.refused) && memory.granted == old(memory.granted) + if r.Some? then 1 else 0
      ensures r.None? ==> pools == old(pools)
      ensures SameRanges(old(pools), pools)
      ensures r.Some? ==> exists s: Slot :: s.begin == r.value && Granted(page, LiveSlots(old(pools)), pools, s, hint, span)
                                            && Placed(page, old(pools), pools, s)
      ensures GrantedInOrder(page, old(pools), hint, span, r, memory.refused - old(memory.refused))
      ensures memory.refused == old(memory.refused) ==>
                if r.Some? then FirstRoom(page, old(pools), hint, span, r.value) else Full(page, old(pools), |old(pools)|, hint, span)
    {
      hide Placed, FullTo, FirstIn, Granted, FirstRoom, Full, GrantedAfter;
      for p := 0 to |pools|
        invariant pools == old(pools) && memory.granted == old(memory.granted)
        invariant memory.refused == old(memory.refused) + AllRooms(page, pools, p, hint, span)
      {
        ghost var so := memory.refused;
        r := ReserveInPool(p, hint, span);
        if r.Some? {
          InOrderFirst(page, old(pools), hint, span, r, memory.refused - old(memory.refused));
          return;
        }
        NoneAfter(page, old(pools)[p], hint, span, memory.refused - so);
      }
      r := None;
      InOrderFirst(page, pools, hint, span, r, memory.refused - old(memory.refused));
    }

    static lemma NoneAfter(page: nat, pool: Pool, hint: nat, span: nat, refusals: int)
      requires GrantedAfter(page, pool, hint, span, None, refusals)
      ensures Rooms(page, pool, |pool.slots| + 1, hint, span) == refusals
    {
    }

    static lemma InOrderFirst(page: nat, pools: seq<Pool>, hint: nat, span: nat, r: Option<nat>, refusals: int)
      requires GrantedInOrder(page, pools, hint, span, r, refusals)
      ensures refusals == 0 ==>
                if r.Some? then FirstRoom(page, pools, hint, span, r.value) else Full(page, pools, |pools|, hint, span)
    {
      hide FirstIn, FirstRoom, Full, GrantedAfter, AllRooms;
      if refusals == 0 {
        if r.Some? {
          var p: nat :| p < |pools| && GrantedAfter(page, pools[p], hint, span, r, refusals - AllRooms(page, pools, p, hint, span));
          AfterNonnegative(page, pools[p], hint, span, r, refusals - AllRooms(page, pools, p, hint, span));
          NoneOfAll(page, pools, p, hint, span);
          GrantedFirst(page, pools[p], hint, span, r);
          FirstOfAll(page, pools, p, hint, span, r.value);
        } else {
          NoneOfAll(page, pools, |pools|, hint, span);
        }
      }
    }

    static lemma FirstOfAll(page: nat, pools: seq<Pool>, p: nat, hint: nat, span: nat, at: nat)
      requires p < |pools| && FirstIn(page, pools[p], hint, span, at) && Full(page, pools, p, hint, span)
      ensures FirstRoom(page, pools, hint, span, at)
    {
      hide FirstIn, Full;
    }

    static lemma AfterNonnegative(page: nat, pool: Pool, hint: nat, span: nat, r: Option<nat>, refusals: int)
      requires GrantedAfter(page, pool, hint, span, r, refusals)
      ensures refusals >= 0
    {
    }

    static lemma {:induction false} NoneOfAll(page: nat, pools: seq<Pool>, n: nat, hint: nat, span: nat)
      requires n <= |pools| && AllRooms(page, pools, n, hint, span) == 0
      ensures Full(page, pools, n, hint, span)
    {
      hide FullTo, Room;
      if n > 0 {
        NoneOfAll(page, pools, n - 1, hint, span);
        NoRooms(page, pools[n - 1], |pools[n - 1].slots| + 1, hint, span);
      }
    }

    /** Place one more pool and reserve again; without success everything is as before. */
    method ReserveInNewPool(begin: nat, size: nat, hint: nat, span: nat) returns (r: Option<nat>)
      requires Valid() && span > 0 && size > 0 && begin + size <= MAX_64
      modifies this`pools, memory
      ensures memory.refused >= old(memory.refused)
      ensures r.None? ==> pools == old(pools) && memory.bytes == old(memory.bytes)
      ensures r.Some? ==> Extends(old(memory.bytes), memory.bytes) && PoolRangesMapped(memory.bytes, pools)
      ensures r.Some? ==> forall a :: a in old(memory.bytes) && !InPools(old(pools), a) ==> !InPools(pools, a)
      ensures r.Some? ==> exists s: Slot :: s.begin == r.value && Granted(page, LiveSlots(old(pools)), pools, s, hint, span)
                                            && Reserved(page, old(memory.bytes), old(pools), memory.bytes, pools, s)
      ensures r.Some? ==> |pools| == |old(pools)| + 1 && pools[|old(pools)|].begin == begin && pools[|old(pools)|].end == begin + size
      ensures memory.refused == old(memory.refused) && Full(page, old(pools), |old(pools)|, hint, span) ==>
                if r.Some? then r.value == begin && RangeWithinRel32(begin, begin + span, hint)
                else begin + span + page > begin + size || !RangeWithinRel32(begin, begin + span, hint)
    {
      hide Placed, Full, FirstRoom, RangeWithinRel32, GrantedInOrder;
      var ok := memory.MapFixed(begin, size);
      if !ok {
        return None;
      }
      NewPoolMapped(page, pools, old(memory.bytes), begin, size);
      pools := pools + [Pool(begin, begin + size, begin, [])];
      ghost var mid := pools;
      assert GrownBy(old(memory.bytes), old(pools), memory.bytes, mid, begin, size);
      r := Reserve(hint, span);
      RoomInNewPool(page, old(pools), begin, begin + size, hint, span);
      SameRangesMapped(mid, pools, memory.bytes, memory.bytes);
      if r.None? {
        pools := pools[..|pools| - 1];
        memory.Unmap(begin, begin + size);
        return;
      }
    }

    /** When the other pools are full, the first room is the start of the new one, if that is in reach. */
    static lemma RoomInNewPool(page: nat, pools: seq<Pool>, begin: nat, end: nat, hint: nat, span: nat)
      ensures var more := pools + [Pool(begin, end, begin, [])];
              && (Full(page, pools, |pools|, hint, span) ==> forall at: nat :: FirstRoom(page, more, hint, span, at) ==> at == begin)
              && (Full(page, more, |more|, hint, span) ==> begin + span + page > end || !RangeWithinRel32(begin, begin + span, hint))
    {
      hide RangeWithinRel32;
      var more := pools + [Pool(begin, end, begin, [])];
      var n := |pools|;
      assert more[n].slots == [] && Place(more[n], 0) == begin;
      assert Room(page, more[n], 0, hint, span) <==> begin + span + page <= end && RangeWithinRel32(begin, begin + span, hint);
      if Full(page, pools, n, hint, span) {
        forall at: nat | FirstRoom(page, more, hint, span, at)
          ensures at == begin
        {
          var p: nat :| p < |more| && FirstIn(page, more[p], hint, span, at) && Full(page, more, p, hint, span);
          var i: nat :| Room(page, more[p], i, hint, span) && at == Place(more[p], i) && FullTo(page, more[p], i, hint, span);
          if p < n {
            assert FullTo(page, pools[p], |pools[p].slots| + 1, hint, span);
          }
        }
      }
      if Full(page, more, |more|, hint, span) {
        assert FullTo(page, more[n], 1, hint, span);
      }
    }

    /** When all free ground begins at the edge, so does every candidate, and no code can start there. */
    static lemma EdgeBegins(q: PoolSearch.Query, bytes: Bytes, c: PoolSearch.Block, span: nat)
      requires q.Valid() && Lists(q.mappings, bytes) && q.Acceptable(c) && q.minimum <= LIMIT
      requires OnlyEdge(q.page, q.floor, bytes, q.hint, q.minimum)
      ensures !RangeWithinRel32(c.begin, c.begin + span, q.hint)
    {
      hide Lists, Table, PoolSearch.Query.Free;
      var size := c.begin + c.size - (q.hint - LIMIT);
      PartGround(q, bytes, c);
      assert AtEdge(q.page, q.floor, bytes, q.hint, c.begin + c.size - q.minimum, q.minimum);
      ListedGround(q.page, q.floor, q.mappings, bytes, q.hint, q.minimum, q.hint - LIMIT, size);
      assert q.Whole(c) && q.Free(q.hint - LIMIT, size) && size == c.size;
    }

    static lemma PartGround(q: PoolSearch.Query, bytes: Bytes, c: PoolSearch.Block)
      requires q.Valid() && Lists(q.mappings, bytes) && q.Acceptable(c)
      ensures FreeGround(q.page, q.floor, bytes, q.hint, c.begin + c.size - q.minimum, q.minimum)
      ensures q.hint <= c.begin + LIMIT
    {
      hide Lists;
      PoolSearch.AlignedDifference(q.page, c.begin, c.size);
      PoolSearch.AlignedDifference(q.page, c.begin + c.size, q.minimum);
      ListedGround(q.page, q.floor, q.mappings, bytes, q.hint, q.minimum, c.begin, c.size);
    }

    /** A block of `bytes` bytes near `hint`. The handle owns its slot; every byte of the usable span is within the jump limit of
        the hint, and at least one page follows it. It is the first room of the pools, or else the start of a new pool on the
        nearest free ground. Unless the kernel refuses something, it fails just when there is no such room. */
    method ReserveNear(hint: nat, bytes: nat) returns (r: Option<Handle>)
      requires Valid() && hint <= MAX_64 && bytes <= MAX_64
      modifies this, memory
      ensures Valid() && memory.refused >= old(memory.refused)
      ensures r.None? ==> pools == old(pools) && owned == old(owned) && memory.bytes == old(memory.bytes)
      ensures r.Some? ==> Extends(old(memory.bytes), memory.bytes)
      ensures r.Some? ==> forall a :: a in old(memory.bytes) && !InPools(old(pools), a) ==> !InPools(pools, a)
      ensures r.Some? ==> r.value.size == bytes && r.value.begin !in old(owned) && owned == old(owned) + {r.value.begin}
      ensures r.Some? ==> Reservable(page, bytes)
                          && exists s: Slot :: s.begin == r.value.begin
                                               && Granted(page, LiveSlots(old(pools)), pools, s, hint, Span(page, bytes))
                                               && Reserved(page, old(memory.bytes), old(pools), memory.bytes, pools, s)
      ensures memory.refused == old(memory.refused) && Reservable(page, bytes) ==>
                var crowded := Crowded(page, floor, old(memory.bytes), old(pools), hint, Span(page, bytes));
                (r.None? ==> crowded) && (crowded && Span(page, bytes) + page <= LIMIT ==> r.None?)
      ensures r.Some? && memory.refused == old(memory.refused) ==>
                if Full(page, old(pools), |old(pools)|, hint, Span(page, bytes))
                then NewNearest(old(memory.bytes), old(pools), hint, Span(page, bytes), r.value.begin)
                else FirstRoom(page, old(pools), hint, Span(page, bytes), r.value.begin)
    {
      hide Placed, GrownBy, ArenaOk, PoolRangesMapped, OwnersOk, LiveSlots, InPools, Granted, Full, FirstRoom, Crowded, RangeWithinRel32;
      if bytes == 0 || bytes > MAX_64 - (page - 1) {
        return None;
      }
      var span := Span(page, bytes);
      if span > MAX_64 - page {
        return None;
      }
      var b := Reserve(hint, span);
      FirstNotFull(page, pools, hint, span);
      if b.Some? {
        FirstNotFull(page, old(pools), hint, span);
        if Crowded(page, floor, memory.bytes, old(pools), hint, span) {
          CrowdedFull(page, floor, memory.bytes, old(pools), hint, span);
        }
        r := Some(Handle(b.value, bytes));
        SameRangesMapped(old(pools), pools, memory.bytes, memory.bytes);
        Own(b.value, LiveSlots(old(pools)), hint, span);
        return;
      }
      b := ReserveOnGround(hint, span);
      if b.Some? {
        r := Some(Handle(b.value, bytes));
        Own(b.value, LiveSlots(old(pools)), hint, span);
      } else {
        r := None;
      }
    }

    static lemma FirstNotFull(page: nat, pools: seq<Pool>, hint: nat, span: nat)
      ensures forall at: nat :: FirstRoom(page, pools, hint, span, at) ==> !Full(page, pools, |pools|, hint, span)
    {
      hide Room;
      forall at: nat | FirstRoom(page, pools, hint, span, at)
        ensures !Full(page, pools, |pools|, hint, span)
      {
        var p: nat :| p < |pools| && FirstIn(page, pools[p], hint, span, at);
        var i: nat :| Room(page, pools[p], i, hint, span) && FullTo(page, pools[p], i, hint, span);
        RoomInside(page, pools[p], i, hint, span);
      }
    }

    static lemma RoomInside(page: nat, pool: Pool, i: nat, hint: nat, span: nat)
      requires Room(page, pool, i, hint, span)
      ensures i < |pool.slots| + 1
    {
    }

    /** The new pool begins at `at`, and no free ground is nearer; unless some is free right at the edge of the window. */
    ghost predicate NewNearest(bytes: Bytes, was: seq<Pool>, hint: nat, span: nat, at: nat)
      requires page > 0
      reads this
    {
      && |pools| == |was| + 1 && pools[|was|].begin == at <= pools[|was|].end
      && ((LIMIT <= hint && FreeGround(page, floor, bytes, hint, hint - LIMIT, page))
          || Nearest(page, floor, bytes, hint, span + page, at, pools[|was|].end - at))
    }

    /** Try the pool candidates near the hint, the nearest first. */
    method ReserveOnGround(hint: nat, span: nat) returns (r: Option<nat>)
      requires Valid() && hint <= MAX_64 && span > 0 && PoolSearch.Aligned(page, span) && span + page <= MAX_64
      modifies this`pools, memory
      ensures memory.refused >= old(memory.refused)
      ensures r.None? ==> pools == old(pools) && memory.bytes == old(memory.bytes)
      ensures r.Some? ==> Extends(old(memory.bytes), memory.bytes) && PoolRangesMapped(memory.bytes, pools)
      ensures r.Some? ==> forall a :: a in old(memory.bytes) && !InPools(old(pools), a) ==> !InPools(pools, a)
      ensures r.Some? ==> exists s: Slot :: s.begin == r.value && Granted(page, LiveSlots(old(pools)), pools, s, hint, span)
                                            && Reserved(page, old(memory.bytes), old(pools), memory.bytes, pools, s)
      ensures memory.refused == old(memory.refused) && Full(page, old(pools), |old(pools)|, hint, span) ==>
                if r.Some? then NewNearest(old(memory.bytes), old(pools), hint, span, r.value)
                else Crowded(page, floor, old(memory.bytes), old(pools), hint, span)
      ensures Crowded(page, floor, old(memory.bytes), old(pools), hint, span) ==>
                span + page > LIMIT || memory.refused > old(memory.refused) || r.None?
    {
      hide Placed, GrownBy, ArenaOk, PoolRangesMapped, OwnersOk, LiveSlots, InPools, Granted, Full, Crowded, RangeWithinRel32;
      var mappings := memory.Mappings();
      PoolSearch.AlignedDifference(page, span, page);
      var q := PoolSearch.Query(page, floor, mappings, hint, span + page);
      var candidates := PoolSearch.FindPoolCandidates(q);
      if Crowded(page, floor, memory.bytes, pools, hint, span) {
        CrowdedFull(page, floor, memory.bytes, pools, hint, span);
      }
      for i := 0 to |candidates|
        invariant Valid() && pools == old(pools) && owned == old(owned) && memory.bytes == old(memory.bytes)
        invariant memory.refused >= old(memory.refused)
        invariant memory.refused == old(memory.refused) && Full(page, old(pools), |old(pools)|, hint, span) ==>
                    Lists(mappings, memory.bytes) && forall j :: 0 <= j < i ==> candidates[j].begin + LIMIT == hint
      {
        var c := candidates[i];
        assert c in candidates;
        UsableUnlessEdge(q, c, span);
        r := ReserveInNewPool(c.begin, c.size, hint, span);
        if r.Some? {
          if memory.refused == old(memory.refused) && Full(page, old(pools), |old(pools)|, hint, span) {
            NearestOf(q, old(memory.bytes), candidates, i);
            if span + page <= LIMIT && Crowded(page, floor, old(memory.bytes), old(pools), hint, span) {
              EdgeBegins(q, old(memory.bytes), c, span);
            }
          }
          return;
        }
      }
      if memory.refused == old(memory.refused) && Full(page, old(pools), |old(pools)|, hint, span) {
        EdgeOnly(q, memory.bytes, candidates);
        CrowdedIs(page, floor, memory.bytes, pools, hint, span);
      }
      r := None;
    }

    static lemma CrowdedFull(page: nat, floor: nat, bytes: Bytes, pools: seq<Pool>, hint: nat, span: nat)
      requires page > 0 && Crowded(page, floor, bytes, pools, hint, span)
      ensures Full(page, pools, |pools|, hint, span) && OnlyEdge(page, floor, bytes, hint, span + page)
    {
    }

    static lemma CrowdedIs(page: nat, floor: nat, bytes: Bytes, pools: seq<Pool>, hint: nat, span: nat)
      requires page > 0 && Full(page, pools, |pools|, hint, span) && OnlyEdge(page, floor, bytes, hint, span + page)
      ensures Crowded(page, floor, bytes, pools, hint, span)
    {
    }

    /** A pool at the candidate holds the block, unless it begins at the edge of the window. */
    static lemma UsableUnlessEdge(q: PoolSearch.Query, c: PoolSearch.Block, span: nat)
      requires q.page > 0 && q.Acceptable(c) && q.minimum == span + q.page && span > 0
      ensures c.size > 0 && c.begin + c.size <= MAX_64 && c.begin + span + q.page <= c.begin + c.size
      ensures RangeWithinRel32(c.begin, c.begin + span, q.hint) || c.begin + LIMIT == q.hint
    {
    }

    static lemma EdgeOnly(q: PoolSearch.Query, bytes: Bytes, s: seq<PoolSearch.Block>)
      requires q.Valid() && Lists(q.mappings, bytes) && forall j :: 0 <= j < |s| ==> s[j].begin + LIMIT == q.hint
      requires forall b: nat :: q.Free(b, q.minimum) ==> q.Served(s, b)
      ensures OnlyEdge(q.page, q.floor, bytes, q.hint, q.minimum)
    {
      hide PoolSearch.Query.Free, FreeGround, Lists, Table;
      forall b: nat | FreeGround(q.page, q.floor, bytes, q.hint, b, q.minimum)
        ensures AtEdge(q.page, q.floor, bytes, q.hint, b, q.minimum)
      {
        ListedGround(q.page, q.floor, q.mappings, bytes, q.hint, q.minimum, b, q.minimum);
        var c :| c in s && q.Serves(c, b);
        ListedGround(q.page, q.floor, q.mappings, bytes, q.hint, q.minimum, c.begin, b + q.minimum - c.begin);
      }
    }

    static lemma NearestOf(q: PoolSearch.Query, bytes: Bytes, s: seq<PoolSearch.Block>, i: nat)
      requires q.Valid() && 2 * q.page <= q.minimum && Lists(q.mappings, bytes) && i < |s|
      requires forall c :: c in s ==> q.Acceptable(c)
      requires forall j :: 0 <= j < i ==> s[j].begin + LIMIT == q.hint
      requires forall b: nat, a :: q.Free(b, q.minimum) && 2 * q.page <= q.minimum && b <= a < b + q.minimum ==>
                 s != [] && s[0].distance <= PoolSearch.Distance(q.hint, a)
      ensures (LIMIT <= q.hint && FreeGround(q.page, q.floor, bytes, q.hint, q.hint - LIMIT, q.page))
              || Nearest(q.page, q.floor, bytes, q.hint, q.minimum, s[i].begin, s[i].size)
    {
      hide Lists, Table, FreeGround, PoolSearch.Query.Free, PoolSearch.Aligned;
      var c := s[0];
      assert c in s && q.Acceptable(c);
      if i > 0 {
        GroundBegins(q, bytes, c);
      } else {
        var near :| c.begin <= near < c.begin + c.size && c.distance == PoolSearch.Distance(q.hint, near);
        forall b: nat, a: nat | FreeGround(q.page, q.floor, bytes, q.hint, b, q.minimum) && b <= a < b + q.minimum
          ensures c.distance <= PoolSearch.Distance(q.hint, a)
        {
          ListedGround(q.page, q.floor, q.mappings, bytes, q.hint, q.minimum, b, q.minimum);
        }
        assert NoneNearer(q.page, q.floor, bytes, q.hint, q.minimum, PoolSearch.Distance(q.hint, near));
      }
    }

    static lemma GroundBegins(q: PoolSearch.Query, bytes: Bytes, c: PoolSearch.Block)
      requires q.Valid() && Lists(q.mappings, bytes) && q.Acceptable(c)
      ensures FreeGround(q.page, q.floor, bytes, q.hint, c.begin, q.page)
    {
      hide Lists;
      PoolSearch.AlignedDifference(q.page, 0, c.size);
      ListedGround(q.page, q.floor, q.mappings, bytes, q.hint, q.minimum, c.begin, c.size);
    }

    /** The handle of a just granted slot comes to life. */
    method Own(b: nat, ghost was: set<Slot>, ghost hint: nat, ghost span: nat)
      requires span > 0
      requires PoolSearch.Query(page, floor, [], 0, page).Valid()
      requires PoolRangesMapped(memory.bytes, pools)
      requires OwnersOk(was, owned)
      requires exists s: Slot :: s.begin == b && Granted(page, was, pools, s, hint, span)
      modifies this`owned
      ensures Valid() && b !in old(owned) && owned == old(owned) + {b}
    {
      hide ArenaOk, PoolRangesMapped, OwnersOk, LiveSlots, Granted;
      ghost var s: Slot :| s.begin == b && Granted(page, was, pools, s, hint, span);
      OwnersAfterGrant(page, was, pools, owned, s, hint, span);
      owned := owned + {b};
    }

    method FindOwned(b: nat) returns (p: nat, i: nat)
      requires Valid() && b in owned
      ensures IsSlot(pools, p, i) && SlotFor(LiveSlots(pools), b, pools[p].slots[i])
      ensures pools[p].begin <= pools[p].slots[i].begin && pools[p].slots[i].extentEnd <= pools[p].end
      ensures SlotOk(page, pools[p].slots[i]) && pools[p].slots[i].active
    {
      var found := Find(b);
      ghost var t := OwnersDistinct(page, pools, owned, b);
      assert SlotFor(LiveSlots(pools), b, t);
      p, i := found.value.0, found.value.1;
      SlotInPool(page, pools[p], i);
      var _, _ := Locate(pools, pools[p].slots[i]);
    }

    /** Destruction of an owning handle. */
    method Reclaim(b: nat) returns (s: Slot)
      requires Valid() && b in owned
      modifies this, memory
      ensures Valid() && owned == old(owned) - {b}
      ensures SameRanges(old(pools), pools)
      ensures SlotFor(old(LiveSlots(pools)), b, s) && Dropped(old(LiveSlots(pools)), LiveSlots(pools), s)
      ensures ChangedWithin(old(memory.bytes), memory.bytes, s.begin, s.extentEnd)
      ensures memory.refused > old(memory.refused) ==> memory.bytes == old(memory.bytes)
      ensures memory.refused >= old(memory.refused) && memory.granted + memory.refused == old(memory.granted) + old(memory.refused) + 1
      ensures Rewritten(old(pools), pools, s, if memory.refused == old(memory.refused) then Freed(s) else s.(processLifetime := true))
    {
      hide ArenaOk, PoolRangesMapped, OwnersOk, LiveSlots, InPools, SameRanges, Dropped;
      var p, i := FindOwned(b);
      s := pools[p].slots[i];
      var ok := memory.Protect();
      var s' := if ok then Freed(s) else s.(processLifetime := true);
      if ok {
        memory.Discard(s.begin, s.extentEnd);
      }
      SlotLeaves(page, pools, owned, p, i, s');
      SameRangesMapped(pools, WithSlot(pools, p, i, s'), old(memory.bytes), memory.bytes);
      pools := WithSlot(pools, p, i, s');
      owned := owned - {b};
    }

    /** The slot of a handle becomes the property of the process. */
    method ReleaseToProcess(b: nat) returns (s: Slot)
      requires Valid() && b in owned
      modifies this
      ensures Valid() && owned == old(owned) - {b}
      ensures SameRanges(old(pools), pools)
      ensures SlotFor(old(LiveSlots(pools)), b, s)
      ensures LiveSlots(pools) == old(LiveSlots(pools)) - {s} + {s.(processLifetime := true)}
      ensures Rewritten(old(pools), pools, s, s.(processLifetime := true))
    {
      var p, i := FindOwned(b);
      s := pools[p].slots[i];
      SlotLeaves(page, pools, owned, p, i, s.(processLifetime := true));
      WithSlotOk(page, pools, p, i, s.(processLifetime := true));
      pools := WithSlot(pools, p, i, s.(processLifetime := true));
      owned := owned - {b};
    }

    /** Copy an image into a reservation and make it executable. The image must fit what was reserved. */
    method CommitCode(h: Handle, image: seq<byte>) returns (r: CodeCommit, s: Slot)
      requires Valid() && h.begin in owned
      modifies this, memory
      ensures Valid() && owned == old(owned) && SameRanges(old(pools), pools)
      ensures r == Refused <==> image == []
      ensures r != Committed ==> pools == old(pools)
      ensures r == Committed ==> Rewritten(old(pools), pools, s, s.(executable := true))
      ensures SlotFor(old(LiveSlots(pools)), h.begin, s)
      ensures ChangedWithin(old(memory.bytes), memory.bytes, s.begin, s.usableEnd)
      ensures r == Committed ==>
                LiveSlots(pools) == old(LiveSlots(pools)) - {s} + {s.(executable := true)}
                && |image| <= h.size && memory.bytes == Write(old(memory.bytes), h.begin, image)
      ensures memory.refused >= old(memory.refused)
      ensures r == Committed ==> memory.refused == old(memory.refused) && memory.granted == old(memory.granted) + 1
      ensures r == Failed && memory.refused == old(memory.refused) ==>
                |image| > Min(h.size, s.usableEnd - s.begin) && memory.bytes == old(memory.bytes)
      ensures image != [] && |image| <= Min(h.size, s.usableEnd - s.begin) && memory.refused == old(memory.refused) ==> r == Committed
    {
      hide ArenaOk, PoolOk, LiveSlots, InPools;
      var p, i := FindOwned(h.begin);
      s := pools[p].slots[i];
      if image == [] {
        return Refused, s;
      }
      if |image| > h.size || |image| > s.usableEnd - s.begin {
        return Failed, s;
      }
      memory.Copy(h.begin, image);
      var ok := memory.Protect();
      if !ok {
        return Failed, s;
      }
      WithSlotOk(page, pools, p, i, s.(executable := true));
      pools := WithSlot(pools, p, i, s.(executable := true));
      r := Committed;
    }

    /** Rewrite bytes of a committed image inside its reservation. */
    method RewriteReservation(h: Handle, offset: nat, s: seq<byte>) returns (ok: bool)
      requires Valid() && h.begin in owned
      modifies memory
      ensures Valid()
      ensures !ok ==> memory.bytes == old(memory.bytes)
      ensures ok ==> s != [] && offset + |s| <= h.size && memory.bytes == Write(old(memory.bytes), h.begin + offset, s)
      ensures ok ==> exists t :: SlotFor(LiveSlots(pools), h.begin, t) && h.begin + offset + |s| <= t.usableEnd
      ensures memory.refused >= old(memory.refused) && (ok ==> memory.refused == old(memory.refused))
      ensures memory.unlocked == if ok then None else old(memory.unlocked)
      ensures !ok && memory.refused == old(memory.refused) ==>
                s == [] || offset + |s| > h.size
                || forall t :: SlotFor(LiveSlots(pools), h.begin, t) ==> h.begin + offset + |s| > t.usableEnd
    {
      if s == [] || offset > h.size || |s| > h.size - offset {
        return false;
      }
      var p, i := FindOwned(h.begin);
      ghost var _ := OwnersDistinct(page, pools, owned, h.begin);
      if h.begin + offset + |s| > pools[p].slots[i].usableEnd {
        return false;
      }
      var at, end := h.begin + offset, h.begin + offset + |s|;
      ok := memory.Unlock(page, PoolSearch.AlignDown(at, page), PoolSearch.AlignDown(end - 1, page) + page);
      if ok {
        memory.CopyOver(at, s);
        memory.Lock();
      }
    }

    method OwnsAddress(address: nat) returns (r: bool)
      ensures r <==> InCode(LiveSlots(pools), address)
    {
      for p := 0 to |pools|
        invariant forall q: nat, j: nat :: q < p && j < |pools[q].slots| ==> !SlotRuns(pools[q].slots[j], address)
      {
        for i := 0 to |pools[p].slots|
          invariant forall j: nat :: j < i ==> !SlotRuns(pools[p].slots[j], address)
        {
          if SlotRuns(pools[p].slots[i], address) {
            assert pools[p].slots[i] in LiveSlots(pools);
            return true;
          }
        }
      }
      if InCode(LiveSlots(pools), address) {
        ghost var s :| s in LiveSlots(pools) && s.executable && s.begin <= address < s.usableEnd;
        ghost var q, j := Locate(pools, s);
        assert SlotRuns(pools[q].slots[j], address);
      }
      r := false;
    }

    method PatchableEntry(entry: nat, target: nat) returns (r: bool)
      requires Mapped(memory.bytes, entry, WINDOW)
      ensures r <==> Patchable(memory.bytes, LiveSlots(pools), entry, target)
    {
      var code := Read(memory.bytes, entry, WINDOW);
      var patchable := KnownPrologue(code);
      if !patchable && code[0] == JMP {
        patchable := OwnsAddress(JumpTarget(entry, code));
      }
      r := patchable && InReach(entry, target);
    }

    /** The bytes to write back if the transaction has to be undone. */
    method SnapshotEntry(entry: nat) returns (r: Option<Window>)
      requires Mapped(memory.bytes, entry, WINDOW)
      ensures r.Some? <==> Patchable(memory.bytes, LiveSlots(pools), entry, entry)
      ensures r.Some? ==> r.value == Read(memory.bytes, entry, WINDOW)
    {
      var ok := PatchableEntry(entry, entry);
      r := if ok then Some(Read(memory.bytes, entry, WINDOW)) else None;
    }

    /** Write the redirect, unless the entry is not patchable or its page cannot be made writable. */
    method PatchEntry(entry: nat, target: nat) returns (ok: bool)
      requires Mapped(memory.bytes, entry, WINDOW)
      modifies memory
      ensures memory.refused >= old(memory.refused)
      ensures !ok ==> memory.bytes == old(memory.bytes)
      ensures !ok <==> !Patchable(old(memory.bytes), LiveSlots(pools), entry, target) || memory.refused > old(memory.refused)
      ensures ok ==> memory.bytes == Patched(old(memory.bytes), Patch(entry, Jump(entry, target)))
      ensures memory.unlocked == if ok then None else old(memory.unlocked)
    {
      ok := PatchableEntry(entry, target);
      if !ok {
        return;
      }
      var start := PoolSearch.AlignDown(entry, page);
      ok := memory.Unlock(page, start, start + 2 * page);
      if ok {
        PatchedIsWrite(memory.bytes, Patch(entry, Jump(entry, target)));
        memory.CopyOver(entry, Jump(entry, target));
        memory.Lock();
      }
    }

    method RestoreEntry(entry: nat, original: Window) returns (ok: bool)
      requires Mapped(memory.bytes, entry, WINDOW)
      modifies memory
      ensures memory.bytes == if ok then Patched(old(memory.bytes), Patch(entry, original)) else old(memory.bytes)
      ensures memory.refused == old(memory.refused) + if ok then 0 else 1
      ensures memory.unlocked == if ok then None else old(memory.unlocked)
    {
      var start := PoolSearch.AlignDown(entry, page);
      ok := memory.Unlock(page, start, start + 2 * page);
      if ok {
        PatchedIsWrite(memory.bytes, Patch(entry, original));
        memory.CopyOver(entry, original);
        memory.Lock();
      }
    }

    /** The smallest range that covers every retained slot of the pool, or an inverted one. */
    method RetainedHull(pool: Pool) returns (low: nat, high: nat)
      requires PoolOk(page, pool)
      ensures forall j :: 0 <= j < |pool.slots| && Retained(pool.slots[j]) ==>
                low <= pool.slots[j].begin && pool.slots[j].extentEnd <= high
      ensures pool.begin <= high <= pool.end && low <= pool.end
      ensures low == pool.end || pool.begin <= low < high
      ensures low == pool.end ==> forall j :: 0 <= j < |pool.slots| ==> !Retained(pool.slots[j])
      ensures low < pool.end ==> exists j :: 0 <= j < |pool.slots| && Retained(pool.slots[j]) && pool.slots[j].begin == low
      ensures low < pool.end ==> exists j :: 0 <= j < |pool.slots| && Retained(pool.slots[j]) && pool.slots[j].extentEnd == high
    {
      low, high := pool.end, pool.begin;
      for i := 0 to |pool.slots|
        invariant forall j :: 0 <= j < i && Retained(pool.slots[j]) ==>
                    low <= pool.slots[j].begin && pool.slots[j].extentEnd <= high
        invariant pool.begin <= high <= pool.end && low <= pool.end
        invariant low == pool.end || pool.begin <= low < high
        invariant low == pool.end ==> high == pool.begin && forall j :: 0 <= j < i ==> !Retained(pool.slots[j])
        invariant low < pool.end ==> exists j :: 0 <= j < i && Retained(pool.slots[j]) && pool.slots[j].begin == low
        invariant low < pool.end ==> exists j :: 0 <= j < i && Retained(pool.slots[j]) && pool.slots[j].extentEnd == high
      {
        SlotInPool(page, pool, i);
        if pool.slots[i].active && pool.slots[i].processLifetime {
          low := Min(low, pool.slots[i].begin);
          high := Max(high, pool.slots[i].extentEnd);
        }
      }
    }

    method DestroyPool(p: nat)
      requires ArenaOk(page, pools) && p < |pools|
      modifies memory`bytes
      ensures Shrunk(old(memory.bytes), memory.bytes, pools[p])
      ensures forall a: nat :: pools[p].begin <= a < pools[p].end && a in memory.bytes ==> BetweenRetained(pools[p], a)
    {
      var pool := pools[p];
      assert PoolOk(page, pool);
      var low, high := RetainedHull(pool);
      if low == pool.end {
        memory.Unmap(pool.begin, pool.end);
        return;
      }
      if pool.begin < low {
        memory.Unmap(pool.begin, low);
      }
      if high < pool.end {
        memory.Unmap(high, pool.end);
      }
    }

    /** Destruction of the allocator: everything outside the hull of a pool's retained slots is unmapped,
        and no byte of a slot that belongs to the process is. */
    method Destroy()
      requires Valid()
      modifies memory`bytes
      ensures Kept(old(memory.bytes), memory.bytes)
      ensures forall a :: a in old(memory.bytes) && !InPools(pools, a) ==> a in memory.bytes
      ensures forall s, a: nat :: s in LiveSlots(pools) && s.processLifetime && s.begin <= a < s.extentEnd ==> a in memory.bytes
      ensures OnlyRetained(memory.bytes, pools, |pools|)
    {
      for p := 0 to |pools|
        invariant Kept(old(memory.bytes), memory.bytes) && OnlyRetained(memory.bytes, pools, p)
        invariant forall a :: a in old(memory.bytes) && !LostIn(pools, p, a) ==> a in memory.bytes
      {
        ghost var before := memory.bytes;
        DestroyPool(p);
        LostStep(before, memory.bytes, old(memory.bytes), pools, p);
      }
      forall s, a: nat | s in LiveSlots(pools) && s.processLifetime && s.begin <= a < s.extentEnd
        ensures a in memory.bytes
      {
        RetainedNotLost(page, pools, s, a);
      }
    }
  }
}
