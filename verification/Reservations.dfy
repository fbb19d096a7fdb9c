/** The reservations of one load: blocks near one address, filled and owned, or all given back. */
module Reservations {
  import opened Wrappers
  import opened Words
  import opened LiveMemory
  import opened Arena
  import opened CodePages

  /** A block of `size` bytes at `at` is the usable beginning of a slot near the hint. */
  ghost predicate Housed(live: set<Slot>, at: nat, size: nat, hint: nat) {
    exists s :: SlotFor(live, at, s) && at + size <= s.usableEnd && RangeWithinRel32(s.begin, s.usableEnd, hint)
  }

  ghost predicate AllIn(was: set<Slot>, now: set<Slot>) {
    forall s :: s in was ==> s in now
  }

  ghost predicate NoneAt(live: set<Slot>, at: nat) {
    forall s :: s in live ==> s.begin != at
  }

  /** No byte in common. */
  predicate RangesApart(a: nat, size: nat, b: nat, other: nat) {
    size == 0 || other == 0 || a + size <= b || b + other <= a
  }

  /** The range lies in the usable part of a slot. */
  ghost predicate InUse(live: set<Slot>, at: nat, size: nat) {
    exists s :: s in live && s.begin <= at && at + size <= s.usableEnd
  }

  /** The range is mapped, and no part of the allocator's. */
  ghost predicate Foreign(bytes: Bytes, pools: seq<Pool>, at: nat, size: nat) {
    forall a: nat :: at <= a < at + size ==> a in bytes && !InPools(pools, a)
  }

  ghost predicate Holds(bytes: Bytes, at: nat, content: seq<byte>) {
    forall a :: at <= a < at + |content| ==> a in bytes && bytes[a] == content[a - at]
  }

  /** What the allocator granted shares no byte with a range in another slot or outside the pools. */
  lemma GrantApart(page: nat, was: set<Slot>, pools: seq<Pool>, s: Slot, hint: nat, span: nat, at: nat, size: nat)
    requires Granted(page, was, pools, s, hint, span)
    ensures InUse(was, at, size) ==> RangesApart(s.begin, span, at, size)
  {
    hide ArenaOk, LiveSlots, InsidePool, RangeWithinRel32;
    if InUse(was, at, size) {
      var t :| t in was && t.begin <= at && at + size <= t.usableEnd;
      assert t in LiveSlots(pools) && SlotsApart(s, t);
      LiveBounds(page, pools, t);
    }
  }

  lemma ForeignApart(pools: seq<Pool>, bytes: Bytes, s: Slot, size: nat, at: nat, other: nat)
    requires InsidePool(pools, s) && s.begin + size <= s.extentEnd && Foreign(bytes, pools, at, other)
    ensures RangesApart(s.begin, size, at, other)
  {
    var a := Max(s.begin, at);
    assert s.begin <= a < s.begin + size ==> InPools(pools, a);
  }

  /** A block of this size cannot be reserved near the hint. */
  ghost predicate NoRoomFor(page: nat, floor: nat, bytes: Bytes, pools: seq<Pool>, hint: nat, size: nat)
    requires page > 0
  {
    !Reservable(page, size) || Crowded(page, floor, bytes, pools, hint, Span(page, size))
  }

  /** Reserve a block and write its first bytes. Every range that was apart from the allocator's stays so. */
  method ReserveFilled(pages: CodePages, hint: nat, content: seq<byte>) returns (at: Option<nat>, ghost s: Slot, ghost span: nat)
    requires pages.Valid() && hint <= MAX_64
    modifies pages, pages.memory
    ensures pages.Valid()
    ensures at.None? ==> pages.pools == old(pages.pools) && pages.owned == old(pages.owned) && pages.memory.bytes == old(pages.memory.bytes)
    ensures at.Some? ==> at.value !in old(pages.owned) && pages.owned == old(pages.owned) + {at.value} && at.value <= MAX_64
    ensures at.Some? ==> s.begin == at.value && |content| <= span && Granted(pages.page, old(LiveSlots(pages.pools)), pages.pools, s, hint, span)
    ensures at.Some? ==> Holds(pages.memory.bytes, at.value, content)
    ensures at.Some? ==> forall a :: a in old(pages.memory.bytes) && !InPools(old(pages.pools), a) ==>
                           a in pages.memory.bytes && !InPools(pages.pools, a)
    ensures at.Some? ==> forall a :: a in old(pages.memory.bytes) && !(s.begin <= a < s.usableEnd) ==>
                           a in pages.memory.bytes && pages.memory.bytes[a] == old(pages.memory.bytes)[a]
    ensures pages.memory.refused >= old(pages.memory.refused)
    ensures at.None? && pages.memory.refused == old(pages.memory.refused) ==>
              NoRoomFor(pages.page, pages.floor, old(pages.memory.bytes), old(pages.pools), hint, |content|)
  {
    hide ArenaOk, PoolRangesMapped, OwnersOk, LiveSlots, InPools, Granted, Crowded, Full, FirstRoom, CodePages.NewNearest;
    at, s, span := None, Slot(0, 0, 0, false, false, false), 0;
    if |content| > MAX_64 {
      return;
    }
    var h := pages.ReserveNear(hint, |content|);
    if h.Some? {
      span := Span(pages.page, |content|);
      s :| s.begin == h.value.begin && Granted(pages.page, LiveSlots(old(pages.pools)), pages.pools, s, hint, span)
           && Reserved(pages.page, old(pages.memory.bytes), old(pages.pools), pages.memory.bytes, pages.pools, s);
      GrantMapped(pages.page, LiveSlots(old(pages.pools)), pages.pools, pages.memory.bytes, s, hint, span);
      ghost var mid := pages.memory.bytes;
      pages.memory.Copy(h.value.begin, content);
      SameRangesMapped(pages.pools, pages.pools, mid, pages.memory.bytes);
      at := Some(h.value.begin);
    }
  }

  lemma GrantMapped(page: nat, was: set<Slot>, pools: seq<Pool>, bytes: Bytes, s: Slot, hint: nat, span: nat)
    requires Granted(page, was, pools, s, hint, span) && PoolRangesMapped(bytes, pools)
    ensures MappedRange(bytes, s.begin, s.usableEnd) && s.usableEnd == s.begin + span <= MAX_64
  {
    var p :| 0 <= p < |pools| && pools[p].begin <= s.begin && s.extentEnd <= pools[p].end;
    assert MappedRange(bytes, pools[p].begin, pools[p].end);
  }

  lemma SlotMapped(page: nat, pools: seq<Pool>, bytes: Bytes, t: Slot)
    requires ArenaOk(page, pools) && PoolRangesMapped(bytes, pools) && t in LiveSlots(pools)
    ensures MappedRange(bytes, t.begin, t.usableEnd)
  {
    var p, i := Locate(pools, t);
    SlotInPool(page, pools[p], i);
    assert MappedRange(bytes, pools[p].begin, pools[p].end);
  }

  /** Destroy the handles again. Other slots stay. */
  method GiveBack(pages: CodePages, begins: seq<nat>)
    requires pages.Valid() && (forall j, k :: 0 <= j < k < |begins| ==> begins[j] != begins[k])
    requires forall k :: 0 <= k < |begins| ==> begins[k] in pages.owned
    modifies pages, pages.memory
    ensures pages.Valid() && pages.owned == old(pages.owned) - (set b | b in begins)
    ensures forall s :: s in old(LiveSlots(pages.pools)) && s.begin !in begins ==> s in LiveSlots(pages.pools)
    ensures pages.memory.refused >= old(pages.memory.refused)
  {
    hide ArenaOk, PoolRangesMapped, OwnersOk, LiveSlots, SameRanges, ChangedWithin, Rewritten;
    for n := 0 to |begins|
      invariant pages.Valid() && pages.owned == old(pages.owned) - (set b | b in begins[..n])
      invariant forall s :: s in old(LiveSlots(pages.pools)) && s.begin !in begins[..n] ==> s in LiveSlots(pages.pools)
      invariant pages.memory.refused >= old(pages.memory.refused)
    {
      assert begins[n] !in begins[..n];
      assert begins[..n + 1] == begins[..n] + [begins[n]];
      var _ := pages.Reclaim(begins[n]);
    }
    assert begins[..|begins|] == begins;
  }
}
