/** Pools of executable memory and the slots carved from them, as values. */
module Arena {
  datatype Slot = Slot(
    begin: nat,
    usableEnd: nat,
    extentEnd: nat,
    active: bool,
    processLifetime: bool,
    executable: bool)

  datatype Pool = Pool(begin: nat, end: nat, cursor: nat, slots: seq<Slot>)

  /** A slot keeps at least one page between its usable end and the end of its extent. */
  predicate SlotOk(page: nat, s: Slot) {
    && s.begin <= s.usableEnd
    && s.usableEnd + page <= s.extentEnd
    && (s.active ==> s.begin < s.usableEnd)
  }

  /** Where slot `i` of the pool has to begin: at the end of the slot before it. */
  function SlotStart(pool: Pool, i: nat): nat
    requires i <= |pool.slots|
  {
    if i == 0 then pool.begin else pool.slots[i - 1].extentEnd
  }

  /** The slots tile the pool from its begin up to its cursor, without gap or overlap. */
  predicate Tiled(pool: Pool) {
    && (forall i {:trigger SlotStart(pool, i)} :: 0 <= i < |pool.slots| ==> pool.slots[i].begin == SlotStart(pool, i))
    && pool.cursor == SlotStart(pool, |pool.slots|)
    && pool.cursor <= pool.end && pool.begin < pool.end
  }

  predicate PoolOk(page: nat, pool: Pool) {
    Tiled(pool) && forall i :: 0 <= i < |pool.slots| ==> SlotOk(page, pool.slots[i])
  }

  predicate PoolsApart(p: Pool, q: Pool) {
    p.end <= q.begin || q.end <= p.begin
  }

  predicate ArenaOk(page: nat, pools: seq<Pool>) {
    && page > 0
    && (forall p :: 0 <= p < |pools| ==> PoolOk(page, pools[p]))
    && (forall p, q :: 0 <= p < |pools| && 0 <= q < |pools| && p != q ==> PoolsApart(pools[p], pools[q]))
  }

  predicate IsSlot(pools: seq<Pool>, p: nat, i: nat) {
    p < |pools| && i < |pools[p].slots|
  }

  predicate SlotsApart(s: Slot, t: Slot) {
    s.extentEnd <= t.begin || t.extentEnd <= s.begin
  }

  /** All active slots of all pools. */
  function LiveSlots(pools: seq<Pool>): (live: set<Slot>) {
    set p: nat, i: nat | p < |pools| && i < |pools[p].slots| && pools[p].slots[i].active :: pools[p].slots[i]
  }

  lemma Locate(pools: seq<Pool>, s: Slot) returns (p: nat, i: nat)
    requires s in LiveSlots(pools)
    ensures IsSlot(pools, p, i) && pools[p].slots[i] == s && s.active
  {
    p, i :| p < |pools| && i < |pools[p].slots| && pools[p].slots[i].active && pools[p].slots[i] == s;
  }

  lemma {:induction false} SlotsInOrder(page: nat, pool: Pool, i: nat, j: nat)
    requires PoolOk(page, pool) && i < j < |pool.slots|
    ensures pool.slots[i].extentEnd <= pool.slots[j].begin
  {
    if i + 1 < j {
      SlotsInOrder(page, pool, i, j - 1);
      assert SlotOk(page, pool.slots[j - 1]);
    }
    assert pool.slots[j].begin == SlotStart(pool, j);
  }

  lemma SlotInPool(page: nat, pool: Pool, i: nat)
    requires PoolOk(page, pool) && i < |pool.slots|
    ensures pool.begin <= pool.slots[i].begin && pool.slots[i].extentEnd <= pool.cursor <= pool.end
    ensures SlotOk(page, pool.slots[i])
  {
    var n := |pool.slots| - 1;
    assert pool.slots[0].begin == SlotStart(pool, 0) && pool.cursor == SlotStart(pool, n + 1);
    if i > 0 {
      SlotsInOrder(page, pool, 0, i);
      assert SlotOk(page, pool.slots[0]);
    }
    if i < n {
      SlotsInOrder(page, pool, i, n);
      assert SlotOk(page, pool.slots[n]);
    }
  }

  lemma CursorInPool(page: nat, pool: Pool)
    requires PoolOk(page, pool)
    ensures pool.begin <= pool.cursor <= pool.end
  {
    assert pool.cursor == SlotStart(pool, |pool.slots|);
    if pool.slots != [] {
      SlotInPool(page, pool, 0);
    }
  }

  /** No two slots of the arena overlap, guard pages included. */
  lemma SlotsDisjoint(page: nat, pools: seq<Pool>, p: nat, i: nat, q: nat, j: nat)
    requires ArenaOk(page, pools) && IsSlot(pools, p, i) && IsSlot(pools, q, j) && (p, i) != (q, j)
    ensures SlotsApart(pools[p].slots[i], pools[q].slots[j])
    ensures pools[p].slots[i].begin != pools[q].slots[j].begin
  {
    SlotInPool(page, pools[p], i);
    SlotInPool(page, pools[q], j);
    if p == q {
      SlotsInOrder(page, pools[p], if i < j then i else j, if i < j then j else i);
    } else {
      assert PoolsApart(pools[p], pools[q]);
    }
  }

  /** Active slots are pairwise disjoint and so identified by their begin. */
  lemma LiveSlotsDisjoint(page: nat, pools: seq<Pool>, s: Slot, t: Slot)
    requires ArenaOk(page, pools) && s in LiveSlots(pools) && t in LiveSlots(pools) && s != t
    ensures SlotsApart(s, t) && s.begin != t.begin
  {
    var p, i := Locate(pools, s);
    var q, j := Locate(pools, t);
    SlotsDisjoint(page, pools, p, i, q, j);
  }

  // ---- the three ways the arena changes ----

  function WithSlot(pools: seq<Pool>, p: nat, i: nat, s: Slot): (r: seq<Pool>)
    requires IsSlot(pools, p, i)
    ensures |r| == |pools|
  {
    pools[p := pools[p].(slots := pools[p].slots[i := s])]
  }

  function FreshSlot(page: nat, at: nat, span: nat): Slot {
    Slot(at, at + span, at + span + page, true, false, false)
  }

  /** The pool after a slot of `span` usable bytes and one guard page is cut at its cursor. */
  function Carved(page: nat, pool: Pool, span: nat): Pool {
    pool.(cursor := pool.cursor + span + page, slots := pool.slots + [FreshSlot(page, pool.cursor, span)])
  }

  lemma WithSlotTiled(page: nat, pool: Pool, i: nat, s: Slot)
    requires PoolOk(page, pool) && i < |pool.slots| && SlotOk(page, s)
    requires s.begin == pool.slots[i].begin && s.extentEnd == pool.slots[i].extentEnd
    ensures PoolOk(page, pool.(slots := pool.slots[i := s]))
  {
    var pool' := pool.(slots := pool.slots[i := s]);
    forall k | 0 <= k <= |pool.slots|
      ensures SlotStart(pool', k) == SlotStart(pool, k)
    {
    }
    forall k | 0 <= k < |pool'.slots|
      ensures pool'.slots[k].begin == SlotStart(pool', k) && SlotOk(page, pool'.slots[k])
    {
      assert pool.slots[k].begin == SlotStart(pool, k) && SlotOk(page, pool.slots[k]);
    }
  }

  lemma WithSlotLive(page: nat, pools: seq<Pool>, p: nat, i: nat, s: Slot, t: Slot)
    requires ArenaOk(page, pools) && IsSlot(pools, p, i)
    ensures t in LiveSlots(WithSlot(pools, p, i, s)) <==>
            (t in LiveSlots(pools) && t != pools[p].slots[i]) || (s.active && t == s)
  {
    var pools' := WithSlot(pools, p, i, s);
    if t in LiveSlots(pools') {
      var q, j := Locate(pools', t);
      if (q, j) != (p, i) {
        assert pools[q].slots[j] == t;
        SlotsDisjoint(page, pools, p, i, q, j);
      }
    }
    if t in LiveSlots(pools) && t != pools[p].slots[i] {
      var q, j := Locate(pools, t);
      assert pools'[q].slots[j] == t;
    }
    if s.active && t == s {
      assert pools'[p].slots[i] == t;
    }
  }

  /** Replacing one slot by a well-formed one with the same extent keeps the arena and
      changes no other active slot. */
  lemma WithSlotOk(page: nat, pools: seq<Pool>, p: nat, i: nat, s: Slot)
    requires ArenaOk(page, pools) && IsSlot(pools, p, i) && SlotOk(page, s)
    requires s.begin == pools[p].slots[i].begin && s.extentEnd == pools[p].slots[i].extentEnd
    ensures ArenaOk(page, WithSlot(pools, p, i, s))
    ensures LiveSlots(WithSlot(pools, p, i, s))
         == LiveSlots(pools) - {pools[p].slots[i]} + if s.active then {s} else {}
  {
    WithSlotTiled(page, pools[p], i, s);
    forall t
      ensures t in LiveSlots(WithSlot(pools, p, i, s)) <==>
              (t in LiveSlots(pools) && t != pools[p].slots[i]) || (s.active && t == s)
    {
      WithSlotLive(page, pools, p, i, s, t);
    }
  }

  lemma CarvedTiled(page: nat, pool: Pool, span: nat)
    requires PoolOk(page, pool) && span > 0 && span + page <= pool.end - pool.cursor
    ensures PoolOk(page, Carved(page, pool, span))
  {
    var pool' := Carved(page, pool, span);
    forall k | 0 <= k <= |pool.slots|
      ensures SlotStart(pool', k) == SlotStart(pool, k)
    {
    }
    forall k | 0 <= k < |pool'.slots|
      ensures pool'.slots[k].begin == SlotStart(pool', k) && SlotOk(page, pool'.slots[k])
    {
      if k < |pool.slots| {
        assert pool.slots[k].begin == SlotStart(pool, k) && SlotOk(page, pool.slots[k]);
      }
    }
  }

  lemma CarvedLive(page: nat, pools: seq<Pool>, p: nat, span: nat, t: Slot)
    requires p < |pools|
    ensures t in LiveSlots(pools[p := Carved(page, pools[p], span)]) <==>
            t in LiveSlots(pools) || t == FreshSlot(page, pools[p].cursor, span)
  {
    var s := FreshSlot(page, pools[p].cursor, span);
    var pools' := pools[p := Carved(page, pools[p], span)];
    if t in LiveSlots(pools') && t != s {
      var q, j := Locate(pools', t);
      assert pools[q].slots[j] == t;
    }
    if t in LiveSlots(pools) {
      var q, j := Locate(pools, t);
      assert pools'[q].slots[j] == t;
    }
    if t == s {
      assert pools'[p].slots[|pools[p].slots|] == s;
    }
  }

  lemma CarvedApart(page: nat, pools: seq<Pool>, p: nat, span: nat, t: Slot)
    requires ArenaOk(page, pools) && p < |pools| && t in LiveSlots(pools)
    requires span + page <= pools[p].end - pools[p].cursor
    ensures SlotsApart(t, FreshSlot(page, pools[p].cursor, span))
  {
    var q, j := Locate(pools, t);
    SlotInPool(page, pools[q], j);
    CursorInPool(page, pools[p]);
    assert q == p || PoolsApart(pools[p], pools[q]);
  }

  /** Carving a slot keeps the arena and adds one active slot, apart from all others. */
  lemma CarvedOk(page: nat, pools: seq<Pool>, p: nat, span: nat)
    requires ArenaOk(page, pools) && p < |pools|
    requires span > 0 && span + page <= pools[p].end - pools[p].cursor
    ensures ArenaOk(page, pools[p := Carved(page, pools[p], span)])
    ensures LiveSlots(pools[p := Carved(page, pools[p], span)])
         == LiveSlots(pools) + {FreshSlot(page, pools[p].cursor, span)}
    ensures forall t :: t in LiveSlots(pools) ==> SlotsApart(t, FreshSlot(page, pools[p].cursor, span))
  {
    CarvedTiled(page, pools[p], span);
    forall t
      ensures t in LiveSlots(pools[p := Carved(page, pools[p], span)]) <==>
              t in LiveSlots(pools) || t == FreshSlot(page, pools[p].cursor, span)
    {
      CarvedLive(page, pools, p, span, t);
    }
    forall t | t in LiveSlots(pools)
      ensures SlotsApart(t, FreshSlot(page, pools[p].cursor, span))
    {
      CarvedApart(page, pools, p, span, t);
    }
  }

  /** Adding an empty pool on fresh ground keeps the arena and its active slots. */
  lemma NewPoolOk(page: nat, pools: seq<Pool>, begin: nat, end: nat)
    requires ArenaOk(page, pools) && begin < end
    requires forall p :: 0 <= p < |pools| ==> PoolsApart(pools[p], Pool(begin, end, begin, []))
    ensures ArenaOk(page, pools + [Pool(begin, end, begin, [])])
    ensures LiveSlots(pools + [Pool(begin, end, begin, [])]) == LiveSlots(pools)
  {
    var pools' := pools + [Pool(begin, end, begin, [])];
    forall t
      ensures t in LiveSlots(pools') <==> t in LiveSlots(pools)
    {
      if t in LiveSlots(pools) {
        var q, j := Locate(pools, t);
        assert pools'[q].slots[j] == t;
      }
      if t in LiveSlots(pools') {
        var q, j := Locate(pools', t);
        assert pools[q].slots[j] == t;
      }
    }
  }
}
