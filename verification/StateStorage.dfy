/** Binding an object's mutable symbols through the allocator: fresh storage is reserved near the code it belongs to. */
module StateStorage {
  import opened Wrappers
  import opened Words
  import opened LiveMemory
  import opened Arena
  import opened CodePages
  import opened StateTable
  import opened StateBinding
  import opened Relocations
  import opened Reservations

  predicate BesideOther(a: Definition, d: Definition) {
    RangesApart(a.address, a.size, d.address, d.size)
  }

  /** A range clear of committed storage and of the program's own variables. */
  predicate BesideOld(b: Binder, at: nat, size: nat) {
    && (forall k :: 0 <= k < |b.committed| ==> RangesApart(at, size, b.committed[k].address, b.committed[k].size))
    && (forall i :: i in b.live && i in b.liveSize ==> RangesApart(at, size, b.live[i], b.liveSize[i]))
  }

  /** Fresh storage is in use nowhere else. */
  ghost predicate BroughtApart(b: Binder, brought: seq<Brought>) {
    && (forall j, k :: 0 <= j < k < |brought| ==> BesideOther(brought[j].definition, brought[k].definition))
    && (forall j :: 0 <= j < |brought| ==> BesideOld(b, brought[j].definition.address, brought[j].definition.size))
  }

  /** Committed storage lies in slots of the allocator, and the program's variables outside its pools. */
  ghost predicate Settled(b: Binder, bytes: Bytes, pools: seq<Pool>) {
    && (forall k :: 0 <= k < |b.committed| ==> InUse(LiveSlots(pools), b.committed[k].address, b.committed[k].size))
    && (forall i :: i in b.live && i in b.liveSize ==> Foreign(bytes, pools, b.live[i], b.liveSize[i]))
  }

  /** Each piece has a slot of its own near the hint, and starts with its initial bytes. */
  ghost predicate AllHoused(live: set<Slot>, bytes: Bytes, brought: seq<Brought>, hint: nat) {
    && (forall k :: 0 <= k < |brought| ==> PieceHoused(live, bytes, brought[k], hint))
    && (forall j, k :: 0 <= j < k < |brought| ==> brought[j].definition.address != brought[k].definition.address)
  }

  ghost predicate PieceHoused(live: set<Slot>, bytes: Bytes, d: Brought, hint: nat) {
    Housed(live, d.definition.address, d.definition.size, hint) && Holds(bytes, d.definition.address, d.contents)
  }

  function BroughtAt(brought: seq<Brought>): (r: seq<nat>)
    ensures |r| == |brought| && forall k :: 0 <= k < |r| ==> r[k] == brought[k].definition.address
  {
    seq(|brought|, k requires 0 <= k < |brought| => brought[k].definition.address)
  }

  lemma NothingHoused(b: Binder, live: set<Slot>, bytes: Bytes, hint: nat)
    ensures AllHoused(live, bytes, [], hint) && BroughtApart(b, []) && BroughtAt([]) == []
  {
  }

  /** One more block: what was housed stays so, and nothing overlaps. */
  lemma HousesMore(
    b: Binder, page: nat, was: set<Slot>, bytes: Bytes, pools: seq<Pool>, bytes': Bytes, s: Slot, hint: nat, span: nat,
    brought: seq<Brought>, d: Brought)
    requires Granted(page, was, pools, s, hint, span) && AllHoused(was, bytes, brought, hint)
    requires d.definition.address == s.begin && d.definition.size == |d.contents| <= span && Holds(bytes', s.begin, d.contents)
    requires forall a :: a in bytes && !(s.begin <= a < s.usableEnd) ==> a in bytes' && bytes'[a] == bytes[a]
    requires forall k :: 0 <= k < |brought| ==> |brought[k].contents| == brought[k].definition.size
    ensures AllHoused(LiveSlots(pools), bytes', brought + [d], hint)
    ensures forall k :: 0 <= k < |brought| ==> BesideOther(brought[k].definition, d.definition)
  {
    hide ArenaOk, LiveSlots, InsidePool, RangeWithinRel32;
    var more := brought + [d];
    assert SlotFor(LiveSlots(pools), s.begin, s);
    forall k | 0 <= k < |brought|
      ensures PieceHoused(LiveSlots(pools), bytes', brought[k], hint) && brought[k].definition.address != s.begin
      ensures BesideOther(brought[k].definition, d.definition)
    {
      assert PieceHoused(was, bytes, brought[k], hint);
      PieceStays(page, was, bytes, pools, bytes', s, hint, span, brought[k]);
    }
    forall k | 0 <= k < |more|
      ensures PieceHoused(LiveSlots(pools), bytes', more[k], hint)
    {
      if k < |brought| {
        assert more[k] == brought[k];
      }
    }
  }

  lemma PieceStays(page: nat, was: set<Slot>, bytes: Bytes, pools: seq<Pool>, bytes': Bytes, s: Slot, hint: nat, span: nat, e: Brought)
    requires Granted(page, was, pools, s, hint, span) && PieceHoused(was, bytes, e, hint) && |e.contents| == e.definition.size
    requires forall a :: a in bytes && !(s.begin <= a < s.usableEnd) ==> a in bytes' && bytes'[a] == bytes[a]
    ensures PieceHoused(LiveSlots(pools), bytes', e, hint) && e.definition.address != s.begin
    ensures RangesApart(e.definition.address, e.definition.size, s.begin, span)
  {
    hide ArenaOk, LiveSlots, InsidePool, RangeWithinRel32;
    var t :| SlotFor(was, e.definition.address, t) && e.definition.address + e.definition.size <= t.usableEnd && RangeWithinRel32(t.begin, t.usableEnd, hint);
    LiveBounds(page, pools, t);
    LiveBounds(page, pools, s);
    assert SlotsApart(s, t) && SlotFor(LiveSlots(pools), e.definition.address, t);
  }

  lemma SettledApart(
    b: Binder, page: nat, was: set<Slot>, pools: seq<Pool>, pools': seq<Pool>, bytes: Bytes, s: Slot, hint: nat, span: nat, size: nat)
    requires Settled(b, bytes, pools) && was == LiveSlots(pools) && Granted(page, was, pools', s, hint, span) && size <= span
    requires forall a :: a in bytes && !InPools(pools, a) ==> !InPools(pools', a)
    ensures BesideOld(b, s.begin, size)
  {
    hide ArenaOk, LiveSlots, InPools, InsidePool;
    forall k | 0 <= k < |b.committed|
      ensures RangesApart(s.begin, size, b.committed[k].address, b.committed[k].size)
    {
      GrantApart(page, was, pools', s, hint, span, b.committed[k].address, b.committed[k].size);
    }
    forall i | i in b.live && i in b.liveSize
      ensures RangesApart(s.begin, size, b.live[i], b.liveSize[i])
    {
      assert Foreign(bytes, pools, b.live[i], b.liveSize[i]);
      GrantInside(page, was, pools', s, hint, span);
      ForeignApart(pools', bytes, s, size, b.live[i], b.liveSize[i]);
    }
  }

  lemma GrantInside(page: nat, was: set<Slot>, pools: seq<Pool>, s: Slot, hint: nat, span: nat)
    requires Granted(page, was, pools, s, hint, span)
    ensures InsidePool(pools, s) && s.begin + span <= s.extentEnd
  {
  }

  lemma SettledStays(b: Binder, bytes: Bytes, pools: seq<Pool>, bytes': Bytes, pools': seq<Pool>)
    requires Settled(b, bytes, pools) && AllIn(LiveSlots(pools), LiveSlots(pools'))
    requires forall a :: a in bytes && !InPools(pools, a) ==> a in bytes' && !InPools(pools', a)
    ensures Settled(b, bytes', pools')
  {
    hide LiveSlots, InPools;
    forall k | 0 <= k < |b.committed|
      ensures InUse(LiveSlots(pools'), b.committed[k].address, b.committed[k].size)
    {
      assert InUse(LiveSlots(pools), b.committed[k].address, b.committed[k].size);
      var s :| s in LiveSlots(pools) && s.begin <= b.committed[k].address && b.committed[k].address + b.committed[k].size <= s.usableEnd;
      assert s in LiveSlots(pools');
    }
    forall i | i in b.live && i in b.liveSize
      ensures Foreign(bytes', pools', b.live[i], b.liveSize[i])
    {
      assert Foreign(bytes, pools, b.live[i], b.liveSize[i]);
    }
  }

  lemma BroughtMore(b: Binder, brought: seq<Brought>, d: Brought)
    requires BroughtApart(b, brought) && BesideOld(b, d.definition.address, d.definition.size)
    requires forall k :: 0 <= k < |brought| ==> BesideOther(brought[k].definition, d.definition)
    ensures BroughtApart(b, brought + [d])
  {
    hide BesideOld, BesideOther;
  }

  /** The allocator and its memory at some moment. */
  datatype Ground = Ground(bytes: Bytes, pools: seq<Pool>, owned: set<nat>)

  /** A new symbol for which there was no room once the pieces `brought` had theirs. */
  ghost predicate NoRoomAt(page: nat, floor: nat, b: Binder, i: nat, crowd: Ground, hint: nat)
    requires page > 0
  {
    b.Mutable(i) && !HasCommitted(b, i) && i !in b.live
    && NoRoomFor(page, floor, crowd.bytes, crowd.pools, hint, b.obj.symbols[i].size)
  }

  /** Bind every mutable symbol, or refuse and give back what was reserved. Committed storage comes first, then the program's own,
      then fresh storage, which has a slot near the hint and its initial bytes, and is in use nowhere else. `starved` tells that
      there was no memory: if the kernel refused nothing, there was no room for a symbol. */
  method BindState(b: Binder, pages: CodePages, hint: address)
    returns (r: Option<map<nat, Storage>>, brought: seq<Brought>, starved: bool, ghost crowd: Ground)
    requires pages.Valid()
    modifies pages, pages.memory
    ensures pages.Valid()
    ensures r.Some? ==> BoundTo(b, |b.obj.symbols|, r.value, brought)
    ensures r.Some? ==> forall i: nat :: b.Mutable(i) ==> i in r.value && BoundRight(b, i, r.value[i], brought) && !Unbindable(b, i)
    ensures r.None? && !starved ==> exists i: nat :: b.Mutable(i) && Unbindable(b, i)
    ensures pages.memory.refused >= old(pages.memory.refused)
    ensures starved && pages.memory.refused == old(pages.memory.refused) ==>
              TookAs(LiveSlots(crowd.pools), crowd.bytes, crowd.owned, old(pages.owned), old(LiveSlots(pages.pools)), brought, hint)
              && exists i: nat :: NoRoomAt(pages.page, pages.floor, b, i, crowd, hint)
    ensures r.Some? ==> Took(pages, old(pages.owned), old(LiveSlots(pages.pools)), brought, hint)
    ensures r.Some? && old(Settled(b, pages.memory.bytes, pages.pools)) ==> BroughtApart(b, brought)
    ensures r.Some? ==> forall a :: a in old(pages.memory.bytes) && !InPools(old(pages.pools), a) ==>
                          a in pages.memory.bytes && !InPools(pages.pools, a)
    ensures r.None? ==> pages.owned == old(pages.owned) && AllIn(old(LiveSlots(pages.pools)), LiveSlots(pages.pools))
  {
    hide OriginOf, BoundTo, Initial, FreshDefinition, BroughtApart, TookAs, Settled, LiveSlots, InPools, ArenaOk, PoolRangesMapped, OwnersOk,
      Unbindable, BoundRight, HasCommitted, NoRoomFor;
    brought, starved, crowd := [], false, Ground(pages.memory.bytes, pages.pools, pages.owned);
    var storage: map<nat, Storage> := map[];
    ghost var owned, live := pages.owned, LiveSlots(pages.pools);
    NothingBound(b);
    TookNothing(b, pages, hint);
    for i := 0 to |b.obj.symbols|
      invariant pages.Valid() && BoundTo(b, i, storage, brought) && Took(pages, owned, live, brought, hint)
      invariant pages.memory.refused >= old(pages.memory.refused)
      invariant forall j: nat :: j < i && b.Mutable(j) ==> !OriginOf(b, j).NoOrigin?
      invariant old(Settled(b, pages.memory.bytes, pages.pools)) ==> Settled(b, pages.memory.bytes, pages.pools) && BroughtApart(b, brought)
      invariant forall a :: a in old(pages.memory.bytes) && !InPools(old(pages.pools), a) ==> a in pages.memory.bytes && !InPools(pages.pools, a)
    {
      BindsOne(b, i, storage, brought);
      if !b.Mutable(i) {
        continue;
      }
      var origin := OriginOf(b, i);
      OriginNeedsExtent(b, i);
      OriginMeans(b, i);
      match origin {
        case NoOrigin =>
          GiveUp(pages, owned, live, brought, hint);
          return None, brought, starved, crowd;
        case Bound(address) =>
          storage := storage[i := Storage(address, b.obj.symbols[i].size)];
        case Fresh(identity) =>
          crowd := Ground(pages.memory.bytes, pages.pools, pages.owned);
          var at := BindFresh(b, i, identity, pages, hint, brought, owned, live);
          if at.None? {
            assert pages.memory.refused == old(pages.memory.refused) ==> NoRoomAt(pages.page, pages.floor, b, i, crowd, hint);
            GiveUp(pages, owned, live, brought, hint);
            return None, brought, true, crowd;
          }
          BringsOne(b, i, storage, brought, at.value);
          storage := storage[i := Storage(at.value, b.obj.symbols[i].size)];
          brought := brought + [Brought(i, FreshDefinition(b, i, identity, at.value), Initial(b, i))];
      }
    }
    r := Some(storage);
    forall i: nat | b.Mutable(i)
      ensures i in storage && BoundRight(b, i, storage[i], brought) && !Unbindable(b, i)
    {
      BindingMeans(b, storage, brought, i);
      OriginMeans(b, i);
    }
  }

  lemma TookNothing(b: Binder, pages: CodePages, hint: nat)
    ensures Took(pages, pages.owned, LiveSlots(pages.pools), [], hint) && BroughtApart(b, [])
  {
  }

  /** Fresh storage for one symbol. */
  method BindFresh(b: Binder, i: nat, identity: string, pages: CodePages, hint: address, brought: seq<Brought>, ghost owned: set<nat>, ghost live: set<Slot>)
    returns (at: Option<address>)
    requires pages.Valid() && Took(pages, owned, live, brought, hint) && b.Mutable(i) && b.ExtentOk(i)
    modifies pages, pages.memory
    ensures pages.Valid()
    ensures at.None? ==> Took(pages, owned, live, brought, hint)
    ensures at.Some? ==> Took(pages, owned, live, brought + [Brought(i, FreshDefinition(b, i, identity, at.value), Initial(b, i))], hint)
    ensures at.Some? && old(Settled(b, pages.memory.bytes, pages.pools)) && BroughtApart(b, brought) ==>
              BroughtApart(b, brought + [Brought(i, FreshDefinition(b, i, identity, at.value), Initial(b, i))])
    ensures old(Settled(b, pages.memory.bytes, pages.pools)) ==> Settled(b, pages.memory.bytes, pages.pools)
    ensures forall a :: a in old(pages.memory.bytes) && !InPools(old(pages.pools), a) ==> a in pages.memory.bytes && !InPools(pages.pools, a)
    ensures pages.memory.refused >= old(pages.memory.refused)
    ensures at.None? && pages.memory.refused == old(pages.memory.refused) ==>
              NoRoomFor(pages.page, pages.floor, old(pages.memory.bytes), old(pages.pools), hint, b.obj.symbols[i].size)
  {
    hide NoRoomFor, Initial, BroughtApart, Settled, LiveSlots, InPools, ArenaOk, PoolRangesMapped, OwnersOk, Granted,
      AllHoused, Holds, BesideOld, BesideOther, TookAs;
    ghost var bytes, pools, mine := pages.memory.bytes, pages.pools, pages.owned;
    ghost var s, span;
    var got;
    got, s, span := ReserveFilled(pages, hint, Initial(b, i));
    at := None;
    if got.Some? {
      var place: address := got.value;
      at := Some(place);
      ghost var d := Brought(i, FreshDefinition(b, i, identity, place), Initial(b, i));
      TookMore(b, pages.page, LiveSlots(pools), bytes, mine, pages.pools, pages.memory.bytes, owned, live, brought, d, s, hint, span);
      if Settled(b, bytes, pools) {
        SettledApart(b, pages.page, LiveSlots(pools), pools, pages.pools, bytes, s, hint, span, |d.contents|);
        GrantKeeps(pages.page, LiveSlots(pools), pages.pools, s, hint, span);
        SettledStays(b, bytes, pools, pages.memory.bytes, pages.pools);
        if BroughtApart(b, brought) {
          BroughtMore(b, brought, d);
        }
      }
    }
  }

  lemma GrantKeeps(page: nat, was: set<Slot>, pools: seq<Pool>, s: Slot, hint: nat, span: nat)
    requires Granted(page, was, pools, s, hint, span)
    ensures AllIn(was, LiveSlots(pools))
  {
  }

  /** Give back every piece that was reserved. */
  method GiveUp(pages: CodePages, ghost owned: set<nat>, ghost live: set<Slot>, brought: seq<Brought>, ghost hint: nat)
    requires pages.Valid() && Took(pages, owned, live, brought, hint)
    modifies pages, pages.memory
    ensures pages.Valid() && pages.owned == owned && AllIn(live, LiveSlots(pages.pools))
    ensures pages.memory.refused >= old(pages.memory.refused)
  {
    hide LiveSlots, ArenaOk, PoolRangesMapped, OwnersOk, PieceHoused;
    GiveBack(pages, BroughtAt(brought));
  }

  /** Since `owned` and `live`, just the handles of these pieces came, each on a new slot. */
  ghost predicate Took(pages: CodePages, owned: set<nat>, live: set<Slot>, brought: seq<Brought>, hint: nat)
    reads pages, pages.memory`bytes
  {
    TookAs(LiveSlots(pages.pools), pages.memory.bytes, pages.owned, owned, live, brought, hint)
  }

  ghost predicate TookAs(
    now: set<Slot>, bytes: Bytes, ownedNow: set<nat>, owned: set<nat>, live: set<Slot>, brought: seq<Brought>, hint: nat)
  {
    && AllHoused(now, bytes, brought, hint) && AllIn(live, now)
    && ownedNow == owned + (set a | a in BroughtAt(brought))
    && (forall k :: 0 <= k < |brought| ==> NewPiece(owned, live, brought[k]))
  }

  ghost predicate NewPiece(owned: set<nat>, live: set<Slot>, d: Brought) {
    d.definition.address !in owned && NoneAt(live, d.definition.address) && |d.contents| == d.definition.size
  }

  lemma TookMore(
    b: Binder, page: nat, was: set<Slot>, bytes: Bytes, ownedWas: set<nat>, pools: seq<Pool>, bytes': Bytes, owned: set<nat>, live: set<Slot>,
    brought: seq<Brought>, d: Brought, s: Slot, hint: nat, span: nat)
    requires TookAs(was, bytes, ownedWas, owned, live, brought, hint) && Granted(page, was, pools, s, hint, span)
    requires d.definition.address == s.begin && d.definition.size == |d.contents| <= span && Holds(bytes', s.begin, d.contents)
    requires forall a :: a in bytes && !(s.begin <= a < s.usableEnd) ==> a in bytes' && bytes'[a] == bytes[a]
    requires s.begin !in ownedWas
    ensures TookAs(LiveSlots(pools), bytes', ownedWas + {s.begin}, owned, live, brought + [d], hint)
    ensures forall k :: 0 <= k < |brought| ==> BesideOther(brought[k].definition, d.definition)
  {
    hide Granted, AllHoused, Holds, LiveSlots, BesideOther;
    assert forall k :: 0 <= k < |brought| ==> NewPiece(owned, live, brought[k]);
    HousesMore(b, page, was, bytes, pools, bytes', s, hint, span, brought, d);
    GrantKeeps(page, was, pools, s, hint, span);
    GrantNew(page, was, pools, s, hint, span);
    assert NewPiece(owned, live, d);
    assert BroughtAt(brought + [d]) == BroughtAt(brought) + [s.begin];
  }

  /** What happens in another slot leaves every piece alone. */
  lemma HousedKept(page: nat, pools: seq<Pool>, bytes: Bytes, bytes': Bytes, brought: seq<Brought>, hint: nat, t: Slot, now: set<Slot>)
    requires ArenaOk(page, pools) && AllHoused(LiveSlots(pools), bytes, brought, hint) && t in LiveSlots(pools)
    requires ChangedWithin(bytes, bytes', t.begin, t.usableEnd) && LiveSlots(pools) - {t} <= now
    requires forall k :: 0 <= k < |brought| ==> brought[k].definition.address != t.begin && |brought[k].contents| == brought[k].definition.size
    ensures AllHoused(now, bytes', brought, hint)
  {
    hide ArenaOk, LiveSlots;
    forall k | 0 <= k < |brought|
      ensures PieceHoused(now, bytes', brought[k], hint)
    {
      var e := brought[k];
      assert PieceHoused(LiveSlots(pools), bytes, e, hint);
      var u :| SlotFor(LiveSlots(pools), e.definition.address, u) && e.definition.address + e.definition.size <= u.usableEnd
               && RangeWithinRel32(u.begin, u.usableEnd, hint);
      LiveSlotsDisjoint(page, pools, u, t);
      LiveBounds(page, pools, u);
      LiveBounds(page, pools, t);
      assert SlotFor(now, e.definition.address, u);
    }
  }

  lemma TookHouses(now: set<Slot>, bytes: Bytes, ownedNow: set<nat>, owned: set<nat>, live: set<Slot>, brought: seq<Brought>, hint: nat, at: nat)
    requires TookAs(now, bytes, ownedNow, owned, live, brought, hint) && at in owned
    ensures AllHoused(now, bytes, brought, hint) && AllIn(live, now) && at !in BroughtAt(brought)
    ensures ownedNow == owned + (set a | a in BroughtAt(brought))
    ensures forall k :: 0 <= k < |brought| ==> brought[k].definition.address != at && |brought[k].contents| == brought[k].definition.size
  {
    hide AllHoused;
    assert forall k :: 0 <= k < |brought| ==> NewPiece(owned, live, brought[k]);
  }

  lemma TookStill(
    now: set<Slot>, bytes: Bytes, bytes': Bytes, ownedNow: set<nat>, owned: set<nat>, live: set<Slot>, brought: seq<Brought>, hint: nat)
    requires TookAs(now, bytes, ownedNow, owned, live, brought, hint) && AllHoused(now, bytes', brought, hint)
    ensures TookAs(now, bytes', ownedNow, owned, live, brought, hint)
  {
  }

  lemma GrantNew(page: nat, was: set<Slot>, pools: seq<Pool>, s: Slot, hint: nat, span: nat)
    requires Granted(page, was, pools, s, hint, span)
    ensures NoneAt(was, s.begin)
  {
    hide ArenaOk, LiveSlots, InsidePool, RangeWithinRel32;
    forall t | t in was
      ensures t.begin != s.begin
    {
      assert SlotsApart(s, t);
      LiveBounds(page, pools, t);
      LiveBounds(page, pools, s);
    }
  }
}
