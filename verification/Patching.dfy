/** Batches of five-byte patches over live memory: writing them, and rolling them back. */
module Patching {
  import opened Words
  import opened LiveMemory

  const WINDOW: nat := 5

  type Window = s: seq<byte> | |s| == WINDOW witness [0, 0, 0, 0, 0]

  datatype Patch = Patch(entry: nat, code: Window)

  ghost predicate AllMapped(m: Bytes, batch: seq<Patch>) {
    forall j :: 0 <= j < |batch| ==> Mapped(m, batch[j].entry, WINDOW)
  }

  /** No two entries of the batch are closer than one window. */
  ghost predicate Spaced(batch: seq<Patch>) {
    forall i, j :: 0 <= i < j < |batch| ==>
      batch[i].entry + WINDOW <= batch[j].entry || batch[j].entry + WINDOW <= batch[i].entry
  }

  predicate Covers(r: Patch, a: int) {
    r.entry <= a < r.entry + WINDOW
  }

  /** `a` lies in a window of one of the first `n` patches. */
  ghost predicate Touched(batch: seq<Patch>, n: nat, a: nat) {
    exists j :: 0 <= j < n <= |batch| && Covers(batch[j], a)
  }

  /** `m` after one patch is written. */
  function Patched(m: Bytes, r: Patch): (w: Bytes)
    ensures w.Keys == m.Keys
    ensures forall a :: a in m ==> w[a] == if Covers(r, a) then r.code[a - r.entry] else m[a]
  {
    map a | a in m :: if Covers(r, a) then r.code[a - r.entry] else m[a]
  }

  lemma PatchedIsWrite(m: Bytes, r: Patch)
    ensures Patched(m, r) == Write(m, r.entry, r.code)
  {
  }

  /** `m` after the first `n` patches of the batch are written in order. */
  function PatchFirst(m: Bytes, batch: seq<Patch>, n: nat): (w: Bytes)
    requires n <= |batch|
    ensures w.Keys == m.Keys
  {
    if n == 0 then m else Patched(PatchFirst(m, batch, n - 1), batch[n - 1])
  }

  lemma PatchNone(m: Bytes, batch: seq<Patch>)
    ensures PatchFirst(m, batch, 0) == m && PatchFirst(m, batch, |batch|).Keys == m.Keys
  {
  }

  /** The window of `r` holds the code of `r`. */
  ghost predicate Holds(m: Bytes, r: Patch) {
    forall a :: Covers(r, a) ==> a in m && m[a] == r.code[a - r.entry]
  }

  lemma HoldsRead(m: Bytes, r: Patch)
    requires Holds(m, r)
    ensures Mapped(m, r.entry, WINDOW) && Read(m, r.entry, WINDOW) == r.code
  {
    assert forall a: nat :: r.entry <= a < r.entry + WINDOW ==> Covers(r, a);
  }

  lemma {:induction false} PatchFirstFrame(m: Bytes, batch: seq<Patch>, n: nat, a: nat)
    requires n <= |batch| && a in m && !Touched(batch, n, a)
    ensures PatchFirst(m, batch, n)[a] == m[a]
  {
    if n > 0 {
      assert !Covers(batch[n - 1], a);
      PatchFirstFrame(m, batch, n - 1, a);
    }
  }

  lemma PatchedApart(m: Bytes, r: Patch, other: Patch)
    requires r.entry + WINDOW <= other.entry || other.entry + WINDOW <= r.entry
    ensures Holds(m, other) ==> Holds(Patched(m, r), other)
  {
  }

  /** On spaced entries every patch takes effect: its window holds its own code. */
  lemma {:induction false} PatchFirstHolds(m: Bytes, batch: seq<Patch>, n: nat, j: nat)
    requires j < n <= |batch| && AllMapped(m, batch) && Spaced(batch)
    ensures Holds(PatchFirst(m, batch, n), batch[j])
  {
    if j < n - 1 {
      PatchFirstHolds(m, batch, n - 1, j);
      PatchedApart(PatchFirst(m, batch, n - 1), batch[n - 1], batch[j]);
    } else {
      assert Mapped(m, batch[j].entry, WINDOW);
    }
  }

  // ---- rollback ----

  /** Bytes outside the windows of the first `written` patches. */
  ghost predicate Framed(m0: Bytes, m: Bytes, batch: seq<Patch>, written: nat) {
    m.Keys == m0.Keys && forall a :: a in m0 && !Touched(batch, written, a) ==> m[a] == m0[a]
  }

  /** The windows `next..written` hold their snapshots again. */
  ghost predicate Undone(m0: Bytes, m: Bytes, batch: seq<Patch>, next: nat, written: nat) {
    m.Keys == m0.Keys &&
    forall a, j :: a in m0 && next <= j < written <= |batch| && Covers(batch[j], a) ==> m[a] == m0[a]
  }

  /** Window by window: the patch before `next`, then the patch or the snapshot. */
  ghost predicate HalfUndone(m0: Bytes, m: Bytes, batch: seq<Patch>, next: nat, written: nat) {
    next <= written <= |batch| &&
    forall j :: 0 <= j < written ==> HalfAt(m0, m, batch[j], next <= j)
  }

  ghost predicate HalfAt(m0: Bytes, m: Bytes, r: Patch, visited: bool) {
    Holds(m, r) || (visited && SameAt(m0, m, r.entry, WINDOW))
  }

  /** The memory during a rollback of the first `written` patches of a batch: the snapshots
      of positions `next..written` have been written back in reverse, and `failures` of these
      writes did not happen. */
  ghost predicate RollingBack(m0: Bytes, m: Bytes, batch: seq<Patch>, written: nat, next: nat, failures: nat)
  {
    && next <= written <= |batch|
    && AllMapped(m0, batch)
    && Framed(m0, m, batch, written)
    && (failures == 0 ==> Undone(m0, m, batch, next, written))
    && (Spaced(batch) ==> HalfUndone(m0, m, batch, next, written))
    && (Spaced(batch) && failures > 0 ==> exists j :: next <= j < written && Holds(m, batch[j]))
  }

  lemma RollingBackKeys(m0: Bytes, m: Bytes, batch: seq<Patch>, written: nat, next: nat, failures: nat)
    requires RollingBack(m0, m, batch, written, next, failures)
    ensures m.Keys == m0.Keys
  {
  }

  lemma RollbackStarts(m0: Bytes, batch: seq<Patch>, written: nat)
    requires written <= |batch| && AllMapped(m0, batch)
    ensures RollingBack(m0, PatchFirst(m0, batch, written), batch, written, written, 0)
  {
    forall a | a in m0 && !Touched(batch, written, a)
      ensures PatchFirst(m0, batch, written)[a] == m0[a]
    {
      PatchFirstFrame(m0, batch, written, a);
    }
    if Spaced(batch) {
      forall j | 0 <= j < written
        ensures Holds(PatchFirst(m0, batch, written), batch[j])
      {
        PatchFirstHolds(m0, batch, written, j);
      }
    }
  }

  function Restored(m0: Bytes, m: Bytes, r: Patch): (w: Bytes)
    requires Mapped(m0, r.entry, WINDOW)
    ensures w.Keys == m.Keys
    ensures forall a :: a in m ==> w[a] == if Covers(r, a) then m0[a] else m[a]
  {
    map a | a in m :: if Covers(r, a) then m0[a] else m[a]
  }

  /** Writing a snapshot back is one more patch. */
  lemma RestoredIsPatched(m0: Bytes, m: Bytes, r: Patch)
    requires Mapped(m0, r.entry, WINDOW)
    ensures Restored(m0, m, r) == Patched(m, Patch(r.entry, Read(m0, r.entry, WINDOW)))
  {
    var w := Patched(m, Patch(r.entry, Read(m0, r.entry, WINDOW)));
    forall a | a in m
      ensures Restored(m0, m, r)[a] == w[a]
    {
    }
  }

  /** Writing one snapshot back leaves every other window of a spaced batch alone. */
  lemma RestoreApart(m0: Bytes, m: Bytes, r: Patch, other: Patch)
    requires Mapped(m0, r.entry, WINDOW) && m.Keys == m0.Keys
    requires r.entry + WINDOW <= other.entry || other.entry + WINDOW <= r.entry
    ensures Holds(m, other) ==> Holds(Restored(m0, m, r), other)
    ensures SameAt(m0, m, other.entry, WINDOW) ==> SameAt(m0, Restored(m0, m, r), other.entry, WINDOW)
  {
  }

  lemma RestoreFrames(m0: Bytes, m: Bytes, batch: seq<Patch>, written: nat, k: nat)
    requires k < written <= |batch| && Mapped(m0, batch[k].entry, WINDOW)
    requires Framed(m0, m, batch, written)
    ensures Framed(m0, Restored(m0, m, batch[k]), batch, written)
  {
    assert forall a :: Covers(batch[k], a) ==> Touched(batch, written, a);
  }

  lemma RestoreUndoes(m0: Bytes, m: Bytes, batch: seq<Patch>, written: nat, next: nat)
    requires 0 < next <= written <= |batch| && Mapped(m0, batch[next - 1].entry, WINDOW)
    requires Undone(m0, m, batch, next, written)
    ensures Undone(m0, Restored(m0, m, batch[next - 1]), batch, next - 1, written)
  {
    var m' := Restored(m0, m, batch[next - 1]);
    forall a, j | a in m0 && next - 1 <= j < written && Covers(batch[j], a)
      ensures m'[a] == m0[a]
    {
      if j >= next {
        assert m[a] == m0[a];
      }
    }
  }

  lemma RestoreHalves(m0: Bytes, m: Bytes, batch: seq<Patch>, written: nat, next: nat)
    requires 0 < next <= written <= |batch| && Mapped(m0, batch[next - 1].entry, WINDOW)
    requires Spaced(batch) && m.Keys == m0.Keys && HalfUndone(m0, m, batch, next, written)
    ensures HalfUndone(m0, Restored(m0, m, batch[next - 1]), batch, next - 1, written)
    ensures forall j :: next <= j < written && Holds(m, batch[j]) ==> Holds(Restored(m0, m, batch[next - 1]), batch[j])
  {
    var r := batch[next - 1];
    forall j | 0 <= j < written
      ensures HalfAt(m0, Restored(m0, m, r), batch[j], next - 1 <= j)
      ensures next <= j && Holds(m, batch[j]) ==> Holds(Restored(m0, m, r), batch[j])
    {
      RestoreHalf(m0, m, batch, next, j);
    }
  }

  lemma RestoreHalf(m0: Bytes, m: Bytes, batch: seq<Patch>, next: nat, j: nat)
    requires 0 < next <= |batch| && j < |batch| && Mapped(m0, batch[next - 1].entry, WINDOW)
    requires Spaced(batch) && m.Keys == m0.Keys && HalfAt(m0, m, batch[j], next <= j)
    ensures HalfAt(m0, Restored(m0, m, batch[next - 1]), batch[j], next - 1 <= j)
    ensures next <= j && Holds(m, batch[j]) ==> Holds(Restored(m0, m, batch[next - 1]), batch[j])
  {
    if j == next - 1 {
      assert SameAt(m0, Restored(m0, m, batch[j]), batch[j].entry, WINDOW);
    } else {
      var a, b := batch[if j < next - 1 then j else next - 1], batch[if j < next - 1 then next - 1 else j];
      assert a.entry + WINDOW <= b.entry || b.entry + WINDOW <= a.entry;
      RestoreApart(m0, m, batch[next - 1], batch[j]);
    }
  }

  lemma RollbackRestores(m0: Bytes, m: Bytes, batch: seq<Patch>, written: nat, next: nat, failures: nat)
    requires next > 0 && RollingBack(m0, m, batch, written, next, failures)
    ensures RollingBack(m0, Restored(m0, m, batch[next - 1]), batch, written, next - 1, failures)
  {
    RestoreFrames(m0, m, batch, written, next - 1);
    if failures == 0 {
      RestoreUndoes(m0, m, batch, written, next);
    }
    if Spaced(batch) {
      RestoreHalves(m0, m, batch, written, next);
    }
  }

  lemma RollbackSkips(m0: Bytes, m: Bytes, batch: seq<Patch>, written: nat, next: nat, failures: nat)
    requires next > 0 && RollingBack(m0, m, batch, written, next, failures)
    ensures RollingBack(m0, m, batch, written, next - 1, failures + 1)
  {
    assert Spaced(batch) ==> Holds(m, batch[next - 1]);
  }

  /** A rollback without a failed restore gives back the memory it started from, even
      when windows overlap, because every snapshot was taken before the first write. */
  lemma RollbackCompletes(m0: Bytes, m: Bytes, batch: seq<Patch>, written: nat)
    requires RollingBack(m0, m, batch, written, 0, 0)
    ensures m == m0
  {
    assert forall a :: a in m0 ==> m[a] == m0[a];
  }
}
