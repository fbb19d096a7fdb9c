/** Gap arithmetic over the process mappings: where a new pool may be placed near a hint. */
module PoolSearch {
  import opened Words
  import opened LiveMemory

  const REL32_LIMIT: nat := 0x7FFF_F000
  const DEFAULT_POOL: nat := 64 * 1024 * 1024

  datatype Block = Block(begin: nat, size: nat, distance: nat)

  predicate Aligned(page: nat, a: int)
    requires page > 0
  {
    a % page == 0
  }

  function AlignDown(a: nat, page: nat): (r: nat)
    requires page > 0
    ensures Aligned(page, r) && r <= a < r + page
  {
    var q := a / page;
    assert a == page * q + a % page;
    ModuloUnique(a - a % page, page, q, 0);
    a - a % page
  }

  /** The next multiple of the page, or the greatest address when there is none. */
  function AlignUp(a: nat, page: nat): (r: nat)
    requires 0 < page && a <= MAX_64
    ensures a <= r <= MAX_64
    ensures r == MAX_64 || (Aligned(page, r) && r < a + page)
  {
    var rest := a % page;
    if rest == 0 then a
    else if a > MAX_64 - (page - rest) then MAX_64
    else
      var q := a / page;
      assert a + page - rest == page * (q + 1);
      ModuloUnique(a + page - rest, page, q + 1, 0);
      a + (page - rest)
  }

  lemma AlignedDifference(page: nat, a: int, b: int)
    requires page > 0 && Aligned(page, a) && Aligned(page, b)
    ensures Aligned(page, a - b) && Aligned(page, a + b)
    ensures a < b ==> a + page <= b
  {
    var k, l := a / page, b / page;
    assert a == page * k && b == page * l;
    assert a - b == page * (k - l) && a + b == page * (k + l);
    ModuloUnique(a - b, page, k - l, 0);
    ModuloUnique(a + b, page, k + l, 0);
    MultipleAway(page, l - k);
  }

  /** An aligned address at or above `a` is at or above the aligned-up `a`. */
  lemma AlignUpLeast(page: nat, a: nat, b: nat)
    requires page > 0 && a <= b <= MAX_64 && Aligned(page, b)
    ensures AlignUp(a, page) <= b && Aligned(page, AlignUp(a, page))
  {
    var q, rest := a / page, a % page;
    if rest != 0 {
      assert a - rest == page * q;
      ModuloUnique(a - rest, page, q, 0);
      AlignedDifference(page, a - rest, b);
    }
  }

  lemma AlignDownGreatest(page: nat, a: nat, b: nat)
    requires page > 0 && b <= a && Aligned(page, b)
    ensures b <= AlignDown(a, page)
  {
    if AlignDown(a, page) < b {
      AlignedDifference(page, AlignDown(a, page), b);
    }
  }

  predicate Apart(r: Range, begin: nat, end: nat) {
    end <= r.begin || r.end <= begin
  }

  function Distance(a: nat, b: nat): nat {
    if a < b then b - a else a - b
  }

  /** The search problem: everything the platform supplies. */
  datatype Query = Query(page: nat, floor: nat, mappings: seq<Range>, hint: nat, minimum: nat) {

    ghost predicate Valid() {
      && 0 < page <= DEFAULT_POOL && Aligned(page, DEFAULT_POOL)
      && floor <= MAX_64 && hint <= MAX_64
      && Table(mappings)
      && 0 < minimum && Aligned(page, minimum)
    }

    /** `[begin, begin + size)` may hold a pool: aligned, above the floor, within the limit of
        the hint on both sides, and clear of every mapping. */
    ghost predicate Free(begin: nat, size: nat)
      requires page > 0
    {
      && Aligned(page, begin) && Aligned(page, size)
      && floor <= begin && begin + size <= MAX_64
      && hint <= begin + REL32_LIMIT && begin + size <= hint + REL32_LIMIT
      && forall i :: 0 <= i < |mappings| ==> Apart(mappings[i], begin, begin + size)
    }

    /** The distance field is the distance from the hint to the nearest byte of the block. */
    ghost predicate Acceptable(c: Block)
      requires page > 0
    {
      && minimum <= c.size && Free(c.begin, c.size)
      && (forall a :: c.begin <= a < c.begin + c.size ==> c.distance <= Distance(hint, a))
      && (exists a :: c.begin <= a < c.begin + c.size && c.distance == Distance(hint, a))
      && Whole(c)
    }

    /** A free range around the block that is no larger than a pool should be is the block itself. */
    ghost predicate Whole(c: Block)
      requires page > 0
    {
      forall b: nat, n: nat :: Free(b, n) && b <= c.begin && c.begin + c.size <= b + n <= b + Max(DEFAULT_POOL, minimum) ==> n == c.size
    }

    /** For a free block at `b` there is the candidate `c`, no farther from the hint, and up to the default size as large as any
        free block there. When it begins at the very edge of the window, the memory is free from there to the end of that block. */
    ghost predicate Serves(c: Block, b: nat)
      requires page > 0
    {
      && (2 * page <= minimum ==> forall a :: b <= a < b + minimum ==> c.distance <= Distance(hint, a))
      && (forall n: nat :: minimum <= n && Free(b, n) ==> Min(n, DEFAULT_POOL) <= c.size)
      && (c.begin + REL32_LIMIT == hint ==>
            c.begin <= b && Free(c.begin, b + minimum - c.begin)
            && (minimum <= REL32_LIMIT ==> b + minimum <= c.begin + Max(DEFAULT_POOL, minimum)))
    }

    ghost predicate Served(s: seq<Block>, b: nat)
      requires page > 0
    {
      exists c :: c in s && Serves(c, b)
    }
  }

  predicate Before(a: Block, b: Block) {
    a.distance < b.distance || (a.distance == b.distance && a.size >= b.size)
  }

  /** Nearest first, and of equally near blocks the larger first. */
  predicate Ordered(s: seq<Block>) {
    forall i, j :: 0 <= i < j < |s| ==> s[i].distance <= s[j].distance && (s[i].distance == s[j].distance ==> s[i].size >= s[j].size)
  }

  function Insert(c: Block, s: seq<Block>): (r: seq<Block>)
    requires Ordered(s)
    ensures Ordered(r) && multiset(r) == multiset(s) + multiset{c}
  {
    if s == [] then [c]
    else if Before(c, s[0]) then
      [c] + s
    else
      var rest := Insert(c, s[1..]);
      InsertKeeps(c, s, rest);
      [s[0]] + rest
  }

  lemma InsertKeeps(c: Block, s: seq<Block>, rest: seq<Block>)
    requires s != [] && Ordered(s) && !Before(c, s[0]) && Ordered(rest)
    requires multiset(rest) == multiset(s[1..]) + multiset{c}
    ensures Ordered([s[0]] + rest) && multiset([s[0]] + rest) == multiset(s) + multiset{c}
  {
    assert s == [s[0]] + s[1..];
    forall k | 0 <= k < |rest|
      ensures s[0].distance <= rest[k].distance && (s[0].distance == rest[k].distance ==> s[0].size >= rest[k].size)
    {
      assert rest[k] in multiset(rest);
      if rest[k] != c {
        assert rest[k] in s[1..];
      }
    }
  }

  function Sort(s: seq<Block>): (r: seq<Block>)
    ensures Ordered(r) && multiset(r) == multiset(s)
  {
    if s == [] then []
    else
      assert s == [s[0]] + s[1..];
      Insert(s[0], Sort(s[1..]))
  }

  /** Where a pool of `size` bytes goes in the whole pages `[begin, end)`: around the hint, or as near as it gets. */
  function Position(page: nat, hint: nat, begin: nat, end: nat, size: nat): (at: nat)
    requires page > 0 && begin + size <= end
    ensures begin <= at <= end - size
  {
    var ideal := if hint > size / 2 then AlignDown(hint - size / 2, page) else begin;
    Max(begin, Min(ideal, end - size))
  }

  /** A free block that begins inside ends inside. */
  ghost predicate Bounded(q: Query, begin: nat, end: nat)
    requires q.page > 0
  {
    forall b: nat, n: nat :: q.Free(b, n) && begin <= b < end ==> b + n <= end
  }

  /** No free block lies across the address. */
  ghost predicate Closed(q: Query, at: nat)
    requires q.page > 0
  {
    forall b: nat, n: nat :: q.Free(b, n) && b < at ==> b + n <= at
  }

  /** One gap of the address space, shrunk to whole pages: the candidate it yields, if it is large enough. */
  method AddGap(q: Query, gapBegin: nat, gapEnd: nat, candidates: seq<Block>) returns (r: seq<Block>)
    requires q.Valid() && gapBegin <= gapEnd <= MAX_64
    requires q.floor <= gapBegin && q.hint <= gapBegin + REL32_LIMIT && gapEnd <= q.hint + REL32_LIMIT
    requires forall i :: 0 <= i < |q.mappings| ==> Apart(q.mappings[i], gapBegin, gapEnd)
    requires Bounded(q, gapBegin, gapEnd) && Closed(q, gapBegin)
    ensures r == candidates || exists c :: r == candidates + [c] && q.Acceptable(c)
    ensures forall b: nat :: gapBegin <= b && b + q.minimum <= gapEnd && Aligned(q.page, b) ==> q.Served(r, b)
  {
    hide AlignUp, AlignDown, Query.Free, Query.Acceptable, Query.Serves, Query.Whole, Position;
    var page := q.page;
    var begin := AlignUp(gapBegin, page);
    var end := AlignDown(gapEnd, page);
    if begin >= end || q.minimum > end - begin {
      NoRoom(q, gapBegin, gapEnd);
      return candidates;
    }
    AlignUpLeast(page, gapBegin, end);
    AlignedDifference(page, end, begin);
    var available := end - begin;
    var preferred := Max(DEFAULT_POOL, q.minimum);
    var size := Min(preferred, available);
    var latest := end - size;
    AlignedDifference(page, end, size);
    var at := Position(page, q.hint, begin, end, size);
    var c := Block(at, size, if q.hint < at then at - q.hint else if q.hint >= at + size then q.hint - (at + size - 1) else 0);
    PositionAligned(page, q.hint, begin, end, size);
    assert Aligned(page, size);
    PartClear(q, gapBegin, gapEnd, at, size);
    WholeGap(q, gapBegin, gapEnd, begin, end, c);
    NearestByte(q, c);
    r := candidates + [c];
    forall b: nat | gapBegin <= b && b + q.minimum <= gapEnd && Aligned(page, b)
      ensures q.Served(r, b)
    {
      AlignUpLeast(page, gapBegin, b);
      AlignedDifference(page, b, q.minimum);
      AlignDownGreatest(page, gapEnd, b + q.minimum);
      assert Bounded(q, gapBegin, gapEnd);
      forall n: nat | q.minimum <= n && q.Free(b, n)
        ensures Min(n, DEFAULT_POOL) <= size
      {
        FreeAligned(q, b, n);
        AlignedDifference(page, b, n);
        AlignDownGreatest(page, gapEnd, b + n);
      }
      ServesGap(q, begin, end, c, b);
      assert c in r;
    }
  }

  lemma WholeGap(q: Query, gapBegin: nat, gapEnd: nat, begin: nat, end: nat, c: Block)
    requires q.Valid() && gapBegin <= gapEnd <= MAX_64 && Bounded(q, gapBegin, gapEnd) && Closed(q, gapBegin)
    requires gapBegin <= c.begin && c.begin + c.size <= gapEnd && 0 < c.size
    requires begin == AlignUp(gapBegin, q.page) < end == AlignDown(gapEnd, q.page)
    requires c.size == Min(Max(DEFAULT_POOL, q.minimum), end - begin)
    ensures q.Whole(c)
  {
    hide AlignUp, AlignDown, Query.Free, Table;
    forall b: nat, n: nat | q.Free(b, n) && b <= c.begin && c.begin + c.size <= b + n <= b + Max(DEFAULT_POOL, q.minimum)
      ensures n == c.size
    {
      FreeAligned(q, b, n);
      AlignedDifference(q.page, b, n);
      AlignUpLeast(q.page, gapBegin, b);
      AlignDownGreatest(q.page, gapEnd, b + n);
    }
  }

  lemma FreeAligned(q: Query, b: nat, n: nat)
    requires q.page > 0 && q.Free(b, n)
    ensures Aligned(q.page, b) && Aligned(q.page, n)
  {
  }

  lemma PositionAligned(page: nat, hint: nat, begin: nat, end: nat, size: nat)
    requires page > 0 && begin + size <= end && Aligned(page, begin) && Aligned(page, end - size)
    ensures Aligned(page, Position(page, hint, begin, end, size))
  {
    hide AlignDown;
  }

  /** No byte of the gap is nearer to the hint than the block placed in it. */
  lemma ServesGap(q: Query, begin: nat, end: nat, c: Block, b: nat)
    requires q.Valid() && begin + q.minimum <= end && q.minimum <= c.size && begin + c.size <= end
    requires c.begin == Position(q.page, q.hint, begin, end, c.size)
    requires c.distance == if q.hint < c.begin then c.begin - q.hint
                           else if q.hint >= c.begin + c.size then q.hint - (c.begin + c.size - 1) else 0
    requires begin <= b && b + q.minimum <= end && Aligned(q.page, b) && Aligned(q.page, c.begin)
    requires q.floor <= begin && q.hint <= begin + REL32_LIMIT && end <= q.hint + REL32_LIMIT && end <= MAX_64
    requires forall i :: 0 <= i < |q.mappings| ==> Apart(q.mappings[i], begin, end)
    requires forall n: nat :: q.minimum <= n && q.Free(b, n) ==> Min(n, DEFAULT_POOL) <= c.size
    requires c.size == Min(Max(DEFAULT_POOL, q.minimum), end - begin)
    ensures q.Serves(c, b)
  {
    hide AlignDown, Aligned, Table;
    if c.begin + REL32_LIMIT == q.hint {
      AlignedSum(q, b, c.begin);
      PartClear(q, begin, end, c.begin, b + q.minimum - c.begin);
    }
  }

  lemma AlignedSum(q: Query, b: nat, a: nat)
    requires q.Valid() && Aligned(q.page, b) && Aligned(q.page, a)
    ensures Aligned(q.page, b + q.minimum - a)
  {
    AlignedDifference(q.page, b, a);
    AlignedDifference(q.page, b - a, q.minimum);
  }

  lemma PartClear(q: Query, gapBegin: nat, gapEnd: nat, at: nat, size: nat)
    requires q.page > 0 && gapBegin <= at && at + size <= gapEnd <= MAX_64
    requires q.floor <= gapBegin && q.hint <= gapBegin + REL32_LIMIT && gapEnd <= q.hint + REL32_LIMIT
    requires forall i :: 0 <= i < |q.mappings| ==> Apart(q.mappings[i], gapBegin, gapEnd)
    requires Aligned(q.page, at) && Aligned(q.page, size)
    ensures q.Free(at, size)
  {
  }

  lemma NearestByte(q: Query, c: Block)
    requires q.page > 0 && q.minimum <= c.size && c.size > 0 && q.Free(c.begin, c.size) && q.Whole(c)
    requires c.distance == if q.hint < c.begin then c.begin - q.hint
                           else if q.hint >= c.begin + c.size then q.hint - (c.begin + c.size - 1) else 0
    ensures q.Acceptable(c)
  {
    hide Query.Free, Query.Whole;
    var nearest := if q.hint < c.begin then c.begin else if q.hint >= c.begin + c.size then c.begin + c.size - 1 else q.hint;
    assert c.begin <= nearest < c.begin + c.size && c.distance == Distance(q.hint, nearest);
  }

  lemma NoRoom(q: Query, gapBegin: nat, gapEnd: nat)
    requires q.Valid() && gapBegin <= gapEnd <= MAX_64
    requires AlignUp(gapBegin, q.page) + q.minimum > AlignDown(gapEnd, q.page)
    ensures forall b: nat :: gapBegin <= b && b + q.minimum <= gapEnd ==> !Aligned(q.page, b)
  {
    forall b: nat | gapBegin <= b && b + q.minimum <= gapEnd && Aligned(q.page, b)
      ensures false
    {
      AlignUpLeast(q.page, gapBegin, b);
      AlignedDifference(q.page, b, q.minimum);
      AlignDownGreatest(q.page, gapEnd, b + q.minimum);
    }
  }

  /** A free block that ends after a mapping begins lies at or above its page-aligned end. */
  lemma FreeBeyond(q: Query, i: nat, cursor: nat, b: nat)
    requires q.Valid() && i < |q.mappings| && q.Free(b, q.minimum)
    requires cursor <= b && (q.mappings[i].begin <= cursor || q.mappings[i].begin < b + q.minimum)
    ensures AlignUp(q.mappings[i].end, q.page) <= b || q.mappings[i].end <= cursor
  {
    assert Apart(q.mappings[i], b, b + q.minimum);
    if q.mappings[i].end > cursor {
      AlignUpLeast(q.page, q.mappings[i].end, b);
    }
  }

  ghost predicate GapClear(q: Query, begin: nat, end: nat) {
    forall i :: 0 <= i < |q.mappings| ==> Apart(q.mappings[i], begin, end)
  }

  /** Every free block below the cursor is served. */
  ghost predicate ServedBelow(q: Query, cursor: nat, s: seq<Block>)
    requires q.page > 0
  {
    forall b: nat :: q.Free(b, q.minimum) ==> cursor <= b || q.Served(s, b)
  }

  lemma StillServed(q: Query, cursor: nat, s: seq<Block>, more: seq<Block>)
    requires q.page > 0 && ServedBelow(q, cursor, s) && forall c :: c in s ==> c in more
    ensures ServedBelow(q, cursor, more)
  {
    hide Query.Free, Query.Serves;
  }

  lemma GapBounded(q: Query, i: nat, cursor: nat)
    requires q.Valid() && i < |q.mappings|
    ensures Bounded(q, cursor, q.mappings[i].begin)
  {
    forall b: nat, n: nat | q.Free(b, n) && cursor <= b < q.mappings[i].begin
      ensures b + n <= q.mappings[i].begin
    {
      assert Apart(q.mappings[i], b, b + n);
    }
  }

  /** Passing one mapping: the gap before it becomes a candidate, the cursor moves behind it. */
  method PassMapping(q: Query, i: nat, cursor: nat, windowEnd: nat, candidates: seq<Block>)
    returns (cursor': nat, r: seq<Block>)
    requires q.Valid() && i < |q.mappings| && q.mappings[i].begin < windowEnd
    requires q.floor <= cursor < windowEnd <= MAX_64 && Aligned(q.page, cursor) && Aligned(q.page, windowEnd)
    requires q.hint <= cursor + REL32_LIMIT && windowEnd <= q.hint + REL32_LIMIT
    requires forall j :: 0 <= j < i ==> q.mappings[j].end <= cursor
    requires forall c :: c in candidates ==> q.Acceptable(c)
    requires ServedBelow(q, cursor, candidates) && Closed(q, cursor)
    ensures cursor <= cursor' <= MAX_64 && q.mappings[i].end <= cursor'
    ensures cursor' < windowEnd ==> Aligned(q.page, cursor')
    ensures forall c :: c in r ==> q.Acceptable(c)
    ensures ServedBelow(q, cursor', r) && Closed(q, cursor')
  {
    var m := q.mappings[i];
    cursor', r := cursor, candidates;
    if m.end <= cursor {
      return;
    }
    if m.begin > cursor {
      assert GapClear(q, cursor, m.begin);
      GapBounded(q, i, cursor);
      r := AddGap(q, cursor, m.begin, candidates);
    }
    StillServed(q, cursor, candidates, r);
    forall b: nat | q.Free(b, q.minimum)
      ensures AlignUp(m.end, q.page) <= b || q.Served(r, b)
    {
      if !q.Served(r, b) {
        FreeBeyond(q, i, cursor, b);
      }
    }
    var next := AlignUp(m.end, q.page);
    cursor' := Max(cursor, next);
    forall b: nat, n: nat | q.Free(b, n) && b < cursor'
      ensures b + n <= cursor'
    {
      assert Apart(m, b, b + n);
      if m.end <= b {
        AlignUpLeast(q.page, m.end, b);
      }
    }
    if next < windowEnd { AlignUpLeast(q.page, m.end, windowEnd); }
  }

  method Scan(q: Query, windowBegin: nat, windowEnd: nat) returns (r: seq<Block>)
    requires q.Valid() && q.floor <= windowBegin < windowEnd <= MAX_64
    requires Aligned(q.page, windowBegin) && Aligned(q.page, windowEnd)
    requires q.hint <= windowBegin + REL32_LIMIT && windowEnd <= q.hint + REL32_LIMIT
    requires forall b: nat, n: nat :: q.Free(b, n) ==> windowBegin <= b && b + n <= windowEnd
    requires Bounded(q, windowBegin, windowEnd)
    ensures forall c :: c in r ==> q.Acceptable(c)
    ensures forall b: nat :: q.Free(b, q.minimum) ==> q.Served(r, b)
  {
    var cursor := windowBegin;
    var i := 0;
    r := [];
    while i < |q.mappings| && q.mappings[i].begin < windowEnd && cursor < windowEnd
      invariant 0 <= i <= |q.mappings|
      invariant windowBegin <= cursor <= MAX_64
      invariant cursor < windowEnd ==> Aligned(q.page, cursor)
      invariant forall j :: 0 <= j < i ==> q.mappings[j].end <= cursor
      invariant forall c :: c in r ==> q.Acceptable(c)
      invariant ServedBelow(q, cursor, r) && Closed(q, cursor)
    {
      cursor, r := PassMapping(q, i, cursor, windowEnd, r);
      i := i + 1;
    }
    if cursor < windowEnd {
      assert GapClear(q, cursor, windowEnd) && Bounded(q, cursor, windowEnd);
      ghost var before := r;
      r := AddGap(q, cursor, windowEnd, r);
      StillServed(q, cursor, before, r);
    }
  }

  /** The pool candidates near a hint. Every candidate is acceptable, nearer ones come first, and every free block of the
      requested size is served: the first candidate is no farther from the hint than any byte of it. */
  method FindPoolCandidates(q: Query) returns (r: seq<Block>)
    requires q.Valid()
    ensures forall c :: c in r ==> q.Acceptable(c)
    ensures Ordered(r)
    ensures forall b: nat :: q.Free(b, q.minimum) ==> q.Served(r, b)
    ensures forall b: nat, a :: q.Free(b, q.minimum) && 2 * q.page <= q.minimum && b <= a < b + q.minimum ==>
              r != [] && r[0].distance <= Distance(q.hint, a)
  {
    var page := q.page;
    var low := if q.hint > REL32_LIMIT then q.hint - REL32_LIMIT else q.floor;
    var high := if q.hint < MAX_64 - REL32_LIMIT then q.hint + REL32_LIMIT else MAX_64;
    var bottom := Max(low, q.floor);
    var windowBegin := AlignUp(bottom, page);
    var windowEnd := AlignDown(high, page);
    FreeInside(q, bottom, high);
    if windowBegin >= windowEnd || q.minimum > windowEnd - windowBegin {
      return [];
    }
    AlignUpLeast(page, bottom, windowEnd);
    var candidates := Scan(q, windowBegin, windowEnd);
    r := Sort(candidates);
    SortedServes(q, candidates, r);
  }

  lemma FreeInside(q: Query, bottom: nat, high: nat)
    requires q.page > 0 && bottom <= MAX_64
    requires forall b: nat, n: nat :: q.Free(b, n) ==> bottom <= b && b + n <= high
    ensures forall b: nat, n: nat :: q.Free(b, n) ==> AlignUp(bottom, q.page) <= b && b + n <= AlignDown(high, q.page)
  {
    hide AlignUp, AlignDown;
    forall b: nat, n: nat | q.Free(b, n)
      ensures AlignUp(bottom, q.page) <= b && b + n <= AlignDown(high, q.page)
    {
      AlignUpLeast(q.page, bottom, b);
      AlignedDifference(q.page, b, n);
      AlignDownGreatest(q.page, high, b + n);
    }
  }

  lemma SortedServes(q: Query, candidates: seq<Block>, r: seq<Block>)
    requires q.page > 0 && Ordered(r) && multiset(r) == multiset(candidates)
    requires forall c :: c in candidates ==> q.Acceptable(c)
    requires forall b: nat :: q.Free(b, q.minimum) ==> q.Served(candidates, b)
    ensures forall c :: c in r ==> q.Acceptable(c)
    ensures forall b: nat :: q.Free(b, q.minimum) ==> q.Served(r, b)
    ensures forall b: nat, a :: q.Free(b, q.minimum) && 2 * q.page <= q.minimum && b <= a < b + q.minimum ==>
              r != [] && r[0].distance <= Distance(q.hint, a)
  {
    hide Ordered, Query.Acceptable, Query.Free;
    assert forall c :: c in r <==> c in multiset(candidates);
    assert forall c :: c in candidates <==> c in multiset(candidates);
    forall b: nat | q.Free(b, q.minimum)
      ensures q.Served(r, b)
      ensures 2 * q.page <= q.minimum ==> forall a :: b <= a < b + q.minimum ==> r != [] && r[0].distance <= Distance(q.hint, a)
    {
      var c :| c in candidates && q.Serves(c, b);
      assert c in multiset(candidates);
      FirstNearest(r, c);
    }
  }

  lemma FirstNearest(s: seq<Block>, c: Block)
    requires Ordered(s) && c in s
    ensures s[0].distance <= c.distance
  {
    var i :| 0 <= i < |s| && s[i] == c;
    assert i > 0 ==> s[0].distance <= s[i].distance;
  }
}
