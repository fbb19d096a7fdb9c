/** The native session: preparing candidates, committing a generation with rollback, ending. */
module Session {
  import opened Wrappers
  import opened Words
  import opened LiveMemory
  import opened Patching
  import opened Redirect
  import opened Arena
  import opened CodePages
  import opened StateTable
  import opened World

  datatype Replacement = Replacement(entry: nat, offset: nat)

  /** A loaded candidate object: its code, the storage it introduces, and the entries it replaces. */
  datatype Image = Image(
    code: Handle, states: seq<Handle>, replacements: seq<Replacement>, definitions: seq<Definition>)

  /** What it takes to load one object: where the code it replaces is, how large its image is, the storage it introduces, and
      how the image looks at the addresses it is given. */
  datatype Candidate = Candidate(
    hint: nat, size: nat, contents: seq<seq<byte>>, build: (nat, seq<nat>) -> Option<seq<byte>>,
    replacements: seq<Replacement>, define: seq<nat> -> seq<Definition>)

  /** Addresses and sizes are 64-bit numbers, and replaced functions are entries of the program. */
  ghost predicate CandidateOk(env: Env, c: Candidate) {
    c.hint <= MAX_64 && c.size <= MAX_64 && (forall k :: 0 <= k < |c.contents| ==> |c.contents[k]| <= MAX_64)
    && EntriesKnown(env, c.replacements)
  }

  ghost predicate EntriesKnown(env: Env, replacements: seq<Replacement>) {
    forall k :: 0 <= k < |replacements| ==> replacements[k].entry in env.entries
  }

  predicate OffsetsInside(replacements: seq<Replacement>, size: nat) {
    forall k :: 0 <= k < |replacements| ==> replacements[k].offset < size
  }

  /** Bytes that linking writes into the image of one object of a generation. */
  datatype Rewrite = Rewrite(index: nat, offset: nat, bytes: seq<byte>)

  datatype SavedEntry = SavedEntry(entry: nat, target: nat, original: Window)

  datatype WriteOutcome = AllWritten | RolledBack(undone: nat) | Broken(written: nat, failures: nat)

  datatype CommitOutcome = Applied(redirected: nat) | Rejected(undone: nat) | Poisoned | Unusable

  function ImageBatch(image: Image): (r: seq<(nat, nat)>)
    ensures |r| == |image.replacements|
    ensures forall j :: 0 <= j < |r| ==>
              r[j] == (image.replacements[j].entry, Target(image, image.replacements[j].offset))
  {
    seq(|image.replacements|, j requires 0 <= j < |image.replacements| =>
      (image.replacements[j].entry, Target(image, image.replacements[j].offset)))
  }

  /** The address at an offset of the image. */
  function Target(image: Image, offset: nat): nat {
    (image.code.begin + offset) % TWO_64
  }

  /** All redirects of a generation, object by object. */
  function Batch(reloads: seq<Image>): seq<(nat, nat)> {
    if reloads == [] then [] else Batch(reloads[..|reloads| - 1]) + ImageBatch(reloads[|reloads| - 1])
  }

  function Begins(hs: seq<Handle>): (r: seq<nat>)
    ensures |r| == |hs| && forall j :: 0 <= j < |r| ==> r[j] == hs[j].begin
  {
    seq(|hs|, j requires 0 <= j < |hs| => hs[j].begin)
  }

  function ImageHandles(image: Image): seq<nat> {
    [image.code.begin] + Begins(image.states)
  }

  /** The begins of every reservation a generation owns. */
  function Handles(reloads: seq<Image>): seq<nat> {
    if reloads == [] then [] else Handles(reloads[..|reloads| - 1]) + ImageHandles(reloads[|reloads| - 1])
  }

  function Definitions(reloads: seq<Image>): seq<Definition> {
    if reloads == [] then [] else Definitions(reloads[..|reloads| - 1]) + reloads[|reloads| - 1].definitions
  }

  predicate Distinct<T(==)>(s: seq<T>) {
    forall i, j :: 0 <= i < j < |s| ==> s[i] != s[j]
  }

  function Elements<T>(s: seq<T>): set<T> {
    set x | x in s
  }

  predicate DistinctEntries(batch: seq<(nat, nat)>) {
    forall i, j :: 0 <= i < j < |batch| ==> batch[i].0 != batch[j].0
  }

  /** The image's code slot is there, large enough and executable. */
  ghost predicate CodeReady(w: World, image: Image) {
    exists s :: s in w.Live() && s.begin == image.code.begin && s.executable && image.code.begin + image.code.size <= s.usableEnd
  }

  /** A loaded image keeps its promises: its code is ready and every replacement names a program entry. */
  ghost predicate Loaded(env: Env, w: World, image: Image) {
    CodeReady(w, image) && EntriesKnown(env, image.replacements)
  }

  /** Every redirect of a generation leads into the image it was loaded with. */
  predicate AllInside(reloads: seq<Image>) {
    forall i :: 0 <= i < |reloads| ==> OffsetsInside(reloads[i].replacements, reloads[i].code.size)
  }

  /** Every slot stays with its bytes, except those that begin in `gone`. */
  ghost predicate StayExcept(w: World, w': World, gone: set<nat>) {
    forall s :: s in w.Live() && s.begin !in gone ==> s in w'.Live() && Unwritten(w.bytes, w'.bytes, s)
  }

  ghost predicate Unwritten(m: Bytes, m': Bytes, s: Slot) {
    forall a: nat :: s.begin <= a < s.usableEnd && a in m ==> a in m' && m'[a] == m[a]
  }

  lemma StayJoin(w: World, w': World, w'': World, gone: set<nat>, more: set<nat>)
    requires StayExcept(w, w', gone) && StayExcept(w', w'', more)
    ensures StayExcept(w, w'', gone + more)
  {
    hide LiveSlots;
  }

  lemma StaySame(w: World, w': World)
    requires w'.pools == w.pools && w'.bytes == w.bytes
    ensures StayExcept(w, w', {})
  {
    hide LiveSlots;
  }

  /** No slot begins there. */
  ghost predicate Clear(live: set<Slot>, begins: set<nat>) {
    forall s :: s in live ==> s.begin !in begins
  }

  /** One slot more, for the handle of `bytes` bytes. */
  ghost predicate Added(was: set<Slot>, now: set<Slot>, s: Slot, h: Handle, bytes: nat) {
    now == was + {s} && Clear(was, {s.begin}) && s.begin == h.begin && h.begin + bytes <= s.usableEnd
  }

  lemma LoadedStays(env: Env, w: World, w': World, image: Image, gone: set<nat>)
    requires StayExcept(w, w', gone) && image.code.begin !in gone
    ensures CodeReady(w, image) ==> CodeReady(w', image)
    ensures Loaded(env, w, image) ==> Loaded(env, w', image)
  {
  }

  lemma EntriesJoin(env: Env, w: World, w': World, w'': World)
    requires EntriesSame(env, w, w') && EntriesSame(env, w', w'')
    ensures EntriesSame(env, w, w'')
  {
    forall e | e in env.entries
      ensures SameAt(w.bytes, w''.bytes, e, WINDOW)
    {
      SameJoin(w.bytes, w'.bytes, w''.bytes, e);
    }
  }

  lemma SameJoin(m: Bytes, m': Bytes, m'': Bytes, e: nat)
    requires SameAt(m, m', e, WINDOW) && SameAt(m', m'', e, WINDOW)
    ensures SameAt(m, m'', e, WINDOW)
  {
  }

  ghost predicate AllLoaded(env: Env, w: World, reloads: seq<Image>) {
    forall i :: 0 <= i < |reloads| ==> Loaded(env, w, reloads[i])
  }

  /** The state is ready for the generation. */
  ghost predicate Ready(env: Env, w: World, reloads: seq<Image>) {
    && AllLoaded(env, w, reloads)
    && Distinct(Handles(reloads)) && Elements(Handles(reloads)) <= w.owned - w.active
    && DistinctEntries(Batch(reloads))
  }

  /** A generation stays prepared whatever happens to other slots. */
  lemma ReadyStays(env: Env, w: World, w': World, reloads: seq<Image>, gone: set<nat>)
    requires Ready(env, w, reloads) && StayExcept(w, w', gone) && Elements(Handles(reloads)) !! gone
    requires Elements(Handles(reloads)) <= w'.owned - w'.active
    ensures Ready(env, w', reloads)
  {
    hide Loaded, CodeReady, LiveSlots;
    LoadedAllStay(env, w, w', reloads, gone);
  }

  lemma LoadedAllStay(env: Env, w: World, w': World, reloads: seq<Image>, gone: set<nat>)
    requires AllLoaded(env, w, reloads) && StayExcept(w, w', gone) && Elements(Handles(reloads)) !! gone
    ensures AllLoaded(env, w', reloads)
  {
    hide Loaded, CodeReady, LiveSlots, StayExcept;
    forall i | 0 <= i < |reloads|
      ensures Loaded(env, w', reloads[i])
    {
      CodeIsHandle(reloads, i);
      LoadedStays(env, w, w', reloads[i], gone);
    }
  }

  lemma {:induction false} CodeIsHandle(reloads: seq<Image>, k: nat)
    requires k < |reloads|
    ensures reloads[k].code.begin in Elements(Handles(reloads))
    decreases |reloads|
  {
    var n := |reloads| - 1;
    if k < n {
      CodeIsHandle(reloads[..n], k);
    } else {
      assert ImageHandles(reloads[n])[0] == reloads[n].code.begin;
    }
  }

  lemma HandlesOneMore(reloads: seq<Image>, image: Image)
    ensures Handles(reloads + [image]) == Handles(reloads) + ImageHandles(image)
    ensures Elements(Handles(reloads + [image])) == Elements(Handles(reloads)) + Elements(ImageHandles(image))
  {
    assert (reloads + [image])[..|reloads|] == reloads;
  }

  /** The image is the one the candidate asks for. */
  predicate BuiltFrom(image: Image, c: Candidate) {
    image.replacements == c.replacements && image.code.size == c.size && image.definitions == c.define(Begins(image.states))
  }

  predicate AllBuilt(reloads: seq<Image>, members: seq<Candidate>) {
    |reloads| == |members| && forall k :: 0 <= k < |members| ==> BuiltFrom(reloads[k], members[k])
  }

  // ---- what the memory of a generation holds ----

  ghost predicate Contains(m: Bytes, at: nat, s: seq<byte>) {
    forall a: nat :: at <= a < at + |s| ==> a in m && m[a] == s[a - at]
  }

  /** The slot that begins at `at` holds these bytes. */
  ghost predicate Piece(w: World, at: nat, s: seq<byte>) {
    Contains(w.bytes, at, s) && Fits(w.Live(), at, |s|)
  }

  function Overwritten(s: seq<byte>, offset: nat, bytes: seq<byte>): (r: seq<byte>)
    ensures |r| == |s|
    ensures forall i :: 0 <= i < |r| ==> r[i] == if offset <= i < offset + |bytes| then bytes[i - offset] else s[i]
  {
    seq(|s|, i requires 0 <= i < |s| => if offset <= i < offset + |bytes| then bytes[i - offset] else s[i])
  }

  /** What the first `n` rewrites make of the code of object `k`. */
  function LinkedCode(built: seq<byte>, rewrites: seq<Rewrite>, k: nat, n: nat): (r: seq<byte>)
    requires n <= |rewrites|
    ensures |r| == |built|
  {
    if n == 0 then built
    else
      var before := LinkedCode(built, rewrites, k, n - 1);
      if rewrites[n - 1].index == k then Overwritten(before, rewrites[n - 1].offset, rewrites[n - 1].bytes) else before
  }

  /** The linker built an image for these addresses, and it fits what was reserved. */
  predicate BuildsAt(c: Candidate, code: nat, states: seq<nat>) {
    var built := c.build(code, states);
    built.Some? && 0 < |built.value| <= c.size
  }

  /** The image holds what the linker built for its addresses, changed by the first `n` rewrites, and its storage the initial bytes. */
  ghost predicate Laid(w: World, image: Image, c: Candidate, rewrites: seq<Rewrite>, k: nat, n: nat) {
    && n <= |rewrites| && BuildsAt(c, image.code.begin, Begins(image.states))
    && Piece(w, image.code.begin, LinkedCode(c.build(image.code.begin, Begins(image.states)).value, rewrites, k, n))
    && StatesLaid(w, image.states, c.contents)
  }

  ghost predicate StatesLaid(w: World, states: seq<Handle>, contents: seq<seq<byte>>) {
    |states| == |contents| && forall j :: 0 <= j < |states| ==> Piece(w, states[j].begin, contents[j])
  }

  ghost predicate AllLaid(w: World, reloads: seq<Image>, members: seq<Candidate>, rewrites: seq<Rewrite>, n: nat) {
    |reloads| == |members| && forall k :: 0 <= k < |reloads| ==> Laid(w, reloads[k], members[k], rewrites, k, n)
  }

  lemma PieceStays(w: World, w': World, gone: set<nat>, at: nat, s: seq<byte>)
    requires StayExcept(w, w', gone) && at !in gone && Piece(w, at, s)
    ensures Piece(w', at, s)
  {
    hide LiveSlots;
    var t :| SlotFor(w.Live(), at, t) && at + |s| <= t.usableEnd;
    assert SlotFor(w'.Live(), at, t);
  }

  lemma LaidStays(w: World, w': World, gone: set<nat>, image: Image, c: Candidate, rewrites: seq<Rewrite>, k: nat, n: nat)
    requires StayExcept(w, w', gone) && Elements(ImageHandles(image)) !! gone && Laid(w, image, c, rewrites, k, n)
    ensures Laid(w', image, c, rewrites, k, n)
  {
    hide StayExcept, Piece, LinkedCode;
    assert ImageHandles(image)[0] == image.code.begin;
    PieceStays(w, w', gone, image.code.begin, LinkedCode(c.build(image.code.begin, Begins(image.states)).value, rewrites, k, n));
    forall j | 0 <= j < |image.states|
      ensures Piece(w', image.states[j].begin, c.contents[j])
    {
      assert ImageHandles(image)[j + 1] == image.states[j].begin;
      PieceStays(w, w', gone, image.states[j].begin, c.contents[j]);
    }
  }

  lemma AllLaidStay(w: World, w': World, gone: set<nat>, reloads: seq<Image>, members: seq<Candidate>, rewrites: seq<Rewrite>, n: nat)
    requires StayExcept(w, w', gone) && Elements(Handles(reloads)) !! gone && AllLaid(w, reloads, members, rewrites, n)
    ensures AllLaid(w', reloads, members, rewrites, n)
  {
    hide StayExcept, Laid, Handles;
    forall k | 0 <= k < |reloads|
      ensures Laid(w', reloads[k], members[k], rewrites, k, n)
    {
      HandlesOfImage(reloads, k);
      LaidStays(w, w', gone, reloads[k], members[k], rewrites, k, n);
    }
  }

  lemma {:induction false} HandlesOfImage(reloads: seq<Image>, k: nat)
    requires k < |reloads|
    ensures Elements(ImageHandles(reloads[k])) <= Elements(Handles(reloads))
    decreases |reloads|
  {
    var n := |reloads| - 1;
    assert reloads == reloads[..n] + [reloads[n]];
    HandlesOneMore(reloads[..n], reloads[n]);
    if k < n {
      HandlesOfImage(reloads[..n], k);
    }
  }

  /** One rewrite, inside the slot that begins at `begin`. */
  ghost predicate RewroteAt(w: World, w': World, begin: nat, offset: nat, bytes: seq<byte>) {
    w'.pools == w.pools && w'.bytes == Write(w.bytes, begin + offset, bytes) && Fits(w.Live(), begin, offset + |bytes|)
  }

  /** It changes what that slot holds, and nothing of another. */
  lemma PieceRewritten(page: nat, w: World, w': World, begin: nat, offset: nat, bytes: seq<byte>, at: nat, s: seq<byte>)
    requires ArenaOk(page, w.pools) && RewroteAt(w, w', begin, offset, bytes) && Piece(w, at, s)
    ensures Piece(w', at, if at == begin then Overwritten(s, offset, bytes) else s)
  {
    hide ArenaOk, LiveSlots;
    if at != begin {
      var t :| SlotFor(w.Live(), at, t) && at + |s| <= t.usableEnd;
      var u :| SlotFor(w.Live(), begin, u) && begin + (offset + |bytes|) <= u.usableEnd;
      LiveSlotsDisjoint(page, w.pools, t, u);
      LiveBounds(page, w.pools, t);
      LiveBounds(page, w.pools, u);
    }
  }

  lemma LaidRewritten(
    page: nat, w: World, w': World, image: Image, c: Candidate, rewrites: seq<Rewrite>, k: nat, n: nat, begin: nat)
    requires ArenaOk(page, w.pools) && n < |rewrites| && RewroteAt(w, w', begin, rewrites[n].offset, rewrites[n].bytes)
    requires Laid(w, image, c, rewrites, k, n) && begin !in Begins(image.states)
    requires image.code.begin == begin <==> rewrites[n].index == k
    ensures Laid(w', image, c, rewrites, k, n + 1)
  {
    hide ArenaOk, RewroteAt, Piece;
    var r := rewrites[n];
    PieceRewritten(page, w, w', begin, r.offset, r.bytes, image.code.begin,
                   LinkedCode(c.build(image.code.begin, Begins(image.states)).value, rewrites, k, n));
    forall j | 0 <= j < |image.states|
      ensures Piece(w', image.states[j].begin, c.contents[j])
    {
      assert Begins(image.states)[j] == image.states[j].begin;
      PieceRewritten(page, w, w', begin, r.offset, r.bytes, image.states[j].begin, c.contents[j]);
    }
  }

  lemma AllLaidRewritten(
    page: nat, w: World, w': World, reloads: seq<Image>, members: seq<Candidate>, rewrites: seq<Rewrite>, n: nat)
    requires ArenaOk(page, w.pools) && n < |rewrites| && rewrites[n].index < |reloads| && Distinct(Handles(reloads))
    requires RewroteAt(w, w', reloads[rewrites[n].index].code.begin, rewrites[n].offset, rewrites[n].bytes)
    requires AllLaid(w, reloads, members, rewrites, n)
    ensures AllLaid(w', reloads, members, rewrites, n + 1)
  {
    hide ArenaOk, RewroteAt, Laid, Handles;
    var i := rewrites[n].index;
    forall k | 0 <= k < |reloads|
      ensures Laid(w', reloads[k], members[k], rewrites, k, n + 1)
    {
      CodeBeginsApart(reloads, i, k);
      LaidRewritten(page, w, w', reloads[k], members[k], rewrites, k, n, reloads[i].code.begin);
    }
  }

  /** The code of one object begins where no other code and no storage of the generation does. */
  lemma {:induction false} CodeBeginsApart(reloads: seq<Image>, i: nat, k: nat)
    requires i < |reloads| && k < |reloads| && Distinct(Handles(reloads))
    ensures reloads[i].code.begin == reloads[k].code.begin <==> i == k
    ensures reloads[i].code.begin !in Begins(reloads[k].states)
    decreases |reloads|
  {
    var n := |reloads| - 1;
    var front, last := Handles(reloads[..n]), ImageHandles(reloads[n]);
    assert reloads == reloads[..n] + [reloads[n]];
    HandlesOneMore(reloads[..n], reloads[n]);
    DistinctParts(front, last);
    assert last[0] == reloads[n].code.begin && last[1..] == Begins(reloads[n].states);
    if i < n && k < n {
      CodeBeginsApart(reloads[..n], i, k);
    } else if i < n {
      CodeIsHandle(reloads[..n], i);
      HandlesDistinct(reloads[n]);
      assert Elements(Begins(reloads[n].states)) <= Elements(last);
    } else if k < n {
      HandlesOfImage(reloads[..n], k);
      HandlesDistinct(reloads[k]);
      assert reloads[k].code.begin in Elements(front) && Elements(Begins(reloads[k].states)) <= Elements(front);
      assert last[0] in Elements(last) && forall x :: x in Begins(reloads[k].states) ==> x in Elements(Begins(reloads[k].states));
    }
  }

  lemma DistinctParts<T>(s: seq<T>, t: seq<T>)
    requires Distinct(s + t)
    ensures Distinct(s) && Distinct(t) && Elements(s) !! Elements(t)
  {
    var st := s + t;
    forall i, j | 0 <= i < j < |t|
      ensures t[i] != t[j]
    {
      assert st[|s| + i] == t[i] && st[|s| + j] == t[j];
    }
    forall i, j | 0 <= i < j < |s|
      ensures s[i] != s[j]
    {
      assert st[i] == s[i] && st[j] == s[j];
    }
    forall i, j | 0 <= i < |s| && 0 <= j < |t|
      ensures s[i] != t[j]
    {
      assert st[i] == s[i] && st[|s| + j] == t[j];
    }
  }

  /** Before any rewrite it does not matter which object it is. */
  lemma LaidAlone(w: World, image: Image, c: Candidate, k: nat)
    requires Laid(w, image, c, [], 0, 0)
    ensures forall rewrites :: Laid(w, image, c, rewrites, k, 0)
  {
    hide Piece;
  }

  lemma {:induction false} BatchTargets(env: Env, w: World, reloads: seq<Image>, moved: set<nat>, k: nat)
    requires ArenaInv(env, w) && forall i :: 0 <= i < |reloads| ==> Loaded(env, w, reloads[i])
    requires Elements(Handles(reloads)) <= moved && k < |Batch(reloads)|
    ensures Batch(reloads)[k].0 in env.entries && Batch(reloads)[k].1 < TWO_64
    ensures AllInside(reloads) ==> CandidateTarget(w, moved, Batch(reloads)[k].1)
  {
    hide ArenaInv, OffsetsInside, CandidateTarget;
    var n := |reloads| - 1;
    var rest := reloads[..n];
    assert forall b :: b in Handles(rest) ==> b in Elements(Handles(reloads));
    if k < |Batch(rest)| {
      BatchTargets(env, w, rest, moved, k);
    } else {
      CodeIsHandle(reloads, n);
      ImageTargets(env, w, reloads[n], moved, k - |Batch(rest)|);
    }
  }

  lemma ImageTargets(env: Env, w: World, image: Image, moved: set<nat>, k: nat)
    requires ArenaInv(env, w) && Loaded(env, w, image) && image.code.begin in moved && k < |image.replacements|
    ensures ImageBatch(image)[k].0 in env.entries
    ensures OffsetsInside(image.replacements, image.code.size) ==> CandidateTarget(w, moved, ImageBatch(image)[k].1)
  {
    var s :| s in w.Live() && s.begin == image.code.begin && s.executable && image.code.begin + image.code.size <= s.usableEnd;
    var p, i := Locate(w.pools, s);
    SlotInPool(env.page, w.pools[p], i);
  }

  // ---- why an object cannot be loaded ----

  datatype Setback = NoMemory(bytes: nat) | NotBuilt(code: nat, states: seq<nat>) | NotReady(k: nat, target: nat)

  /** There was nothing to reserve, or no room for it in some state of the run from `from` on. */
  ghost predicate Starved(page: nat, floor: nat, history: seq<World>, from: nat, hint: nat, bytes: nat)
    requires page > 0
  {
    !Reservable(page, bytes) || exists i: nat :: from <= i < |history| && CrowdedAt(page, floor, history[i], hint, bytes)
  }

  ghost predicate CrowdedAt(page: nat, floor: nat, w: World, hint: nat, bytes: nat)
    requires page > 0
  {
    Crowded(page, floor, w.bytes, w.pools, hint, Span(page, bytes))
  }

  /** What keeps the object from being loaded, besides the kernel: memory, its own image, or an entry it replaces. */
  ghost predicate Hinders(page: nat, floor: nat, history: seq<World>, from: nat, w: World, c: Candidate, why: Setback)
    requires page > 0
  {
    match why
    case NoMemory(bytes) =>
      (bytes == c.size || exists k :: 0 <= k < |c.contents| && bytes == |c.contents[k]|) && Starved(page, floor, history, from, c.hint, bytes)
    case NotBuilt(code, states) => !BuildsAt(c, code, states)
    case NotReady(k, target) => k < |c.replacements| && !Fit(w.bytes, w.Live(), c.replacements[k].entry, target)
  }

  lemma StarvedLonger(page: nat, floor: nat, history: seq<World>, more: seq<World>, from: nat, later: nat, hint: nat, bytes: nat)
    requires page > 0 && history <= more && from <= later && Starved(page, floor, history, later, hint, bytes)
    ensures Starved(page, floor, more, from, hint, bytes)
  {
    hide CrowdedAt, Reservable;
    if Reservable(page, bytes) {
      var i: nat :| later <= i < |history| && CrowdedAt(page, floor, history[i], hint, bytes);
      assert CrowdedAt(page, floor, more[i], hint, bytes);
    }
  }

  /** What hindered the object in a later state, hindered it before. */
  lemma HindersEarlier(
    env: Env, page: nat, floor: nat, history: seq<World>, more: seq<World>, from: nat, later: nat, w: World, w': World, c: Candidate, why: Setback)
    requires page > 0 && history <= more && from <= later && Hinders(page, floor, history, later, w', c, why)
    requires StayExcept(w, w', {}) && EntriesSame(env, w, w') && EntriesKnown(env, c.replacements)
    ensures Hinders(page, floor, more, from, w, c, why)
  {
    hide Starved, Fit, StayExcept, EntriesSame, LiveSlots;
    match why
    case NoMemory(bytes) =>
      StarvedLonger(page, floor, history, more, from, later, c.hint, bytes);
    case NotReady(k, target) =>
      if Fit(w.bytes, w.Live(), c.replacements[k].entry, target) {
        FitLater(env, w, w', c.replacements[k].entry, target);
      }
    case _ =>
  }

  lemma FitLater(env: Env, w: World, w': World, e: nat, target: nat)
    requires StayExcept(w, w', {}) && EntriesSame(env, w, w') && e in env.entries && Fit(w.bytes, w.Live(), e, target)
    ensures Fit(w'.bytes, w'.Live(), e, target)
  {
    hide LiveSlots;
    ReadSame(w.bytes, w'.bytes, e, WINDOW);
    var code := Read(w.bytes, e, WINDOW);
    if code[0] == JMP && InCode(w.Live(), JumpTarget(e, code)) {
      var s :| s in w.Live() && s.executable && s.begin <= JumpTarget(e, code) < s.usableEnd;
      assert s in w'.Live();
    }
  }

  // ---- which batches can be written ----

  /** The entry is readable, and patchable for the target. */
  ghost predicate Fit(bytes: Bytes, live: set<Slot>, entry: nat, target: nat) {
    Mapped(bytes, entry, WINDOW) && Patchable(bytes, live, entry, target)
  }

  /** Each entry has code that a redirect may replace: only such entries are read at all. */
  ghost predicate AllSaveable(bytes: Bytes, live: set<Slot>, batch: seq<(nat, nat)>) {
    forall k :: 0 <= k < |batch| ==> Fit(bytes, live, batch[k].0, batch[k].0)
  }

  /** Each of the first `n` entries is patchable for its target once those before it are written. */
  ghost predicate InTurn(bytes: Bytes, live: set<Slot>, batch: seq<(nat, nat)>, n: nat) {
    forall k :: 0 <= k < n <= |batch| ==> Fit(PatchFirst(bytes, Patches(batch), k), live, batch[k].0, batch[k].1)
  }

  ghost predicate Installable(bytes: Bytes, live: set<Slot>, batch: seq<(nat, nat)>) {
    AllSaveable(bytes, live, batch) && InTurn(bytes, live, batch, |batch|)
  }

  lemma TurnNone(bytes: Bytes, live: set<Slot>, batch: seq<(nat, nat)>)
    ensures InTurn(bytes, live, batch, 0)
  {
  }

  lemma TurnNext(bytes: Bytes, live: set<Slot>, batch: seq<(nat, nat)>, k: nat)
    requires k < |batch| && InTurn(bytes, live, batch, k)
    ensures InTurn(bytes, live, batch, k + 1) <==> Fit(PatchFirst(bytes, Patches(batch), k), live, batch[k].0, batch[k].1)
    ensures !Fit(PatchFirst(bytes, Patches(batch), k), live, batch[k].0, batch[k].1) ==> !InTurn(bytes, live, batch, |batch|)
  {
    hide Fit, PatchFirst;
  }

  /** On spaced entries the order does not matter: it is enough that each is patchable before the first write. */
  lemma SpacedInstallable(bytes: Bytes, live: set<Slot>, batch: seq<(nat, nat)>)
    requires Spaced(Patches(batch)) && forall k :: 0 <= k < |batch| ==> Fit(bytes, live, batch[k].0, batch[k].1)
    requires forall k :: 0 <= k < |batch| ==> InReach(batch[k].0, batch[k].0)
    ensures Installable(bytes, live, batch)
  {
    hide PatchFirst, InReach, Spaced;
    forall k | 0 <= k < |batch|
      ensures Fit(PatchFirst(bytes, Patches(batch), k), live, batch[k].0, batch[k].1)
    {
      SpacedUntouched(Patches(batch), k);
      FitStays(bytes, live, Patches(batch), k, batch[k].0, batch[k].1);
    }
  }

  /** The windows written so far miss the entry, so it is what it was. */
  lemma FitStays(bytes: Bytes, live: set<Slot>, patches: seq<Patch>, n: nat, entry: nat, target: nat)
    requires n <= |patches| && Fit(bytes, live, entry, target) && forall a: nat :: entry <= a < entry + WINDOW ==> !Touched(patches, n, a)
    ensures Fit(PatchFirst(bytes, patches, n), live, entry, target)
  {
    hide PatchFirst, Patchable, Touched;
    var m := PatchFirst(bytes, patches, n);
    forall a: nat | entry <= a < entry + WINDOW
      ensures m[a] == bytes[a]
    {
      PatchFirstFrame(bytes, patches, n, a);
    }
    ReadSame(bytes, m, entry, WINDOW);
    SamePatchable(bytes, m, live, entry, target);
  }

  lemma SamePatchable(bytes: Bytes, m: Bytes, live: set<Slot>, entry: nat, target: nat)
    requires Mapped(bytes, entry, WINDOW) && Mapped(m, entry, WINDOW) && Read(m, entry, WINDOW) == Read(bytes, entry, WINDOW)
    ensures Patchable(m, live, entry, target) <==> Patchable(bytes, live, entry, target)
  {
  }

  lemma SpacedUntouched(patches: seq<Patch>, k: nat)
    requires k < |patches| && Spaced(patches)
    ensures forall a: nat :: patches[k].entry <= a < patches[k].entry + WINDOW ==> !Touched(patches, k, a)
  {
  }

  /** Every entry that had a known prologue at the start can be reloaded again and again: in each state of a run, as long as its
      redirects led into loaded code, any prepared generation in reach can be installed. */
  lemma AlwaysInstallable(env: Env, w: World, batch: seq<(nat, nat)>)
    requires EnvOk(env) && EntriesSpaced(env) && Inv(env, w) && DistinctEntries(batch)
    requires forall k :: 0 <= k < |batch| ==> InReach(batch[k].0, batch[k].1) && InReach(batch[k].0, batch[k].0)
    requires forall k :: 0 <= k < |batch| ==> batch[k].0 in env.entries && KnownPrologue(Read(env.original, batch[k].0, WINDOW))
    requires forall e :: e in w.redirects ==> w.redirects[e] in w.targets
    ensures Installable(w.bytes, w.Live(), batch)
  {
    hide Inv, InReach, Patchable, LiveSlots, KnownPrologue;
    forall k | 0 <= k < |batch|
      ensures Fit(w.bytes, w.Live(), batch[k].0, batch[k].1)
    {
      EntryFit(env, w, batch[k].0, batch[k].1);
    }
    SpacedBatch(env, batch);
    SpacedInstallable(w.bytes, w.Live(), batch);
  }

  lemma SpacedBatch(env: Env, batch: seq<(nat, nat)>)
    requires EntriesSpaced(env) && DistinctEntries(batch) && forall k :: 0 <= k < |batch| ==> batch[k].0 in env.entries
    ensures Spaced(Patches(batch))
  {
    forall i, j | 0 <= i < j < |batch|
      ensures batch[i].0 + WINDOW <= batch[j].0 || batch[j].0 + WINDOW <= batch[i].0
    {
      assert batch[i].0 != batch[j].0;
    }
  }

  lemma EntryFit(env: Env, w: World, e: nat, target: nat)
    requires EnvOk(env) && EntriesSpaced(env) && Inv(env, w) && e in env.entries && InReach(e, target)
    requires KnownPrologue(Read(env.original, e, WINDOW)) && (e in w.redirects ==> w.redirects[e] in w.targets)
    ensures Fit(w.bytes, w.Live(), e, target)
  {
    hide ArenaInv, TargetsOk, EntriesOk, RedirectOk, LiveSlots;
    if e in w.redirects {
      NoDanglingRedirect(env, w, e);
    } else {
      ReadSame(env.original, w.bytes, e, WINDOW);
    }
  }

  /** A rewrite has bytes, and they stay in the image of one of the objects. */
  predicate RewriteFits(reloads: seq<Image>, r: Rewrite) {
    r.index < |reloads| && r.bytes != [] && r.offset + |r.bytes| <= reloads[r.index].code.size
  }

  predicate AllFit(reloads: seq<Image>, rewrites: seq<Rewrite>) {
    forall k :: 0 <= k < |rewrites| ==> RewriteFits(reloads, rewrites[k])
  }

  /** The images of the generation as loading and linking make them. */
  ghost predicate LinkedAs(w: World, reloads: seq<Image>, members: seq<Candidate>, link: seq<Image> -> Option<seq<Rewrite>>) {
    link(reloads).Some? && AllLaid(w, reloads, members, link(reloads).value, |link(reloads).value|)
  }

  /** The objects were loaded, but they do not link, or two of them replace one entry. */
  ghost predicate Mislinked(images: seq<Image>, members: seq<Candidate>, link: seq<Image> -> Option<seq<Rewrite>>) {
    AllBuilt(images, members) && (link(images).Some? ==> !AllFit(images, link(images).value) || !DistinctEntries(Batch(images)))
  }

  /** What keeps the group from being prepared, besides the kernel. */
  ghost predicate GroupHindered(
    page: nat, floor: nat, history: seq<World>, from: nat, w: World, members: seq<Candidate>, link: seq<Image> -> Option<seq<Rewrite>>)
    requires page > 0
  {
    || (exists k: nat, why :: k < |members| && Hinders(page, floor, history, from, w, members[k], why))
    || (exists images :: Mislinked(images, members, link))
  }

  lemma AllLaidAlone(w: World, reloads: seq<Image>, members: seq<Candidate>, rewrites: seq<Rewrite>)
    requires AllLaid(w, reloads, members, [], 0)
    ensures AllLaid(w, reloads, members, rewrites, 0)
  {
    hide Piece;
  }

  lemma LaidOneMore(
    env: Env, w: World, w': World, reloads: seq<Image>, members: seq<Candidate>, image: Image, c: Candidate, more: set<nat>)
    requires Grows(env, w, w', more) && AllLaid(w, reloads, members, [], 0) && Laid(w', image, c, [], 0, 0)
    ensures AllLaid(w', reloads + [image], members + [c], [], 0)
  {
    hide Laid, StayExcept, Clear, EntriesSame;
    AllLaidStay(w, w', {}, reloads, members, [], 0);
    LaidAlone(w', image, c, |reloads|);
  }

  lemma LoadedSame(env: Env, w: World, w': World, reloads: seq<Image>)
    requires AllLoaded(env, w, reloads) && w'.pools == w.pools
    ensures AllLoaded(env, w', reloads)
  {
  }

  lemma CodeFits(env: Env, w: World, w': World, reloads: seq<Image>, k: nat)
    requires AllLoaded(env, w, reloads) && w'.pools == w.pools && k < |reloads|
    ensures Fits(w'.Live(), reloads[k].code.begin, reloads[k].code.size)
  {
    hide LiveSlots;
    assert Loaded(env, w, reloads[k]);
    var s :| s in w.Live() && s.begin == reloads[k].code.begin && s.executable && reloads[k].code.begin + reloads[k].code.size <= s.usableEnd;
    assert SlotFor(w'.Live(), reloads[k].code.begin, s);
  }

  lemma RewroteWithin(w: World, w': World, was: Bytes, begins: set<nat>, begin: nat, offset: nat, bytes: seq<byte>)
    requires WrittenIn(w.Live(), was, w.bytes, begins) && begin in begins && RewroteAt(w, w', begin, offset, bytes)
    ensures WrittenIn(w'.Live(), was, w'.bytes, begins)
  {
    hide WrittenIn, LiveSlots;
    WrittenMore(w.Live(), was, w.bytes, begins, begin, offset, bytes);
  }

  lemma AloneIn(page: nat, w: World, begins: set<nat>, s: Slot, a: nat)
    requires ArenaOk(page, w.pools) && s in w.Live() && s.begin !in begins && s.begin <= a < s.usableEnd
    ensures !InSlots(w.Live(), begins, a)
  {
    hide ArenaOk, LiveSlots;
    forall t | t in w.Live() && t.begin in begins
      ensures !(t.begin <= a < t.usableEnd)
    {
      LiveSlotsDisjoint(page, w.pools, s, t);
      LiveBounds(page, w.pools, s);
      LiveBounds(page, w.pools, t);
    }
  }

  /** Writing into the slots that came leaves what was there. */
  lemma WrittenGrows(env: Env, w: World, w': World, w'': World, more: set<nat>)
    requires Grows(env, w, w', more) && w''.owned == w'.owned && w''.pools == w'.pools && EntriesSame(env, w', w'')
    requires ArenaOk(env.page, w'.pools) && WrittenIn(w'.Live(), w'.bytes, w''.bytes, more)
    ensures Grows(env, w, w'', more)
  {
    hide ArenaOk, LiveSlots, EntriesSame;
    forall s | s in w'.Live() && s.begin !in more
      ensures Unwritten(w'.bytes, w''.bytes, s)
    {
      forall a: nat | s.begin <= a < s.usableEnd && a in w'.bytes
        ensures w''.bytes[a] == w'.bytes[a]
      {
        AloneIn(env.page, w', more, s, a);
      }
    }
    GrowsFilled(env, w, w', w'', more, more);
  }

  lemma GrowsAgain(env: Env, w: World, w': World, w'': World, more: set<nat>)
    requires Grows(env, w, w', more) && Grows(env, w', w'', {})
    ensures Grows(env, w, w'', more)
  {
    hide StayExcept, Clear, EntriesSame;
    GrowsJoin(env, w, w', w'', more, {});
    assert more + {} == more;
  }

  lemma EntriesOf(env: Env, c: Candidate)
    requires CandidateOk(env, c)
    ensures EntriesKnown(env, c.replacements)
  {
  }

  lemma NoStates(w: World)
    ensures StatesLaid(w, [], [])
  {
  }

  lemma OneMoreState(w: World, w': World, states: seq<Handle>, contents: seq<seq<byte>>, h: Handle, content: seq<byte>)
    requires StatesLaid(w, states, contents) && StayExcept(w, w', {}) && Piece(w', h.begin, content)
    ensures StatesLaid(w', states + [h], contents + [content])
  {
    hide StayExcept, Piece;
    forall j | 0 <= j < |states|
      ensures Piece(w', states[j].begin, contents[j])
    {
      PieceStays(w, w', {}, states[j].begin, contents[j]);
    }
  }

  /** Nothing that was there is in the slot that came. */
  lemma NewSlotStays(w: World, w': World, w'': World, begin: nat)
    requires StayExcept(w, w', {}) && StayExcept(w', w'', {begin}) && Clear(w.Live(), {begin})
    ensures StayExcept(w, w'', {})
  {
    hide LiveSlots;
  }

  lemma NotReserved(page: nat, floor: nat, history: seq<World>, from: nat, w: World, hint: nat, bytes: nat)
    requires page > 0 && from < |history| && w == history[|history| - 1]
    requires Reservable(page, bytes) ==> Crowded(page, floor, w.bytes, w.pools, hint, Span(page, bytes))
    ensures Starved(page, floor, history, from, hint, bytes)
  {
    hide Crowded, Reservable;
    if Reservable(page, bytes) {
      assert CrowdedAt(page, floor, history[|history| - 1], hint, bytes);
    }
  }

  lemma CodeHinders(page: nat, floor: nat, history: seq<World>, from: nat, w: World, c: Candidate)
    requires page > 0 && Starved(page, floor, history, from, c.hint, c.size)
    ensures Hinders(page, floor, history, from, w, c, NoMemory(c.size))
  {
  }

  lemma StateHinders(page: nat, floor: nat, history: seq<World>, from: nat, later: nat, w: World, c: Candidate, k: nat)
    requires page > 0 && from <= later && k < |c.contents| && Starved(page, floor, history, later, c.hint, |c.contents[k]|)
    ensures Hinders(page, floor, history, from, w, c, NoMemory(|c.contents[k]|))
  {
    StarvedLonger(page, floor, history, history, from, later, c.hint, |c.contents[k]|);
  }

  lemma NotBuiltWhen(c: Candidate, code: nat, states: seq<nat>)
    ensures c.build(code, states).None? ==> !BuildsAt(c, code, states)
    ensures c.build(code, states).Some? ==> (BuildsAt(c, code, states) <==> 0 < |c.build(code, states).value| <= c.size)
  {
  }

  lemma SlotStill(w: World, w': World, s: Slot)
    requires StayExcept(w, w', {}) && s in w.Live()
    ensures s in w'.Live()
  {
    hide LiveSlots;
  }

  /** The image is laid once its code is written: its storage was before. */
  lemma LaidOnce(w: World, w': World, image: Image, c: Candidate, bytes: seq<byte>)
    requires c.build(image.code.begin, Begins(image.states)) == Some(bytes) && 0 < |bytes| <= c.size
    requires StatesLaid(w, image.states, c.contents) && StayExcept(w, w', {image.code.begin}) && Piece(w', image.code.begin, bytes)
    requires image.code.begin !in Elements(Begins(image.states))
    ensures Laid(w', image, c, [], 0, 0)
  {
    hide StayExcept, Piece;
    forall j | 0 <= j < |image.states|
      ensures Piece(w', image.states[j].begin, c.contents[j])
    {
      assert Begins(image.states)[j] == image.states[j].begin;
      assert image.states[j].begin in Elements(Begins(image.states));
      PieceStays(w, w', {image.code.begin}, image.states[j].begin, c.contents[j]);
    }
  }

  lemma HindersLonger(page: nat, floor: nat, history: seq<World>, more: seq<World>, from: nat, w: World, c: Candidate, why: Setback)
    requires page > 0 && history <= more && Hinders(page, floor, history, from, w, c, why)
    ensures Hinders(page, floor, more, from, w, c, why)
  {
    hide Starved, Fit, BuildsAt;
    if why.NoMemory? {
      StarvedLonger(page, floor, history, more, from, from, c.hint, why.bytes);
    }
  }

  lemma GrantStays(w: World, w': World, s: Slot)
    requires w'.Live() == w.Live() + {s} && Extends(w.bytes, w'.bytes)
    ensures StayExcept(w, w', {})
  {
    hide LiveSlots;
  }

  /** What happens inside the extent of one slot leaves the bytes of every other. */
  lemma ChangeStays(page: nat, w: World, w': World, s: Slot)
    requires ArenaOk(page, w.pools) && s in w.Live() && ChangedWithin(w.bytes, w'.bytes, s.begin, s.extentEnd)
    requires forall t :: t in w.Live() && t != s ==> t in w'.Live()
    ensures StayExcept(w, w', {s.begin})
  {
    hide ArenaOk, LiveSlots;
    forall t | t in w.Live() && t.begin != s.begin
      ensures Unwritten(w.bytes, w'.bytes, t)
    {
      LiveSlotsDisjoint(page, w.pools, s, t);
      LiveBounds(page, w.pools, t);
    }
  }

  class NativeSession {
    ghost const env: Env
    const pages: CodePages
    const table: StateTable
    var activeAllocations: seq<nat>
    var poisoned: bool
    var applied: nat
    ghost var redirects: map<nat, nat>
    ghost var targets: set<nat>
    ghost var closed: bool
    /** Every state the session has been in: always a run. */
    ghost var history: seq<World>

    ghost function Now(): World
      reads this`activeAllocations, this`redirects, this`targets, this`poisoned, this`closed, pages, pages.memory`bytes
    {
      World(pages.memory.bytes, pages.pools, pages.owned, Elements(activeAllocations), redirects, targets, poisoned, closed)
    }

    ghost predicate Valid()
      reads this`activeAllocations, this`redirects, this`targets, this`poisoned, this`closed, this`history, pages, pages.memory`bytes
    {
      && Run(env, history) && history[|history| - 1] == Now()
      && pages.page == env.page
      && (!closed ==> pages.Valid())
      && Distinct(activeAllocations)
    }

    constructor (ghost env: Env, pages: CodePages)
      requires EnvOk(env) && pages.Valid() && pages.page == env.page
      requires pages.pools == [] && pages.owned == {} && pages.memory.bytes == env.original
      ensures Valid() && this.pages == pages && this.env == env && !poisoned && !closed
      ensures activeAllocations == [] && fresh(table)
    {
      this.env := env;
      this.pages := pages;
      table := new StateTable();
      activeAllocations, poisoned, applied := [], false, 0;
      redirects, targets, closed := map[], {}, false;
      history := [World(env.original, [], {}, {}, map[], {}, false, false)];
      new;
      assert Elements(activeAllocations) == {};
    }

    /** The current state continues the run. */
    ghost method Record()
      requires Run(env, history) && Next(env, history[|history| - 1], Now())
      requires pages.page == env.page && (!closed ==> pages.Valid()) && Distinct(activeAllocations)
      modifies this`history
      ensures Valid() && history == old(history) + [Now()]
    {
      var h := history + [Now()];
      forall i | 0 < i < |h|
        ensures StepAt(env, h, i)
      {
        if i < |history| {
          assert StepAt(env, history, i);
        }
      }
      history := h;
    }

    lemma HasHistory()
      requires Valid()
      ensures history != []
    {
    }

    lemma ActiveOwned()
      requires Valid()
      ensures Now().active <= Now().owned
    {
      NowInv();
    }

    lemma NowInv()
      requires Valid()
      ensures Inv(env, Now()) && EnvOk(env)
    {
      RunKeepsInv(env, history, |history| - 1);
    }

    /** Reserve memory for a candidate. */
    method Reserve(hint: nat, bytes: nat) returns (h: Option<Handle>)
      requires Valid() && !closed && hint <= MAX_64 && bytes <= MAX_64
      modifies this`history, pages, pages.memory
      ensures Valid() && old(history) <= history
      ensures h.None? ==> Now() == old(Now())
      ensures h.Some? ==> Now().owned == old(Now().owned) + {h.value.begin} && h.value.begin !in old(Now().owned)
      ensures h.Some? ==> h.value.size == bytes && forall a :: h.value.begin <= a < h.value.begin + bytes ==> WithinRel32(a, hint)
      ensures h.Some? ==> exists s :: Added(old(Now()).Live(), Now().Live(), s, h.value, bytes)
      ensures EntriesSame(env, old(Now()), Now()) && StayExcept(old(Now()), Now(), {})
      ensures pages.memory.refused >= old(pages.memory.refused)
      ensures h.None? && pages.memory.refused == old(pages.memory.refused) && Reservable(pages.page, bytes) ==>
                Crowded(pages.page, pages.floor, Now().bytes, Now().pools, hint, Span(pages.page, bytes))
    {
      hide Next, Run, RedirectOk, EntriesOk, ArenaOk, PoolRangesMapped, LiveSlots, Reserved, SameAt, Extends;
      NowInv();
      ghost var w := Now();
      h := pages.ReserveNear(hint, bytes);
      if h.Some? {
        ghost var s: Slot :| s.begin == h.value.begin && Granted(pages.page, LiveSlots(w.pools), pages.pools, s, hint, Span(pages.page, bytes))
                             && Reserved(pages.page, w.bytes, w.pools, pages.memory.bytes, pages.pools, s);
        ReserveIsNext(env, w, Now(), s);
        ReserveKeeps(env, w, Now(), s);
        ReservedOk(env.page, w.bytes, w.pools, pages.memory.bytes, pages.pools, s);
        assert Added(w.Live(), Now().Live(), s, h.value, bytes);
        GrantStays(w, Now(), s);
        Record();
      } else {
        NothingChanges(env, w);
        StaySame(w, Now());
      }
    }

    /** Write an image into its reservation and make it executable. */
    method Fill(h: Handle, image: seq<byte>) returns (r: CodeCommit, ghost s: Slot)
      requires Valid() && !closed && h.begin in Now().owned - Now().active
      modifies this`history, pages, pages.memory
      ensures Valid() && old(history) <= history
      ensures FillStep(old(Now()), Now(), s) && s.begin == h.begin
      ensures r == Committed ==> Now().Live() == old(Now()).Live() - {s} + {s.(executable := true)}
      ensures r != Committed ==> Now().Live() == old(Now()).Live()
      ensures EntriesSame(env, old(Now()), Now()) && StayExcept(old(Now()), Now(), {h.begin})
      ensures r == Committed ==> Now().bytes == Write(old(Now()).bytes, h.begin, image) && |image| <= h.size
      ensures pages.memory.refused >= old(pages.memory.refused)
      ensures r == Refused <==> image == []
      ensures r == Failed && pages.memory.refused == old(pages.memory.refused) ==> |image| > Min(h.size, s.usableEnd - s.begin)
    {
      hide Next, Run, RedirectOk, EntriesOk, ArenaOk, PoolRangesMapped, LiveSlots, SameAt, Rewritten;
      NowInv();
      ghost var w := Now();
      r, s := pages.CommitCode(h, image);
      FillIsNext(env, w, Now(), s);
      FillKeeps(env, w, Now(), s);
      InvAllocates(env, w);
      SlotBounds(env, w, s);
      ChangeStays(env.page, w, Now(), s);
      Record();
    }

    /** Destroy the handle of a candidate reservation. */
    method Drop(b: nat) returns (ghost s: Slot)
      requires Valid() && !closed && b in Now().owned - Now().active
      modifies this`history, pages, pages.memory
      ensures Valid() && old(history) <= history
      ensures DropStep(old(Now()), Now(), s) && s.begin == b
      ensures StayExcept(old(Now()), Now(), {b}) && EntriesSame(env, old(Now()), Now())
      ensures pages.memory.refused >= old(pages.memory.refused)
    {
      hide Next, Run, RedirectOk, EntriesOk, ArenaOk, PoolRangesMapped, LiveSlots, SameAt, Rewritten;
      NowInv();
      ghost var w := Now();
      s := pages.Reclaim(b);
      DropIsNext(env, w, Now(), s);
      DropKeeps(env, w, Now(), s);
      InvAllocates(env, w);
      ChangeStays(env.page, w, Now(), s);
      Record();
    }

    /** End of life of one kept reservation: it goes over to the process. */
    method Release(b: nat) returns (ghost s: Slot)
      requires Valid() && !closed && activeAllocations != [] && b == activeAllocations[0]
      modifies this`history, this`activeAllocations, pages
      ensures Valid() && old(history) <= history && activeAllocations == old(activeAllocations)[1..]
      ensures ReleaseStep(old(Now()), Now(), s) && s.begin == b
    {
      hide Next, Run, RedirectOk, EntriesOk, ArenaOk, PoolRangesMapped, LiveSlots, Rewritten;
      NowInv();
      ghost var w := Now();
      s := pages.ReleaseToProcess(b);
      activeAllocations := activeAllocations[1..];
      assert Elements(activeAllocations) == w.active - {b} by {
        assert old(activeAllocations) == [b] + activeAllocations;
      }
      ReleaseIsNext(env, w, Now(), s);
      Record();
    }

    /** Destroy a whole list of candidate reservations. */
    method DropAll(bs: seq<nat>)
      requires Valid() && !closed && Distinct(bs) && Elements(bs) <= Now().owned - Now().active
      modifies this`history, pages, pages.memory
      ensures Valid() && old(history) <= history
      ensures Now().owned == old(Now().owned) - Elements(bs)
      ensures StayExcept(old(Now()), Now(), Elements(bs)) && EntriesSame(env, old(Now()), Now())
      ensures pages.memory.refused >= old(pages.memory.refused)
    {
      hide Next, Run, ArenaOk, PoolRangesMapped, OwnersOk, ChangedWithin, Dropped, SameRanges, Rewritten, EntriesSame, LiveSlots, StayExcept;
      NothingChanges(env, Now());
      StaySame(Now(), Now());
      assert Elements(bs[..0]) == {};
      for i := 0 to |bs|
        invariant Valid() && old(history) <= history
        invariant Now().owned == old(Now().owned) - Elements(bs[..i])
        invariant StayExcept(old(Now()), Now(), Elements(bs[..i])) && EntriesSame(env, old(Now()), Now())
        invariant pages.memory.refused >= old(pages.memory.refused)
      {
        ghost var w := Now();
        assert bs[i] in Elements(bs) && bs[i] !in Elements(bs[..i]);
        var _ := Drop(bs[i]);
        EntriesJoin(env, old(Now()), w, Now());
        StayJoin(old(Now()), w, Now(), Elements(bs[..i]), {bs[i]});
        assert bs[..i + 1] == bs[..i] + [bs[i]];
        assert Elements(bs[..i + 1]) == Elements(bs[..i]) + {bs[i]};
      }
      assert bs[..|bs|] == bs;
    }

    /** Drop a generation that was not committed. */
    method Discard(reloads: seq<Image>)
      requires Valid() && !closed && Prepared(reloads)
      modifies this`history, pages, pages.memory
      ensures Valid() && old(history) <= history
      ensures Now().owned == old(Now().owned) - Elements(Handles(reloads))
      ensures StayExcept(old(Now()), Now(), Elements(Handles(reloads))) && EntriesSame(env, old(Now()), Now())
      ensures pages.memory.refused >= old(pages.memory.refused)
    {
      hide Next, Run, Loaded;
      DropAll(Handles(reloads));
    }

    /** The session ends: kept reservations go to the process, the remaining candidates are reclaimed,
        and the allocator unmaps what nothing can reach any more. */
    method End(candidates: seq<nat>)
      requires Valid() && !closed && Distinct(candidates) && Elements(candidates) == Now().owned - Now().active
      modifies this`history, this`activeAllocations, this`closed, pages, pages.memory
      ensures Valid() && closed && old(history) <= history && Now().owned == {}
      ensures OnlyRetained(Now().bytes, Now().pools, |Now().pools|)
      ensures pages.memory.refused >= old(pages.memory.refused)
    {
      hide Next, Run, ArenaOk, PoolRangesMapped, OwnersOk, ChangedWithin, Dropped, SameRanges, Kept, OnlyRetained;
      while activeAllocations != []
        invariant Valid() && !closed && old(history) <= history
        invariant Elements(candidates) == Now().owned - Now().active && pages.memory.refused == old(pages.memory.refused)
        decreases |activeAllocations|
      {
        ActiveOwned();
        var _ := Release(activeAllocations[0]);
      }
      assert Elements(activeAllocations) == {};
      DropAll(candidates);
      Close();
    }

    method Close()
      requires Valid() && !closed && activeAllocations == [] && Now().owned == {}
      modifies this`history, this`closed, pages.memory`bytes
      ensures Valid() && closed && old(history) <= history && Now().owned == {}
      ensures OnlyRetained(Now().bytes, Now().pools, |Now().pools|)
    {
      hide Next, Run, ArenaOk, OwnersOk, PoolRangesMapped, InPools, LiveSlots, OnlyRetained;
      NowInv();
      ghost var w := Now();
      pages.Destroy();
      closed := true;
      CloseIsNext(env, w, Now());
      Record();
    }

    /** The entries of one object join those seen so far, unless one was seen before. */
    method CollectEntries(image: Image, before: set<nat>, ghost batch: seq<(nat, nat)>) returns (ok: bool, seen: set<nat>)
      requires DistinctEntries(batch) && forall e :: e in before <==> Names(batch, e)
      ensures ok <==> DistinctEntries(batch + ImageBatch(image))
      ensures ok ==> forall e :: e in seen <==> Names(batch + ImageBatch(image), e)
    {
      ghost var ours := ImageBatch(image);
      seen := before;
      assert batch + ours[..0] == batch;
      for j := 0 to |image.replacements|
        invariant DistinctEntries(batch + ours[..j])
        invariant forall e :: e in seen <==> Names(batch + ours[..j], e)
      {
        ghost var sofar := batch + ours[..j];
        assert batch + ours[..j + 1] == sofar + [ours[j]];
        if image.replacements[j].entry in seen {
          ghost var k :| 0 <= k < |sofar| && sofar[k].0 == ours[j].0;
          assert (batch + ours)[k].0 == (batch + ours)[|sofar|].0;
          return false, seen;
        }
        seen := seen + {image.replacements[j].entry};
        NamesOneMore(sofar, ours[j]);
      }
      assert ours[..|image.replacements|] == ours;
      ok := true;
    }

    /** No two objects of a generation may replace the same entry. */
    method ValidateGeneration(reloads: seq<Image>) returns (ok: bool)
      ensures ok <==> DistinctEntries(Batch(reloads))
    {
      var seen: set<nat> := {};
      for i := 0 to |reloads|
        invariant DistinctEntries(Batch(reloads[..i]))
        invariant forall e :: e in seen <==> Names(Batch(reloads[..i]), e)
      {
        assert reloads[..i + 1][..i] == reloads[..i];
        ok, seen := CollectEntries(reloads[i], seen, Batch(reloads[..i]));
        if !ok {
          BatchPrefix(reloads, i + 1);
          return false;
        }
      }
      assert reloads[..|reloads|] == reloads;
      ok := true;
    }

    /** The snapshots were taken from memory `m0`, one per redirect of the batch. */
    static ghost predicate Snapshots(m0: Bytes, saved: seq<SavedEntry>, batch: seq<(nat, nat)>) {
      |saved| == |batch| &&
      forall k :: 0 <= k < |saved| ==>
        Mapped(m0, batch[k].0, WINDOW) && saved[k] == SavedEntry(batch[k].0, batch[k].1, Read(m0, batch[k].0, WINDOW))
    }

    /** Write one snapshot back. */
    method UndoNext(saved: seq<SavedEntry>, k: nat, ghost m0: Bytes, ghost batch: seq<(nat, nat)>) returns (ok: bool)
      requires k < |saved| && Snapshots(m0, saved, batch) && pages.memory.bytes.Keys == m0.Keys
      modifies pages.memory
      ensures pages.memory.bytes == if ok then Restored(m0, old(pages.memory.bytes), Patches(batch)[k]) else old(pages.memory.bytes)
      ensures pages.memory.refused == old(pages.memory.refused) + if ok then 0 else 1
    {
      RestoredIsPatched(m0, pages.memory.bytes, Patches(batch)[k]);
      ok := pages.RestoreEntry(saved[k].entry, saved[k].original);
    }

    /** Write the first `patched` snapshots back, last one first, and count the writes that fail. */
    method UndoEntries(saved: seq<SavedEntry>, patched: nat, ghost m0: Bytes, ghost batch: seq<(nat, nat)>)
      returns (failures: nat)
      requires patched <= |saved| && Snapshots(m0, saved, batch)
      requires pages.memory.bytes == PatchFirst(m0, Patches(batch), patched)
      modifies pages.memory
      ensures RollingBack(m0, pages.memory.bytes, Patches(batch), patched, 0, failures)
      ensures pages.memory.bytes.Keys == m0.Keys
      ensures pages.memory.refused == old(pages.memory.refused) + failures
    {
      hide RollingBack, PatchFirst, Restored;
      ghost var patches := Patches(batch);
      assert AllMapped(m0, patches);
      failures := 0;
      var index := patched;
      RollbackStarts(m0, patches, patched);
      while index > 0
        invariant 0 <= index <= patched
        invariant RollingBack(m0, pages.memory.bytes, patches, patched, index, failures)
        invariant pages.memory.refused == old(pages.memory.refused) + failures
      {
        ghost var m := pages.memory.bytes;
        RollingBackKeys(m0, m, patches, patched, index, failures);
        var ok := UndoNext(saved, index - 1, m0, batch);
        if ok {
          RollbackRestores(m0, m, patches, patched, index, failures);
        } else {
          RollbackSkips(m0, m, patches, patched, index, failures);
          failures := failures + 1;
        }
        index := index - 1;
      }
      RollingBackKeys(m0, pages.memory.bytes, patches, patched, 0, failures);
    }

    /** Patch the next saved entry of a batch. */
    method WriteNext(saved: seq<SavedEntry>, k: nat, ghost m0: Bytes, ghost batch: seq<(nat, nat)>) returns (ok: bool)
      requires k < |saved| && Snapshots(m0, saved, batch) && pages.memory.bytes == PatchFirst(m0, Patches(batch), k)
      modifies pages.memory
      ensures ok ==> InReach(batch[k].0, batch[k].1)
      ensures pages.memory.bytes == PatchFirst(m0, Patches(batch), if ok then k + 1 else k)
      ensures pages.memory.refused >= old(pages.memory.refused)
      ensures ok <==> Fit(old(pages.memory.bytes), LiveSlots(pages.pools), batch[k].0, batch[k].1)
                      && pages.memory.refused == old(pages.memory.refused)
    {
      hide Patchable, InReach, Snapshots, PatchFirst, Mapped, Jump, LiveSlots, Patched;
      SavedNext(saved, k, m0, pages.memory.bytes, batch);
      ok := pages.PatchEntry(saved[k].entry, saved[k].target);
      if ok {
        PatchableReaches(old(pages.memory.bytes), LiveSlots(pages.pools), batch[k].0, batch[k].1);
      }
    }

    static lemma SavedNext(saved: seq<SavedEntry>, k: nat, m0: Bytes, m: Bytes, batch: seq<(nat, nat)>)
      requires k < |saved| && Snapshots(m0, saved, batch) && m == PatchFirst(m0, Patches(batch), k)
      ensures |batch| == |saved| && saved[k].entry == batch[k].0 && saved[k].target == batch[k].1
      ensures Mapped(m, batch[k].0, WINDOW)
      ensures PatchFirst(m0, Patches(batch), k + 1) == Patched(m, Patch(batch[k].0, Jump(batch[k].0, batch[k].1)))
    {
      hide Jump, Patched;
    }

    static lemma PatchableReaches(bytes: Bytes, live: set<Slot>, entry: nat, target: nat)
      requires Mapped(bytes, entry, WINDOW) && Patchable(bytes, live, entry, target)
      ensures InReach(entry, target)
    {
    }

    /** Patch all saved entries, or undo those already patched. */
    method WriteEntries(saved: seq<SavedEntry>, ghost batch: seq<(nat, nat)>) returns (r: WriteOutcome)
      requires Snapshots(pages.memory.bytes, saved, batch) && |saved| == |batch|
      modifies pages.memory
      ensures pages.memory.bytes.Keys == old(pages.memory.bytes.Keys)
      ensures r.AllWritten? ==> pages.memory.bytes == PatchFirst(old(pages.memory.bytes), Patches(batch), |batch|)
      ensures r.AllWritten? ==> AllInReach(batch, |batch|)
      ensures r.RolledBack? ==> r.undone < |batch| && pages.memory.bytes == old(pages.memory.bytes)
      ensures r.Broken? ==> r.written < |batch| && r.failures > 0 && AllInReach(batch, r.written)
      ensures r.Broken? ==> RollingBack(old(pages.memory.bytes), pages.memory.bytes, Patches(batch), r.written, 0, r.failures)
      ensures pages.memory.refused >= old(pages.memory.refused)
      ensures r.AllWritten? <==> InTurn(old(pages.memory.bytes), LiveSlots(pages.pools), batch, |batch|)
                                 && pages.memory.refused == old(pages.memory.refused)
      ensures r.Broken? ==> pages.memory.refused >= old(pages.memory.refused) + r.failures
    {
      hide RollingBack, InReach, Snapshots, PatchFirst, Fit, InTurn, LiveSlots;
      TurnNone(pages.memory.bytes, LiveSlots(pages.pools), batch);
      PatchNone(pages.memory.bytes, Patches(batch));
      ghost var m0 := pages.memory.bytes;
      var patched := 0;
      while patched < |saved|
        invariant 0 <= patched <= |saved|
        invariant pages.memory.bytes == PatchFirst(m0, Patches(batch), patched)
        invariant AllInReach(batch, patched)
        invariant InTurn(m0, LiveSlots(pages.pools), batch, patched) && pages.memory.refused == old(pages.memory.refused)
      {
        var ok := WriteNext(saved, patched, m0, batch);
        TurnNext(m0, LiveSlots(pages.pools), batch, patched);
        if !ok {
          var failures := UndoEntries(saved, patched, m0, batch);
          if failures != 0 {
            return Broken(patched, failures);
          }
          RollbackCompletes(m0, pages.memory.bytes, Patches(batch), patched);
          return RolledBack(patched);
        }
        ReachNext(batch, patched);
        patched := patched + 1;
      }
      r := AllWritten;
    }

    /** The bytes to restore, for every entry of the generation, before the first write. */
    method SnapshotAll(reloads: seq<Image>) returns (ok: bool, saved: seq<SavedEntry>)
      requires forall k :: 0 <= k < |Batch(reloads)| ==> Mapped(pages.memory.bytes, Batch(reloads)[k].0, WINDOW)
      ensures ok ==> Snapshots(pages.memory.bytes, saved, Batch(reloads))
      ensures ok <==> AllSaveable(pages.memory.bytes, LiveSlots(pages.pools), Batch(reloads))
    {
      hide Patchable, LiveSlots, Fit, Snapshots, AllSaveable, ImageBatch;
      saved := [];
      NoSnapshots(pages.memory.bytes, LiveSlots(pages.pools));
      for i := 0 to |reloads|
        invariant Snapshots(pages.memory.bytes, saved, Batch(reloads[..i]))
        invariant AllSaveable(pages.memory.bytes, LiveSlots(pages.pools), Batch(reloads[..i]))
      {
        assert reloads[..i + 1][..i] == reloads[..i];
        BatchPrefix(reloads, i + 1);
        MappedPrefix(pages.memory.bytes, Batch(reloads[..i + 1]), Batch(reloads));
        ok, saved := SnapshotImage(reloads[i], saved, Batch(reloads[..i]));
        if !ok {
          UnsaveablePrefix(pages.memory.bytes, LiveSlots(pages.pools), Batch(reloads[..i + 1]), Batch(reloads));
          return;
        }
      }
      assert reloads[..|reloads|] == reloads;
      ok := true;
    }

    static lemma NoSnapshots(bytes: Bytes, live: set<Slot>)
      ensures Snapshots(bytes, [], []) && AllSaveable(bytes, live, [])
    {
    }

    static lemma MappedPrefix(bytes: Bytes, front: seq<(nat, nat)>, batch: seq<(nat, nat)>)
      requires front <= batch && forall k :: 0 <= k < |batch| ==> Mapped(bytes, batch[k].0, WINDOW)
      ensures forall k :: 0 <= k < |front| ==> Mapped(bytes, front[k].0, WINDOW)
    {
      hide Mapped;
      assert forall k :: 0 <= k < |front| ==> front[k] == batch[k];
    }

    static lemma UnsaveablePrefix(bytes: Bytes, live: set<Slot>, front: seq<(nat, nat)>, batch: seq<(nat, nat)>)
      requires front <= batch && !AllSaveable(bytes, live, front)
      ensures !AllSaveable(bytes, live, batch)
    {
      hide Fit;
      var k :| 0 <= k < |front| && !Fit(bytes, live, front[k].0, front[k].0);
      assert front[k] == batch[k];
    }

    /** The snapshots of one object behind those of the objects before it. */
    method SnapshotImage(image: Image, before: seq<SavedEntry>, ghost batch: seq<(nat, nat)>) returns (ok: bool, saved: seq<SavedEntry>)
      requires Snapshots(pages.memory.bytes, before, batch) && AllSaveable(pages.memory.bytes, LiveSlots(pages.pools), batch)
      requires forall k :: 0 <= k < |batch + ImageBatch(image)| ==> Mapped(pages.memory.bytes, (batch + ImageBatch(image))[k].0, WINDOW)
      ensures ok ==> Snapshots(pages.memory.bytes, saved, batch + ImageBatch(image))
      ensures ok <==> AllSaveable(pages.memory.bytes, LiveSlots(pages.pools), batch + ImageBatch(image))
    {
      hide Patchable, LiveSlots;
      ghost var ours := ImageBatch(image);
      saved := before;
      assert batch + ours[..0] == batch;
      for j := 0 to |image.replacements|
        invariant Snapshots(pages.memory.bytes, saved, batch + ours[..j])
        invariant AllSaveable(pages.memory.bytes, LiveSlots(pages.pools), batch + ours[..j])
      {
        var replacement := image.replacements[j];
        assert (batch + ours)[|batch| + j] == ours[j];
        var original := pages.SnapshotEntry(replacement.entry);
        assert original.Some? <==> Fit(pages.memory.bytes, LiveSlots(pages.pools), replacement.entry, replacement.entry);
        if original.None? {
          return false, saved;
        }
        saved := saved + [SavedEntry(replacement.entry, Target(image, replacement.offset), original.value)];
        assert batch + ours[..j + 1] == batch + ours[..j] + [ours[j]];
      }
      assert ours[..|image.replacements|] == ours;
      ok := true;
    }

    /** A generation as preparation leaves it: its handles are distinct live candidates, its images
        loaded, and no two of its objects replace the same entry. */
    ghost predicate Prepared(reloads: seq<Image>)
      reads this, pages, pages.memory`bytes
    {
      Ready(env, Now(), reloads)
    }

    lemma PreparedBatch(reloads: seq<Image>)
      requires Valid() && Prepared(reloads)
      ensures BatchOk(env, Now(), Elements(Handles(reloads)), Batch(reloads))
      ensures AllInside(reloads) ==> AllAimed(Now(), Elements(Handles(reloads)), Batch(reloads))
      ensures forall k :: 0 <= k < |Batch(reloads)| ==> Mapped(Now().bytes, Batch(reloads)[k].0, WINDOW)
    {
      hide Next, Run, CandidateTarget, Loaded, RedirectOk, ArenaInv;
      NowInv();
      forall k | 0 <= k < |Batch(reloads)|
        ensures Batch(reloads)[k].0 in env.entries && Batch(reloads)[k].1 < TWO_64
        ensures AllInside(reloads) ==> CandidateTarget(Now(), Elements(Handles(reloads)), Batch(reloads)[k].1)
        ensures Mapped(Now().bytes, Batch(reloads)[k].0, WINDOW)
      {
        BatchTargets(env, Now(), reloads, Elements(Handles(reloads)), k);
      }
    }

    /** Keep every reservation of the generation. */
    method Keep(reloads: seq<Image>)
      requires Distinct(activeAllocations + Handles(reloads))
      modifies this`activeAllocations
      ensures activeAllocations == old(activeAllocations) + Handles(reloads)
      ensures Distinct(activeAllocations)
      ensures Elements(activeAllocations) == old(Elements(activeAllocations)) + Elements(Handles(reloads))
    {
      ghost var before := activeAllocations;
      for i := 0 to |reloads|
        invariant activeAllocations == before + Handles(reloads[..i])
      {
        assert reloads[..i + 1][..i] == reloads[..i];
        activeAllocations := activeAllocations + ImageHandles(reloads[i]);
      }
      assert reloads[..|reloads|] == reloads;
    }

    /** Between the writes of a commit and its record: only entry bytes differ from the recorded `w`. */
    ghost predicate Writing(reloads: seq<Image>, w: World)
      reads this, pages, pages.memory`bytes
    {
      && Run(env, history) && history[|history| - 1] == w && Inv(env, w) && !w.closed && !w.poisoned
      && Now() == w.(bytes := pages.memory.bytes, poisoned := poisoned)
      && pages.page == env.page && pages.Valid()
      && Distinct(activeAllocations) && Distinct(Handles(reloads))
      && BatchOk(env, w, Elements(Handles(reloads)), Batch(reloads))
    }

    /** Keep every handle of the generation; the session's state becomes `next`. */
    method Settle(reloads: seq<Image>, ghost w: World, ghost next: World)
      requires Writing(reloads, w) && Next(env, w, next)
      requires next == w.(bytes := pages.memory.bytes, active := w.active + Elements(Handles(reloads)),
                          redirects := next.redirects, targets := next.targets, poisoned := poisoned)
      modifies this`activeAllocations, this`redirects, this`targets, this`history
      ensures Valid() && Now() == next && history == old(history) + [next]
      ensures activeAllocations == old(activeAllocations) + Handles(reloads)
    {
      hide Next;
      DisjointConcat(activeAllocations, Handles(reloads));
      Keep(reloads);
      redirects, targets := next.redirects, next.targets;
      Record();
    }

    /** The whole batch of entry writes, with its rollback. */
    method WriteGeneration(reloads: seq<Image>) returns (r: Option<WriteOutcome>)
      requires Valid() && !closed && !poisoned && Prepared(reloads)
      modifies pages.memory
      ensures Writing(reloads, old(Now()))
      ensures AllInside(reloads) ==> AllAimed(old(Now()), Elements(Handles(reloads)), Batch(reloads))
      ensures r.None? || r.value.RolledBack? ==> pages.memory.bytes == old(pages.memory.bytes)
      ensures r.Some? && r.value.AllWritten? ==>
                pages.memory.bytes == PatchFirst(old(pages.memory.bytes), Patches(Batch(reloads)), |Batch(reloads)|)
                && AllInReach(Batch(reloads), |Batch(reloads)|)
      ensures r.Some? && r.value.Broken? ==>
                r.value.written < |Batch(reloads)| && r.value.failures > 0 && AllInReach(Batch(reloads), r.value.written)
                && RollingBack(old(pages.memory.bytes), pages.memory.bytes, Patches(Batch(reloads)), r.value.written, 0, r.value.failures)
      ensures pages.memory.refused >= old(pages.memory.refused)
      ensures r == Some(AllWritten)
              <==> Installable(old(Now()).bytes, old(Now()).Live(), Batch(reloads)) && pages.memory.refused == old(pages.memory.refused)
      ensures r.Some? && r.value.Broken? ==> pages.memory.refused > old(pages.memory.refused)
    {
      NowInv();
      PreparedBatch(reloads);
      ghost var before := pages.memory.bytes;
      var ok, saved := SnapshotAll(reloads);
      if !ok {
        return None;
      }
      var outcome := WriteEntries(saved, Batch(reloads));
      SameRangesMapped(pages.pools, pages.pools, before, pages.memory.bytes);
      r := Some(outcome);
    }

    /** Install a whole generation, or leave the program as it was. Only when a rollback cannot restore
        every written entry, the session keeps all candidate memory and becomes unusable. */
    method Commit(reloads: seq<Image>) returns (r: CommitOutcome)
      requires Valid() && !closed && Prepared(reloads)
      modifies this`activeAllocations, this`poisoned, this`applied, this`redirects, this`targets, this`history, pages.memory, table
      ensures Valid() && old(history) <= history
      ensures r == Unusable <==> old(poisoned)
      ensures history == if r.Applied? || r.Poisoned? then old(history) + [Now()] else old(history)
      ensures !old(poisoned) && !Publishable(old(table.committed), Definitions(reloads)) ==> r == Rejected(0)
      ensures r.Applied? ==> CommitStep(env, old(Now()), Now(), Elements(Handles(reloads)), Batch(reloads))
      ensures (r.Applied? || r.Poisoned?) && AllInside(reloads) ==> Vouched(Now(), Batch(reloads))
      ensures r.Applied? ==> r.redirected == |Batch(reloads)| && applied == old(applied) + 1
      ensures r.Applied? ==> table.committed == old(table.committed) + Introduced(Definitions(reloads))
      ensures !r.Applied? ==> applied == old(applied) && table.committed == old(table.committed)
      ensures r.Rejected? || r.Unusable? ==> Now() == old(Now()) && activeAllocations == old(activeAllocations)
      ensures r.Applied? || r.Poisoned? ==> activeAllocations == old(activeAllocations) + Handles(reloads)
      ensures r.Poisoned? ==> BrokeOff(env, old(Now()), Now(), Elements(Handles(reloads)), Batch(reloads))
      ensures pages.memory.refused >= old(pages.memory.refused)
      ensures r.Applied? <==> !old(poisoned) && Publishable(old(table.committed), Definitions(reloads))
                              && Installable(old(Now()).bytes, old(Now()).Live(), Batch(reloads))
                              && pages.memory.refused == old(pages.memory.refused)
      ensures r.Poisoned? ==> pages.memory.refused > old(pages.memory.refused)
    {
      hide Next, CommitStep, PoisonStep, RollingBack, Inv, BatchOk, Run, Loaded, Publishable, Ready, AllInReach, Batch, Handles, Definitions,
        Writing, Aimed, AllAimed, Vouched, AllInside, Installable, LiveSlots;
      if poisoned {
        return Unusable;
      }
      ghost var w := Now();
      var publishable := table.PrepareGenerationCommit(Definitions(reloads));
      if !publishable {
        return Rejected(0);
      }
      var outcome := WriteGeneration(reloads);
      if outcome.None? {
        NothingWritten(reloads, w);
        return Rejected(0);
      }
      match outcome.value {
        case RolledBack(undone) =>
          NothingWritten(reloads, w);
          r := Rejected(undone);
        case Broken(written, failures) =>
          Poison(reloads, w, written, failures);
          if AllInside(reloads) {
            AimedVouched(w, Now(), Elements(Handles(reloads)), Batch(reloads));
          }
          r := Poisoned;
        case AllWritten =>
          Install(reloads, w);
          if AllInside(reloads) {
            AimedVouched(w, Now(), Elements(Handles(reloads)), Batch(reloads));
          }
          table.CommitGeneration(Definitions(reloads));
          applied := applied + 1;
          r := Applied(|Batch(reloads)|);
      }
    }

    lemma NothingWritten(reloads: seq<Image>, w: World)
      requires Writing(reloads, w) && pages.memory.bytes == w.bytes && !poisoned
      ensures Valid() && Now() == w
    {
      hide Run, Inv, BatchOk;
    }

    /** The rollback was incomplete: what was loaded is kept for the process, and no call works any more. */
    method Poison(reloads: seq<Image>, ghost w: World, written: nat, failures: nat)
      requires Writing(reloads, w) && !poisoned
      requires written < |Batch(reloads)| && failures > 0 && AllInReach(Batch(reloads), written)
      requires RollingBack(w.bytes, pages.memory.bytes, Patches(Batch(reloads)), written, 0, failures)
      modifies this`activeAllocations, this`poisoned, this`redirects, this`targets, this`history
      ensures Valid() && history == old(history) + [Now()] && activeAllocations == old(activeAllocations) + Handles(reloads)
      ensures PoisonStep(env, w, Now(), Elements(Handles(reloads)), Batch(reloads), written, failures)
      ensures Now().targets == w.targets + Aimed(w, Elements(Handles(reloads)), Batch(reloads))
    {
      hide Next, PoisonStep, RollingBack, Inv, BatchOk, StepAt, Aimed, Batch, Handles, Elements, Exposed, AllInReach;
      ghost var moved := Elements(Handles(reloads));
      PoisonNext(env, w, pages.memory.bytes, moved, Batch(reloads), written, failures);
      poisoned := true;
      Settle(reloads, w, PoisonResult(w, pages.memory.bytes, moved, Batch(reloads), written));
    }

    /** Every entry is written: the reservations become the session's own. */
    method Install(reloads: seq<Image>, ghost w: World)
      requires Writing(reloads, w) && !poisoned && AllInReach(Batch(reloads), |Batch(reloads)|)
      requires pages.memory.bytes == PatchFirst(w.bytes, Patches(Batch(reloads)), |Batch(reloads)|)
      modifies this`activeAllocations, this`redirects, this`targets, this`history
      ensures Valid() && history == old(history) + [Now()] && activeAllocations == old(activeAllocations) + Handles(reloads)
      ensures CommitStep(env, w, Now(), Elements(Handles(reloads)), Batch(reloads))
      ensures Now().targets == w.targets + Aimed(w, Elements(Handles(reloads)), Batch(reloads))
    {
      hide Next, CommitStep, Inv, BatchOk, Run;
      ghost var moved := Elements(Handles(reloads));
      CommitNext(env, w, moved, Batch(reloads));
      Settle(reloads, w, CommitResult(w, moved, Batch(reloads)));
    }

    /** Initial bytes of introduced storage. */
    method InitState(h: Handle, content: seq<byte>, ghost s: Slot)
      requires Valid() && !closed && h.begin in Now().owned - Now().active
      requires s in Now().Live() && s.begin == h.begin && h.begin + |content| <= s.usableEnd
      modifies this`history, pages.memory`bytes
      ensures Valid() && old(history) <= history && Now().owned == old(Now().owned)
      ensures Now().Live() == old(Now()).Live() && EntriesSame(env, old(Now()), Now())
      ensures StayExcept(old(Now()), Now(), {h.begin}) && Piece(Now(), h.begin, content)
    {
      hide Next, Run, RedirectOk, EntriesOk, ArenaOk, LiveSlots, SameAt, Rewritten, StayExcept;
      ghost var w := Now();
      NowInv();
      SlotMapped(env, w, s);
      pages.memory.Copy(h.begin, content);
      SameRangesMapped(pages.pools, pages.pools, w.bytes, pages.memory.bytes);
      FillIsNext(env, w, Now(), s);
      FillKeeps(env, w, Now(), s);
      InvAllocates(env, w);
      ChangeStays(env.page, w, Now(), s);
      assert SlotFor(Now().Live(), h.begin, s);
      Record();
    }

    /** Storage for every symbol the object introduces, near the code. */
    method ReserveStates(hint: nat, contents: seq<seq<byte>>) returns (ok: bool, states: seq<Handle>)
      requires Valid() && !closed && hint <= MAX_64
      requires forall k :: 0 <= k < |contents| ==> |contents[k]| <= MAX_64
      modifies this`history, pages, pages.memory
      ensures Valid() && old(history) <= history
      ensures Distinct(Begins(states)) && Grows(env, old(Now()), Now(), Elements(Begins(states)))
      ensures ok ==> StatesLaid(Now(), states, contents)
      ensures pages.memory.refused >= old(pages.memory.refused)
      ensures !ok && pages.memory.refused == old(pages.memory.refused) ==>
                |states| < |contents| && Starved(pages.page, pages.floor, history, |old(history)| - 1, hint, |contents[|states|]|)
    {
      hide Next, Run, Inv, Grows, Starved, StatesLaid, Piece;
      HasHistory();
      states := [];
      ok := true;
      GrowsNot(env, Now());
      assert Elements(Begins([])) == {};
      NoStates(Now());
      for k := 0 to |contents|
        invariant Valid() && old(history) <= history && |states| == k && ok
        invariant Distinct(Begins(states)) && Grows(env, old(Now()), Now(), Elements(Begins(states)))
        invariant StatesLaid(Now(), states, contents[..k]) && pages.memory.refused >= old(pages.memory.refused)
      {
        ghost var w, before := Now(), history;
        var h := ReserveState(hint, contents[k]);
        ghost var came := if h.Some? then {h.value.begin} else {};
        GrowsJoin(env, old(Now()), w, Now(), Elements(Begins(states)), came);
        if h.None? {
          assert Elements(Begins(states)) + {} == Elements(Begins(states));
          if Starved(pages.page, pages.floor, history, |before| - 1, hint, |contents[k]|) {
            StarvedLonger(pages.page, pages.floor, history, history, |old(history)| - 1, |before| - 1, hint, |contents[k]|);
          }
          return false, states;
        }
        GrowsMeans(env, old(Now()), w, Elements(Begins(states)));
        GrowsMeans(env, w, Now(), came);
        BeginsOneMore(states, h.value);
        OneMoreState(w, Now(), states, contents[..k], h.value, contents[k]);
        assert contents[..k + 1] == contents[..k] + [contents[k]];
        states := states + [h.value];
      }
      assert contents[..|contents|] == contents;
    }

    method ReserveState(hint: nat, content: seq<byte>) returns (h: Option<Handle>)
      requires Valid() && !closed && hint <= MAX_64 && |content| <= MAX_64
      modifies this`history, pages, pages.memory
      ensures Valid() && old(history) <= history
      ensures Grows(env, old(Now()), Now(), if h.Some? then {h.value.begin} else {})
      ensures h.Some? ==> Piece(Now(), h.value.begin, content)
      ensures pages.memory.refused >= old(pages.memory.refused)
      ensures h.None? && pages.memory.refused == old(pages.memory.refused) ==>
                Starved(pages.page, pages.floor, history, |old(history)| - 1, hint, |content|)
    {
      hide Next, Run, Inv, EntriesSame, LiveSlots, StayExcept, Crowded, Piece;
      ActiveOwned();
      HasHistory();
      ghost var w := Now();
      h := Reserve(hint, |content|);
      if h.Some? {
        ghost var s :| Added(w.Live(), Now().Live(), s, h.value, |content|);
        ghost var mid := Now();
        InitState(h.value, content, s);
        EntriesJoin(env, w, mid, Now());
        NewSlotStays(w, mid, Now(), h.value.begin);
      } else if pages.memory.refused == old(pages.memory.refused) {
        NotReserved(pages.page, pages.floor, history, |old(history)| - 1, w, hint, |content|);
      }
    }

    /** The zero-write check of every entry of a loaded object: all are ready, or the first that is not. */
    method Precheck(image: Image) returns (ok: bool, k: nat)
      requires Valid() && !closed && EntriesKnown(env, image.replacements)
      ensures ok <==> forall j :: 0 <= j < |image.replacements| ==> EntryReady(image, j)
      ensures !ok ==> k < |image.replacements| && !EntryReady(image, k) && forall j :: 0 <= j < k ==> EntryReady(image, j)
    {
      hide Patchable, Run, Inv;
      NowInv();
      EntriesReadable(image);
      ok, k := true, 0;
      while k < |image.replacements|
        invariant 0 <= k <= |image.replacements| && ok
        invariant forall j :: 0 <= j < k ==> EntryReady(image, j)
      {
        var ready := pages.PatchableEntry(image.replacements[k].entry, Target(image, image.replacements[k].offset));
        assert ready <==> EntryReady(image, k);
        if !ready {
          return false, k;
        }
        k := k + 1;
      }
    }

    lemma EntriesReadable(image: Image)
      requires Inv(env, Now()) && EntriesKnown(env, image.replacements)
      ensures forall k :: 0 <= k < |image.replacements| ==> Mapped(Now().bytes, image.replacements[k].entry, WINDOW)
    {
      hide ArenaInv, RedirectOk, SameAt, Next, Run, InPools, LiveSlots;
    }

    ghost predicate EntryReady(image: Image, k: nat)
      requires k < |image.replacements|
      reads this, pages, pages.memory`bytes
    {
      Mapped(Now().bytes, image.replacements[k].entry, WINDOW)
      && Patchable(Now().bytes, Now().Live(), image.replacements[k].entry, Target(image, image.replacements[k].offset))
    }

    /** Load one object: reserve its code near the function it replaces, reserve and initialise the storage
        it introduces, let the linker build the image for these addresses, make it executable, and check
        every entry without writing any. On every failure all reservations are given back; `why` tells what it was,
        if not a request that the kernel refused. */
    method PrepareObject(c: Candidate) returns (r: Option<Image>, ghost why: Setback)
      requires Valid() && !closed && CandidateOk(env, c)
      modifies this`history, pages, pages.memory
      ensures Valid() && old(history) <= history
      ensures r.None? ==> Grows(env, old(Now()), Now(), {})
      ensures r.Some? ==> Loaded(env, Now(), r.value) && Distinct(ImageHandles(r.value)) && BuiltFrom(r.value, c)
      ensures r.Some? ==> Grows(env, old(Now()), Now(), Elements(ImageHandles(r.value)))
      ensures r.Some? ==> forall k :: 0 <= k < |r.value.replacements| ==> EntryReady(r.value, k)
      ensures r.Some? ==> Laid(Now(), r.value, c, [], 0, 0)
      ensures pages.memory.refused >= old(pages.memory.refused)
      ensures r.None? && pages.memory.refused == old(pages.memory.refused) ==>
                Hinders(pages.page, pages.floor, history, |old(history)| - 1, old(Now()), c, why)
    {
      hide Next, Run, Inv, CodeReady, Patchable, EntryReady, ArenaOk, PoolRangesMapped, OwnersOk, LiveSlots, Extends, InPools, WithinRel32,
        Grows, EntriesSame, StayExcept, StatesLaid, Piece, BuildsAt, Hinders, Laid;
      ActiveOwned();
      HasHistory();
      ghost var w, from := Now(), |history| - 1;
      var ok, image;
      ghost var s;
      ok, image, s, why := ReserveObject(c);
      if image.None? {
        return None, why;
      }
      GrowsMeans(env, w, Now(), Elements(ImageHandles(image.value)));
      if ok {
        ok, why := LoadCode(c, image.value, w, s, from);
        if ok {
          return image, why;
        }
      }
      ghost var loaded, upto := Now(), history;
      GrowsMeans(env, w, loaded, Elements(ImageHandles(image.value)));
      DropAll(ImageHandles(image.value));
      GrowsUndone(env, w, loaded, Now(), Elements(ImageHandles(image.value)));
      if pages.memory.refused == old(pages.memory.refused) {
        HindersLonger(pages.page, pages.floor, upto, history, from, w, c, why);
      }
      r := None;
    }

    /** The reservations of one object: its code, and storage with its initial bytes. When they are not complete, the image has
        those that were made. */
    method ReserveObject(c: Candidate) returns (ok: bool, image: Option<Image>, ghost s: Slot, ghost why: Setback)
      requires Valid() && !closed && CandidateOk(env, c)
      modifies this`history, pages, pages.memory
      ensures Valid() && old(history) <= history
      ensures image.None? ==> !ok && Grows(env, old(Now()), Now(), {})
      ensures image.Some? ==> Grows(env, old(Now()), Now(), Elements(ImageHandles(image.value)))
      ensures image.Some? ==> Distinct(ImageHandles(image.value)) && BuiltFrom(image.value, c)
                              && image.value.code.begin !in Elements(Begins(image.value.states))
      ensures ok ==> image.Some? && StatesLaid(Now(), image.value.states, c.contents)
      ensures ok ==> s in Now().Live() && s.begin == image.value.code.begin && s.begin + c.size <= s.usableEnd
      ensures pages.memory.refused >= old(pages.memory.refused)
      ensures !ok && pages.memory.refused == old(pages.memory.refused) ==>
                Hinders(pages.page, pages.floor, history, |old(history)| - 1, old(Now()), c, why)
    {
      hide Next, Run, Inv, LiveSlots, WithinRel32, Grows, EntriesSame, StayExcept, Crowded, Starved, StatesLaid, Piece, Hinders;
      HasHistory();
      ghost var w, from := Now(), |history| - 1;
      why, image := NoMemory(c.size), None;
      var code := Reserve(c.hint, c.size);
      if code.None? {
        ReserveGrows(env, w, Now());
        if pages.memory.refused == old(pages.memory.refused) {
          NotReserved(pages.page, pages.floor, history, from, w, c.hint, c.size);
          CodeHinders(pages.page, pages.floor, history, from, w, c);
        }
        ok, s := false, Slot(0, 0, 0, false, false, false);
        return;
      }
      ghost var mid, past := Now(), history;
      s :| Added(w.Live(), mid.Live(), s, code.value, c.size);
      AddedGrows(env, w, mid, s, code.value, c.size);
      var states;
      ok, states := ReserveStates(c.hint, c.contents);
      image := Some(Image(code.value, states, c.replacements, c.define(Begins(states))));
      HandlesDistinct(image.value);
      GrowsJoin(env, w, mid, Now(), {code.value.begin}, Elements(Begins(states)));
      GrowsMeans(env, mid, Now(), Elements(Begins(states)));
      SlotStill(mid, Now(), s);
      if !ok && pages.memory.refused == old(pages.memory.refused) {
        why := NoMemory(|c.contents[|states|]|);
        StateHinders(pages.page, pages.floor, history, from, |past| - 1, w, c, |states|);
      }
    }

    /** The code of one object: built for its addresses, copied, made executable, and its entries checked. */
    method LoadCode(c: Candidate, image: Image, ghost w: World, ghost s: Slot, ghost from: nat) returns (ok: bool, ghost why: Setback)
      requires Valid() && !closed && CandidateOk(env, c) && image.replacements == c.replacements && image.code.size == c.size
      requires StatesLaid(Now(), image.states, c.contents) && image.code.begin !in Elements(Begins(image.states))
      requires image.code.begin in Now().owned - Now().active && Grows(env, w, Now(), Elements(ImageHandles(image)))
      requires s in Now().Live() && s.begin == image.code.begin && s.begin + c.size <= s.usableEnd
      modifies this`history, pages, pages.memory
      ensures Valid() && old(history) <= history && Now().owned == old(Now().owned)
      ensures Grows(env, w, Now(), Elements(ImageHandles(image)))
      ensures ok ==> CodeReady(Now(), image) && Laid(Now(), image, c, [], 0, 0)
      ensures ok ==> forall k :: 0 <= k < |image.replacements| ==> EntryReady(image, k)
      ensures pages.memory.refused >= old(pages.memory.refused)
      ensures !ok && pages.memory.refused == old(pages.memory.refused) ==> Hinders(pages.page, pages.floor, history, from, w, c, why)
    {
      hide Next, Run, Inv, CodeReady, Patchable, EntryReady, LiveSlots, Grows, EntriesSame, StayExcept, StatesLaid, Piece, BuildsAt, Starved, Laid;
      ghost var before := Now();
      var built := c.build(image.code.begin, Begins(image.states));
      why := NotBuilt(image.code.begin, Begins(image.states));
      NotBuiltWhen(c, image.code.begin, Begins(image.states));
      if built.None? {
        return false, why;
      }
      ok := FinishCode(image, built.value, s);
      HandlesDistinct(image);
      GrowsFilled(env, w, before, Now(), Elements(ImageHandles(image)), {image.code.begin});
      if !ok {
        return;
      }
      LaidOnce(before, Now(), image, c, built.value);
      var k;
      ok, k := Precheck(image);
      if !ok {
        why := NotReady(k, Target(image, image.replacements[k].offset));
        GrowsMeans(env, w, Now(), Elements(ImageHandles(image)));
        NotReadyBefore(w, image, k);
      }
    }

    lemma NotReadyBefore(w: World, image: Image, k: nat)
      requires k < |image.replacements| && EntriesKnown(env, image.replacements)
      requires StayExcept(w, Now(), {}) && EntriesSame(env, w, Now()) && !EntryReady(image, k)
      ensures !Fit(w.bytes, w.Live(), image.replacements[k].entry, Target(image, image.replacements[k].offset))
    {
      hide LiveSlots, Patchable, StayExcept, EntriesSame;
      if Fit(w.bytes, w.Live(), image.replacements[k].entry, Target(image, image.replacements[k].offset)) {
        FitLater(env, w, Now(), image.replacements[k].entry, Target(image, image.replacements[k].offset));
      }
    }

    /** Load every object of a generation; when one fails, those before it are given back. `failed` is that one, and `why` what
        hindered it, if not a request that the kernel refused. */
    method PrepareGeneration(members: seq<Candidate>) returns (r: Option<seq<Image>>, ghost failed: nat, ghost why: Setback)
      requires Valid() && !closed && forall k :: 0 <= k < |members| ==> CandidateOk(env, members[k])
      modifies this`history, pages, pages.memory
      ensures Valid() && old(history) <= history
      ensures r.None? ==> Grows(env, old(Now()), Now(), {})
      ensures r.Some? ==> Grows(env, old(Now()), Now(), Elements(Handles(r.value))) && Distinct(Handles(r.value))
      ensures r.Some? ==> AllLoaded(env, Now(), r.value)
      ensures r.Some? ==> AllBuilt(r.value, members) && AllLaid(Now(), r.value, members, [], 0)
      ensures pages.memory.refused >= old(pages.memory.refused)
      ensures r.None? && pages.memory.refused == old(pages.memory.refused) ==>
                failed < |members| && Hinders(pages.page, pages.floor, history, |old(history)| - 1, old(Now()), members[failed], why)
    {
      hide Next, Run, Inv, Grows, Loaded, CodeReady, Handles, LiveSlots, BuiltFrom, CandidateOk, EntryReady, Hinders, Laid;
      ActiveOwned();
      HasHistory();
      ghost var w := Now();
      var reloads: seq<Image> := [];
      why, failed := NoMemory(0), 0;
      NoHandles();
      GrowsNot(env, w);
      for k := 0 to |members|
        invariant Valid() && old(history) <= history && |reloads| == k
        invariant Grows(env, w, Now(), Elements(Handles(reloads))) && Distinct(Handles(reloads))
        invariant AllLoaded(env, Now(), reloads) && pages.memory.refused >= old(pages.memory.refused)
        invariant forall j :: 0 <= j < k ==> BuiltFrom(reloads[j], members[j])
        invariant AllLaid(Now(), reloads, members[..k], [], 0)
      {
        ghost var before, past := Now(), history;
        var image;
        image, why := PrepareObject(members[k]);
        if image.None? {
          ghost var upto, clear := history, pages.memory.refused;
          GrowsAgain(env, w, before, Now(), Elements(Handles(reloads)));
          DropEarlier(reloads, w);
          if pages.memory.refused == old(pages.memory.refused) {
            GrowsMeans(env, w, before, Elements(Handles(reloads)));
            EntriesOf(env, members[k]);
            HindersEarlier(env, pages.page, pages.floor, upto, history, |old(history)| - 1, |past| - 1, w, before, members[k], why);
          }
          return None, k, why;
        }
        GrowsOne(env, w, before, Now(), reloads, image.value);
        LoadedOneMore(env, before, Now(), reloads, image.value, Elements(ImageHandles(image.value)));
        LaidOneMore(env, before, Now(), reloads, members[..k], image.value, members[k], Elements(ImageHandles(image.value)));
        assert members[..k + 1] == members[..k] + [members[k]];
        reloads := reloads + [image.value];
      }
      assert members[..|members|] == members;
      r := Some(reloads);
    }

    /** Give back what a failed preparation has loaded so far. */
    method DropEarlier(reloads: seq<Image>, ghost w: World)
      requires Valid() && !closed && Distinct(Handles(reloads)) && w.active == Now().active && w.active <= w.owned
      requires Grows(env, w, Now(), Elements(Handles(reloads)))
      modifies this`history, pages, pages.memory
      ensures Valid() && old(history) <= history && Grows(env, w, Now(), {})
      ensures pages.memory.refused >= old(pages.memory.refused)
    {
      hide Next, Run, Inv, Grows, LiveSlots, StayExcept, EntriesSame;
      ghost var failed, handles := Now(), Elements(Handles(reloads));
      GrowsMeans(env, w, failed, handles);
      DropAll(Handles(reloads));
      GrowsUndone(env, w, failed, Now(), handles);
    }

    /** Linking writes into the reservation of one object. */
    method RewriteImage(h: Handle, offset: nat, bytes: seq<byte>) returns (ok: bool)
      requires Valid() && !closed && h.begin in Now().owned - Now().active
      requires Fits(Now().Live(), h.begin, h.size)
      modifies this`history, pages.memory
      ensures Valid() && old(history) <= history && Now().owned == old(Now()).owned && Now().pools == old(Now()).pools
      ensures EntriesSame(env, old(Now()), Now())
      ensures if ok then RewroteAt(old(Now()), Now(), h.begin, offset, bytes) else Now().bytes == old(Now()).bytes
      ensures pages.memory.refused >= old(pages.memory.refused)
      ensures ok <==> bytes != [] && offset + |bytes| <= h.size && pages.memory.refused == old(pages.memory.refused)
    {
      hide Next, Run, RedirectOk, EntriesOk, ArenaOk, LiveSlots, SameAt, Rewritten;
      ghost var w := Now();
      NowInv();
      ghost var own := OwnersDistinct(env.page, w.pools, w.owned, h.begin);
      SlotBounds(env, w, own);
      ok := pages.RewriteReservation(h, offset, bytes);
      if ok {
        ghost var t :| SlotFor(w.Live(), h.begin, t) && h.begin + offset + |bytes| <= t.usableEnd;
        FillIsNext(env, w, Now(), t);
        FillKeeps(env, w, Now(), t);
        Record();
      } else {
        NothingChanges(env, w);
      }
    }

    /** Write what linking the generation asks for, up to the first write that is refused. */
    method LinkGeneration(reloads: seq<Image>, rewrites: seq<Rewrite>, ghost members: seq<Candidate>) returns (ok: bool)
      requires Valid() && !closed && Elements(Handles(reloads)) <= Now().owned - Now().active && Distinct(Handles(reloads))
      requires AllLoaded(env, Now(), reloads) && AllLaid(Now(), reloads, members, rewrites, 0)
      modifies this`history, pages.memory
      ensures Valid() && old(history) <= history && Now().owned == old(Now()).owned && Now().pools == old(Now()).pools
      ensures EntriesSame(env, old(Now()), Now())
      ensures WrittenIn(old(Now()).Live(), old(Now()).bytes, Now().bytes, Elements(Handles(reloads)))
      ensures ok ==> AllLaid(Now(), reloads, members, rewrites, |rewrites|)
      ensures pages.memory.refused >= old(pages.memory.refused)
      ensures ok <==> AllFit(reloads, rewrites) && pages.memory.refused == old(pages.memory.refused)
    {
      hide Next, Run, Inv, Handles, LiveSlots, WrittenIn, Fits, Write, Elements, SlotFor, AllLaid, Loaded, EntriesSame, RewroteAt;
      NothingChanges(env, Now());
      NotWritten(Now().Live(), Now().bytes, Elements(Handles(reloads)));
      for k := 0 to |rewrites|
        invariant Valid() && old(history) <= history && Now().owned == old(Now()).owned && Now().pools == old(Now()).pools
        invariant EntriesSame(env, old(Now()), Now())
        invariant WrittenIn(Now().Live(), old(Now()).bytes, Now().bytes, Elements(Handles(reloads)))
        invariant forall j :: 0 <= j < k ==> RewriteFits(reloads, rewrites[j])
        invariant AllLaid(Now(), reloads, members, rewrites, k)
        invariant pages.memory.refused == old(pages.memory.refused)
      {
        ghost var before := Now();
        if rewrites[k].index >= |reloads| {
          return false;
        }
        CodeIsHandle(reloads, rewrites[k].index);
        CodeFits(env, old(Now()), before, reloads, rewrites[k].index);
        var h := reloads[rewrites[k].index].code;
        ok := RewriteImage(h, rewrites[k].offset, rewrites[k].bytes);
        EntriesJoin(env, old(Now()), before, Now());
        if !ok {
          return;
        }
        LinkedOneMore(env, before, Now(), reloads, members, rewrites, k);
        RewroteWithin(before, Now(), old(Now()).bytes, Elements(Handles(reloads)), h.begin, rewrites[k].offset, rewrites[k].bytes);
      }
      ok := true;
    }

    lemma LinkedOneMore(
      env: Env, w: World, w': World, reloads: seq<Image>, members: seq<Candidate>, rewrites: seq<Rewrite>, k: nat)
      requires k < |rewrites| && rewrites[k].index < |reloads| && Distinct(Handles(reloads))
      requires Valid() && !closed && Now() == w' && w'.pools == w.pools
      requires RewroteAt(w, w', reloads[rewrites[k].index].code.begin, rewrites[k].offset, rewrites[k].bytes)
      requires AllLaid(w, reloads, members, rewrites, k)
      ensures AllLaid(w', reloads, members, rewrites, k + 1)
    {
      hide AllLaid, RewroteAt, Handles;
      AllLaidRewritten(pages.page, w, w', reloads, members, rewrites, k);
    }

    /** One pass over a managed group: load the objects of its new generation, link them, and check that no two replace the
        same entry. Either the generation is prepared, with its code linked, or nothing of it is left, and `why` tells what
        hindered it, if not a request that the kernel refused. */
    method PrepareGroup(members: seq<Candidate>, link: seq<Image> -> Option<seq<Rewrite>>) returns (r: Option<seq<Image>>)
      requires Valid() && !closed && forall k :: 0 <= k < |members| ==> CandidateOk(env, members[k])
      modifies this`history, pages, pages.memory
      ensures Valid() && old(history) <= history
      ensures r.None? ==> Grows(env, old(Now()), Now(), {})
      ensures r.Some? ==> Grows(env, old(Now()), Now(), Elements(Handles(r.value))) && Prepared(r.value)
      ensures r.Some? ==> AllBuilt(r.value, members) && LinkedAs(Now(), r.value, members, link)
      ensures pages.memory.refused >= old(pages.memory.refused)
      ensures r.None? && pages.memory.refused == old(pages.memory.refused) ==>
                GroupHindered(pages.page, pages.floor, history, |old(history)| - 1, old(Now()), members, link)
    {
      hide Next, Run, Inv, Grows, Loaded, CodeReady, Handles, LiveSlots, BuiltFrom, CandidateOk, DistinctEntries, StayExcept, EntriesSame,
        AllLaid, Hinders, WrittenIn, AllFit;
      ActiveOwned();
      HasHistory();
      ghost var w := Now();
      ghost var failed, why;
      r, failed, why := PrepareGeneration(members);
      if r.None? {
        return;
      }
      ghost var loaded, handles := Now(), Elements(Handles(r.value));
      GrowsMeans(env, w, loaded, handles);
      var rewrites := link(r.value);
      var ok := rewrites.Some?;
      GrowsNot(env, loaded);
      if ok {
        AllLaidAlone(loaded, r.value, members, rewrites.value);
        ok := LinkGeneration(r.value, rewrites.value, members);
        WrittenGrows(env, w, loaded, Now(), handles);
        LoadedSame(env, loaded, Now(), r.value);
      }
      if ok {
        ok := ValidateGeneration(r.value);
      }
      if !ok {
        ghost var images := r.value;
        assert pages.memory.refused == old(pages.memory.refused) ==> Mislinked(images, members, link);
        DropEarlier(r.value, w);
        r := None;
      }
    }

    /** Commit a prepared generation; what is not installed is given back. */
    method CommitOrDiscard(reloads: seq<Image>) returns (r: CommitOutcome)
      requires Valid() && !closed && !poisoned && Prepared(reloads)
      modifies this`activeAllocations, this`poisoned, this`applied, this`redirects, this`targets, this`history, pages, pages.memory, table
      ensures Valid() && !closed && old(history) <= history
      ensures !r.Unusable? && (r.Poisoned? <==> poisoned)
      ensures Settled(old(Now()), Now(), Elements(Handles(reloads)), Keeps(r))
      ensures Happened(env, history, |old(history)|, reloads, r)
      ensures applied == if r.Applied? then old(applied) + 1 else old(applied)
      ensures table.committed == if r.Applied? then old(table.committed) + Introduced(Definitions(reloads)) else old(table.committed)
      ensures pages.memory.refused >= old(pages.memory.refused)
      ensures pages.memory.refused == old(pages.memory.refused) ==>
                !r.Poisoned? && (r.Rejected? <==> Unfit(old(Now()), old(table.committed), reloads))
    {
      hide Next, Run, Inv, BatchOk, AllInReach, RollingBack, Loaded, DistinctEntries, Handles, LiveSlots, Publishable, EntriesSame, ExposedOk, Merged,
        ArenaOk, PoolRangesMapped, OwnersOk, Elements, Happened, Aimed, Vouched, AllInside, CommitStep, Settled, Batch, Definitions, Introduced,
        Installable, StayExcept, BrokeOff;
      NowInv();
      ActiveOwned();
      HasHistory();
      ghost var w, before := Now(), history;
      r := Commit(reloads);
      if r.Rejected? {
        Discard(reloads);
        DroppedSettles(w, Now(), Elements(Handles(reloads)));
        RejectedHappened(env, history, |before|, reloads, r);
      } else {
        KeptSettles(env, w, Now(), Elements(Handles(reloads)), Batch(reloads));
        DecisionHappened(env, before, w, Now(), reloads, r);
      }
    }

    /** Prepare a generation for every group, one after another, and then commit each as a transaction of its own, until one
        cannot be rolled back. `groupOf[k]` is the group that generation `k` was prepared for. What was decided is either kept
        or given back; the rest is still prepared; and of the other groups nothing is left. As long as the kernel refuses nothing,
        a group that was not prepared was hindered, and a generation that was not installed was unfit. */
    method ReloadAll(groups: seq<seq<Candidate>>, link: seq<Image> -> Option<seq<Rewrite>>)
      returns (prepared: seq<seq<Image>>, outcomes: seq<CommitOutcome>, ghost groupOf: seq<nat>)
      requires Valid() && !closed && !poisoned && Now().owned == Now().active
      requires forall g :: 0 <= g < |groups| ==> forall k :: 0 <= k < |groups[g]| ==> CandidateOk(env, groups[g][k])
      modifies this`activeAllocations, this`poisoned, this`applied, this`redirects, this`targets, this`history, pages, pages.memory, table
      ensures Valid() && !closed && old(history) <= history
      ensures Assigned(groups, prepared, groupOf) && |outcomes| <= |prepared| && Pending(env, Now(), prepared, |outcomes|)
      ensures forall k :: 0 <= k < |outcomes| ==> Decided(Now(), prepared[k], outcomes[k])
      ensures forall k :: 0 <= k < |outcomes| ==> Happened(env, history, |old(history)|, prepared[k], outcomes[k])
      ensures if poisoned then outcomes != [] && outcomes[|outcomes| - 1].Poisoned? else |outcomes| == |prepared|
      ensures forall k :: 0 <= k < |outcomes| ==> !outcomes[k].Unusable? && (outcomes[k].Poisoned? ==> poisoned && k == |outcomes| - 1)
      ensures applied == old(applied) + CountApplied(outcomes)
      ensures StillLinked(Now(), prepared, MembersOf(groups, groupOf), outcomes, link)
      ensures pages.memory.refused >= old(pages.memory.refused)
      ensures pages.memory.refused == old(pages.memory.refused) ==>
                !poisoned && OthersHindered(pages.page, pages.floor, history, |old(history)| - 1, groups, groupOf, link)
      ensures pages.memory.refused == old(pages.memory.refused) ==> forall k :: 0 <= k < |outcomes| && outcomes[k].Rejected? ==>
                UnfitSince(history, |old(history)| - 1, old(table.committed), table.committed, prepared[k])
    {
      hide Next, Run, Inv, Pending, Decided, Happened, Assigned, CandidateOk, OthersHindered, UnfitSince, StillLinked, AllLinked, MembersOf;
      HasHistory();
      prepared, groupOf := PrepareAll(groups, link);
      ghost var past := history;
      AssignedCount(groups, prepared, groupOf);
      outcomes := CommitEach(prepared, MembersOf(groups, groupOf), link);
      forall k | 0 <= k < |outcomes|
        ensures Happened(env, history, |old(history)|, prepared[k], outcomes[k])
        ensures UnfitSince(history, |past| - 1, old(table.committed), table.committed, prepared[k]) ==>
                  UnfitSince(history, |old(history)| - 1, old(table.committed), table.committed, prepared[k])
      {
        HappenedSince(env, history, |old(history)|, |past|, prepared[k], outcomes[k]);
        UnfitEarlier(history, history, |old(history)| - 1, |past| - 1, old(table.committed), table.committed, table.committed, prepared[k]);
      }
      OthersLonger(pages.page, pages.floor, past, history, |old(history)| - 1, groups, groupOf, link);
    }

    /** Prepare a generation for every group; those that cannot be prepared leave nothing. */
    method PrepareAll(groups: seq<seq<Candidate>>, link: seq<Image> -> Option<seq<Rewrite>>)
      returns (prepared: seq<seq<Image>>, ghost groupOf: seq<nat>)
      requires Valid() && !closed && Now().owned == Now().active
      requires forall g :: 0 <= g < |groups| ==> forall k :: 0 <= k < |groups[g]| ==> CandidateOk(env, groups[g][k])
      modifies this`history, pages, pages.memory
      ensures Valid() && old(history) <= history && Assigned(groups, prepared, groupOf) && Pending(env, Now(), prepared, 0)
      ensures AllLinked(Now(), prepared, MembersOf(groups, groupOf), link)
      ensures pages.memory.refused >= old(pages.memory.refused)
      ensures pages.memory.refused == old(pages.memory.refused) ==>
                OthersHindered(pages.page, pages.floor, history, |old(history)| - 1, groups, groupOf, link)
    {
      hide Next, Run, Inv, Grows, Ready, Handles, LiveSlots, AllBuilt, CandidateOk, Pending, GroupHindered, LinkedAs, Hindered;
      HasHistory();
      prepared, groupOf := [], [];
      NothingPending(env, Now());
      for g := 0 to |groups|
        invariant Valid() && old(history) <= history && Pending(env, Now(), prepared, 0)
        invariant Assigned(groups, prepared, groupOf) && forall k :: 0 <= k < |groupOf| ==> groupOf[k] < g
        invariant AllLinked(Now(), prepared, MembersOf(groups, groupOf), link) && pages.memory.refused >= old(pages.memory.refused)
        invariant pages.memory.refused == old(pages.memory.refused) ==> forall f: nat :: f < g && f !in groupOf ==>
                    Hindered(pages.page, pages.floor, history, |old(history)| - 1, groups[f], link)
      {
        ghost var before, past, were := Now(), history, groupOf;
        ActiveOwned();
        var r := PrepareGroup(groups[g], link);
        AllLinkedStay(env, before, Now(), prepared, MembersOf(groups, groupOf), link, if r.Some? then Elements(Handles(r.value)) else {});
        if r.Some? {
          PendingMore(env, before, Now(), prepared, r.value);
          prepared, groupOf := prepared + [r.value], groupOf + [g];
          assert MembersOf(groups, groupOf) == MembersOf(groups, were) + [groups[g]];
        } else {
          PendingStays(env, before, Now(), prepared);
          if pages.memory.refused == old(pages.memory.refused) {
            HinderedNow(pages.page, pages.floor, past, history, |old(history)| - 1, before, groups[g], link);
          }
        }
        forall f: nat | f < g && f !in were && pages.memory.refused == old(pages.memory.refused)
          ensures Hindered(pages.page, pages.floor, history, |old(history)| - 1, groups[f], link)
        {
          HinderedLonger(pages.page, pages.floor, past, history, |old(history)| - 1, groups[f], link);
        }
      }
    }

    /** Commit prepared generations in turn, until one cannot be rolled back. */
    method CommitEach(prepared: seq<seq<Image>>, ghost members: seq<seq<Candidate>>, ghost link: seq<Image> -> Option<seq<Rewrite>>)
      returns (outcomes: seq<CommitOutcome>)
      requires Valid() && !closed && !poisoned && Pending(env, Now(), prepared, 0) && AllLinked(Now(), prepared, members, link)
      modifies this`activeAllocations, this`poisoned, this`applied, this`redirects, this`targets, this`history, pages, pages.memory, table
      ensures Valid() && !closed && old(history) <= history && |outcomes| <= |prepared| && Pending(env, Now(), prepared, |outcomes|)
      ensures forall k :: 0 <= k < |outcomes| ==> Decided(Now(), prepared[k], outcomes[k])
      ensures forall k :: 0 <= k < |outcomes| ==> Happened(env, history, |old(history)|, prepared[k], outcomes[k])
      ensures if poisoned then outcomes != [] && outcomes[|outcomes| - 1].Poisoned? else |outcomes| == |prepared|
      ensures forall k :: 0 <= k < |outcomes| ==> !outcomes[k].Unusable? && (outcomes[k].Poisoned? ==> poisoned && k == |outcomes| - 1)
      ensures applied == old(applied) + CountApplied(outcomes)
      ensures StillLinked(Now(), prepared, members, outcomes, link)
      ensures pages.memory.refused >= old(pages.memory.refused)
      ensures pages.memory.refused == old(pages.memory.refused) ==>
                !poisoned && forall k :: 0 <= k < |outcomes| && outcomes[k].Rejected? ==>
                               UnfitSince(history, |old(history)| - 1, old(table.committed), table.committed, prepared[k])
    {
      hide Next, Run, Inv, Ready, Handles, LiveSlots, Pending, Settled, Decided, Happened, CountApplied, Elements, LinkedAs, Unfit, Introduced;
      HasHistory();
      outcomes := [];
      NoneApplied();
      for k := 0 to |prepared|
        invariant Valid() && !closed && !poisoned && old(history) <= history && |outcomes| == k && Pending(env, Now(), prepared, k)
        invariant forall h :: 0 <= h < k ==> Decided(Now(), prepared[h], outcomes[h]) && !outcomes[h].Poisoned? && !outcomes[h].Unusable?
        invariant forall h :: 0 <= h < k ==> Happened(env, history, |old(history)|, prepared[h], outcomes[h])
        invariant applied == old(applied) + CountApplied(outcomes)
        invariant StillLinked(Now(), prepared, members, outcomes, link)
        invariant old(table.committed) <= table.committed && pages.memory.refused >= old(pages.memory.refused)
        invariant pages.memory.refused == old(pages.memory.refused) ==> forall h :: 0 <= h < k && outcomes[h].Rejected? ==>
                    UnfitSince(history, |old(history)| - 1, old(table.committed), table.committed, prepared[h])
      {
        ghost var before, past, upto, were := Now(), history, table.committed, outcomes;
        PendingReady(env, before, prepared, k);
        var r := CommitOrDiscard(prepared[k]);
        var kept := r.Applied? || r.Poisoned?;
        StillLinkedOn(env, before, Now(), prepared, members, outcomes, link, r);
        PendingLess(env, before, Now(), prepared, k, kept);
        DecidedNow(before, Now(), prepared[k], r);
        HappenedSince(env, history, |old(history)|, |past|, prepared[k], r);
        forall h | 0 <= h < k
          ensures Decided(Now(), prepared[h], outcomes[h]) && Happened(env, history, |old(history)|, prepared[h], outcomes[h])
          ensures UnfitSince(past, |old(history)| - 1, old(table.committed), upto, prepared[h]) ==>
                    UnfitSince(history, |old(history)| - 1, old(table.committed), table.committed, prepared[h])
        {
          DecidedStays(before, Now(), prepared[h], outcomes[h], Elements(Handles(prepared[k])), kept);
          HappenedStill(env, past, history, |old(history)|, prepared[h], outcomes[h]);
          UnfitEarlier(past, history, |old(history)| - 1, |old(history)| - 1, old(table.committed), upto, table.committed, prepared[h]);
        }
        if r.Rejected? && pages.memory.refused == old(pages.memory.refused) {
          UnfitNow(past, history, |old(history)| - 1, before, old(table.committed), upto, table.committed, prepared[k]);
        }
        AppliedMore(outcomes, r);
        outcomes := outcomes + [r];
        if r.Poisoned? {
          return;
        }
      }
    }

    /** A whole session: reload, and end, whatever came of it. Each installed generation was a commit of the run, and nothing
        stays owned; if the kernel refused nothing, every group that was not installed was hindered, or its generation unfit. */
    method ReloadAndEnd(groups: seq<seq<Candidate>>, link: seq<Image> -> Option<seq<Rewrite>>)
      returns (prepared: seq<seq<Image>>, outcomes: seq<CommitOutcome>, ghost groupOf: seq<nat>)
      requires Valid() && !closed && !poisoned && Now().owned == Now().active
      requires forall g :: 0 <= g < |groups| ==> forall k :: 0 <= k < |groups[g]| ==> CandidateOk(env, groups[g][k])
      modifies this, pages, pages.memory, table
      ensures Valid() && closed && old(history) <= history && Now().owned == {}
      ensures OnlyRetained(Now().bytes, Now().pools, |Now().pools|)
      ensures Assigned(groups, prepared, groupOf) && |outcomes| <= |prepared|
      ensures forall k :: 0 <= k < |outcomes| ==> Happened(env, history, |old(history)|, prepared[k], outcomes[k])
      ensures |outcomes| < |prepared| ==> outcomes != [] && outcomes[|outcomes| - 1].Poisoned?
      ensures pages.memory.refused >= old(pages.memory.refused)
      ensures pages.memory.refused == old(pages.memory.refused) ==>
                |outcomes| == |prepared| && OthersHindered(pages.page, pages.floor, history, |old(history)| - 1, groups, groupOf, link)
      ensures pages.memory.refused == old(pages.memory.refused) ==> forall k :: 0 <= k < |outcomes| && !outcomes[k].Applied? ==>
                UnfitSince(history, |old(history)| - 1, old(table.committed), table.committed, prepared[k])
    {
      hide Next, Run, Inv, Ready, Handles, LiveSlots, CandidateOk, Decided, Happened, BuiltFrom, OthersHindered, UnfitSince, StillLinked;
      HasHistory();
      prepared, outcomes, groupOf := ReloadAll(groups, link);
      ghost var past := history;
      var candidates := Remaining(prepared, |outcomes|);
      End(candidates);
      forall k | 0 <= k < |outcomes|
        ensures Happened(env, history, |old(history)|, prepared[k], outcomes[k])
        ensures UnfitSince(past, |old(history)| - 1, old(table.committed), table.committed, prepared[k]) ==>
                  UnfitSince(history, |old(history)| - 1, old(table.committed), table.committed, prepared[k])
      {
        HappenedStill(env, past, history, |old(history)|, prepared[k], outcomes[k]);
        UnfitEarlier(past, history, |old(history)| - 1, |old(history)| - 1, old(table.committed), table.committed, table.committed, prepared[k]);
      }
      OthersLonger(pages.page, pages.floor, past, history, |old(history)| - 1, groups, groupOf, link);
    }

    /** The reservations of the generations that were never committed. */
    method Remaining(prepared: seq<seq<Image>>, from: nat) returns (bs: seq<nat>)
      requires from <= |prepared| && Pending(env, Now(), prepared, from)
      ensures Distinct(bs) && Elements(bs) == Now().owned - Now().active
    {
      hide Handles, LiveSlots, AllLoaded;
      bs := [];
      for g := from to |prepared|
        invariant Distinct(bs) && forall b :: b in bs <==> exists h :: from <= h < g && b in Handles(prepared[h])
      {
        assert Ready(env, Now(), prepared[g]);
        DisjointConcat(bs, Handles(prepared[g]));
        bs := bs + Handles(prepared[g]);
      }
    }

    /** The image is copied and made executable; its slot is the one reserved for it. */
    method FinishCode(image: Image, bytes: seq<byte>, ghost s: Slot) returns (ok: bool)
      requires Valid() && !closed && image.code.begin in Now().owned - Now().active
      requires s in Now().Live() && s.begin == image.code.begin && s.begin + image.code.size <= s.usableEnd
      modifies this`history, pages, pages.memory
      ensures Valid() && old(history) <= history && Now().owned == old(Now().owned)
      ensures StayExcept(old(Now()), Now(), {image.code.begin}) && EntriesSame(env, old(Now()), Now())
      ensures ok ==> CodeReady(Now(), image) && Piece(Now(), image.code.begin, bytes)
      ensures pages.memory.refused >= old(pages.memory.refused)
      ensures !ok && pages.memory.refused == old(pages.memory.refused) ==> bytes == [] || |bytes| > image.code.size
      ensures ok ==> 0 < |bytes| <= image.code.size
    {
      hide Next, LiveSlots, EntriesSame, Rewritten, StayExcept;
      NowInv();
      ghost var w := Now();
      SlotMapped(env, w, s);
      var outcome, t := Fill(image.code, bytes);
      ok := outcome == Committed;
      if s != t {
        LiveSlotsDisjoint(env.page, w.pools, s, t);
      }
      if ok {
        assert SlotFor(Now().Live(), image.code.begin, s.(executable := true));
      }
    }
  }

  /** The first `extent` bytes from `begin` lie in the usable part of the slot that begins there. */
  ghost predicate Fits(live: set<Slot>, begin: nat, extent: nat) {
    exists s :: SlotFor(live, begin, s) && begin + extent <= s.usableEnd
  }

  /** Bytes changed only inside slots that begin in `begins`. */
  ghost predicate WrittenIn(live: set<Slot>, was: Bytes, now: Bytes, begins: set<nat>) {
    now.Keys == was.Keys && forall a :: a in was && now[a] != was[a] ==> InSlots(live, begins, a)
  }

  ghost predicate InSlots(live: set<Slot>, begins: set<nat>, a: nat) {
    exists s :: s in live && s.begin in begins && s.begin <= a < s.usableEnd
  }

  lemma NotWritten(live: set<Slot>, bytes: Bytes, begins: set<nat>)
    ensures WrittenIn(live, bytes, bytes, begins)
  {
  }

  lemma WrittenMore(live: set<Slot>, was: Bytes, now: Bytes, begins: set<nat>, begin: nat, offset: nat, bytes: seq<byte>)
    requires WrittenIn(live, was, now, begins) && begin in begins && Fits(live, begin, offset + |bytes|)
    ensures WrittenIn(live, was, Write(now, begin + offset, bytes), begins)
  {
    var s :| SlotFor(live, begin, s) && begin + (offset + |bytes|) <= s.usableEnd;
    var next := Write(now, begin + offset, bytes);
    forall a | a in was && next[a] != was[a]
      ensures InSlots(live, begins, a)
    {
      if begin + offset <= a < begin + offset + |bytes| {
        assert s.begin <= a < s.usableEnd;
      } else {
        assert next[a] == now[a];
      }
    }
  }

  /** Candidates came: the handles `more`, on new slots. Nothing else changed that anyone relies on. */
  ghost predicate Grows(env: Env, w: World, w': World, more: set<nat>) {
    && w'.owned == w.owned + more && w.owned !! more
    && StayExcept(w, w', {}) && Clear(w.Live(), more)
    && EntriesSame(env, w, w')
  }

  lemma GrowsNot(env: Env, w: World)
    ensures Grows(env, w, w, {})
  {
  }

  lemma GrowsMeans(env: Env, w: World, w': World, more: set<nat>)
    requires Grows(env, w, w', more)
    ensures w'.owned == w.owned + more && w.owned !! more && StayExcept(w, w', {}) && EntriesSame(env, w, w')
  {
  }

  lemma AddedGrows(env: Env, w: World, w': World, s: Slot, h: Handle, bytes: nat)
    requires Added(w.Live(), w'.Live(), s, h, bytes) && EntriesSame(env, w, w') && StayExcept(w, w', {})
    requires w'.owned == w.owned + {h.begin} && h.begin !in w.owned
    ensures Grows(env, w, w', {h.begin})
  {
    hide LiveSlots, EntriesSame;
  }

  lemma ReserveGrows(env: Env, w: World, w': World)
    requires w' == w
    ensures Grows(env, w, w', {})
  {
  }

  lemma GrowsJoin(env: Env, w: World, w': World, w'': World, some: set<nat>, more: set<nat>)
    requires Grows(env, w, w', some) && Grows(env, w', w'', more)
    ensures Grows(env, w, w'', some + more)
  {
    hide LiveSlots, EntriesSame;
    EntriesJoin(env, w, w', w'');
  }

  /** What happens in the slots that came is no loss. */
  lemma GrowsFilled(env: Env, w: World, w': World, w'': World, more: set<nat>, own: set<nat>)
    requires Grows(env, w, w', more) && w''.owned == w'.owned && own <= more
    requires StayExcept(w', w'', own) && EntriesSame(env, w', w'')
    ensures Grows(env, w, w'', more)
  {
    hide LiveSlots, EntriesSame;
    EntriesJoin(env, w, w', w'');
  }

  /** Dropping all candidates that came leaves what there was. */
  lemma GrowsUndone(env: Env, w: World, w': World, w'': World, more: set<nat>)
    requires Grows(env, w, w', more) && w''.owned == w'.owned - more
    requires StayExcept(w', w'', more) && EntriesSame(env, w', w'')
    ensures Grows(env, w, w'', {})
  {
    hide LiveSlots, EntriesSame;
    EntriesJoin(env, w, w', w'');
  }

  lemma GrowsOne(env: Env, w: World, w': World, w'': World, reloads: seq<Image>, image: Image)
    requires Grows(env, w, w', Elements(Handles(reloads))) && Grows(env, w', w'', Elements(ImageHandles(image)))
    requires Distinct(Handles(reloads)) && Distinct(ImageHandles(image))
    ensures Grows(env, w, w'', Elements(Handles(reloads + [image]))) && Distinct(Handles(reloads + [image]))
  {
    hide StayExcept, Clear, EntriesSame;
    GrowsJoin(env, w, w', w'', Elements(Handles(reloads)), Elements(ImageHandles(image)));
    HandlesOneMore(reloads, image);
    DisjointConcat(Handles(reloads), ImageHandles(image));
  }

  lemma LoadedOneMore(env: Env, w: World, w': World, reloads: seq<Image>, image: Image, more: set<nat>)
    requires Grows(env, w, w', more) && AllLoaded(env, w, reloads) && Loaded(env, w', image)
    ensures AllLoaded(env, w', reloads + [image])
  {
    hide Loaded, CodeReady, LiveSlots, StayExcept, Clear, EntriesSame;
    LoadedAllStay(env, w, w', reloads, {});
  }

  /** Of the generations from `from` on each is ready, no two share a handle, and there are no other candidates. */
  ghost predicate Pending(env: Env, w: World, prepared: seq<seq<Image>>, from: nat) {
    && (forall g :: from <= g < |prepared| ==> Ready(env, w, prepared[g]))
    && (forall g, h :: from <= g < h < |prepared| ==> Elements(Handles(prepared[g])) !! Elements(Handles(prepared[h])))
    && (forall b :: b in w.owned - w.active <==> exists g :: from <= g < |prepared| && b in Handles(prepared[g]))
  }

  /** The handles left the candidates: to what the session keeps, or for good. */
  ghost predicate Settled(w: World, w': World, handles: set<nat>, kept: bool) {
    && StayExcept(w, w', if kept then {} else handles)
    && w'.active == (if kept then w.active + handles else w.active)
    && w'.owned == (if kept then w.owned else w.owned - handles)
  }

  /** The generation's reservations stay with the session. */
  predicate Keeps(r: CommitOutcome) {
    r.Applied? || r.Poisoned?
  }

  // ---- generations over a whole reload ----

  /** The objects that each generation was built from. */
  function MembersOf(groups: seq<seq<Candidate>>, groupOf: seq<nat>): (r: seq<seq<Candidate>>)
    requires forall k :: 0 <= k < |groupOf| ==> groupOf[k] < |groups|
    ensures |r| == |groupOf| && forall k :: 0 <= k < |r| ==> r[k] == groups[groupOf[k]]
  {
    seq(|groupOf|, k requires 0 <= k < |groupOf| => groups[groupOf[k]])
  }

  ghost predicate AllLinked(
    w: World, prepared: seq<seq<Image>>, members: seq<seq<Candidate>>, link: seq<Image> -> Option<seq<Rewrite>>)
  {
    |prepared| == |members| && forall k :: 0 <= k < |prepared| ==> LinkedAs(w, prepared[k], members[k], link)
  }

  /** What was installed, or is still to be decided, is as it was loaded and linked. */
  ghost predicate StillLinked(
    w: World, prepared: seq<seq<Image>>, members: seq<seq<Candidate>>, outcomes: seq<CommitOutcome>, link: seq<Image> -> Option<seq<Rewrite>>)
  {
    && |outcomes| <= |prepared| == |members|
    && forall k :: 0 <= k < |prepared| && (k < |outcomes| ==> Keeps(outcomes[k])) ==> LinkedAs(w, prepared[k], members[k], link)
  }

  lemma LinkedStays(
    w: World, w': World, gone: set<nat>, reloads: seq<Image>, members: seq<Candidate>, link: seq<Image> -> Option<seq<Rewrite>>)
    requires StayExcept(w, w', gone) && Elements(Handles(reloads)) !! gone && LinkedAs(w, reloads, members, link)
    ensures LinkedAs(w', reloads, members, link)
  {
    hide StayExcept, AllLaid, Handles;
    AllLaidStay(w, w', gone, reloads, members, link(reloads).value, |link(reloads).value|);
  }

  lemma AllLinkedStay(
    env: Env, w: World, w': World, prepared: seq<seq<Image>>, members: seq<seq<Candidate>>, link: seq<Image> -> Option<seq<Rewrite>>,
    more: set<nat>)
    requires Grows(env, w, w', more) && AllLinked(w, prepared, members, link)
    ensures AllLinked(w', prepared, members, link)
  {
    hide StayExcept, Handles, LinkedAs;
    forall k | 0 <= k < |prepared|
      ensures LinkedAs(w', prepared[k], members[k], link)
    {
      LinkedStays(w, w', {}, prepared[k], members[k], link);
    }
  }

  /** Deciding one generation leaves the code of the others, and its own if it is kept. */
  lemma StillLinkedOn(
    env: Env, w: World, w': World, prepared: seq<seq<Image>>, members: seq<seq<Candidate>>, outcomes: seq<CommitOutcome>,
    link: seq<Image> -> Option<seq<Rewrite>>, r: CommitOutcome)
    requires StillLinked(w, prepared, members, outcomes, link) && |outcomes| < |prepared| && Pending(env, w, prepared, |outcomes|)
    requires forall h :: 0 <= h < |outcomes| ==> Decided(w, prepared[h], outcomes[h])
    requires Settled(w, w', Elements(Handles(prepared[|outcomes|])), Keeps(r))
    ensures StillLinked(w', prepared, members, outcomes + [r], link)
  {
    hide StayExcept, Handles, LinkedAs, LiveSlots;
    var k, now := |outcomes|, outcomes + [r];
    var handles := Elements(Handles(prepared[k]));
    assert Ready(env, w, prepared[k]);
    forall h | 0 <= h < |prepared| && (h < |now| ==> Keeps(now[h]))
      ensures LinkedAs(w', prepared[h], members[h], link)
    {
      if h < k {
        assert Decided(w, prepared[h], outcomes[h]) && Keeps(outcomes[h]);
      }
      LinkedStays(w, w', if Keeps(r) then {} else handles, prepared[h], members[h], link);
    }
  }

  /** In some state of the run from `from` on the group was hindered. */
  ghost predicate Hindered(
    page: nat, floor: nat, history: seq<World>, from: nat, members: seq<Candidate>, link: seq<Image> -> Option<seq<Rewrite>>)
    requires page > 0
  {
    exists i: nat :: from <= i < |history| && GroupHindered(page, floor, history, i, history[i], members, link)
  }

  /** Every group for which no generation was prepared was hindered. */
  ghost predicate OthersHindered(
    page: nat, floor: nat, history: seq<World>, from: nat, groups: seq<seq<Candidate>>, groupOf: seq<nat>,
    link: seq<Image> -> Option<seq<Rewrite>>)
    requires page > 0
  {
    forall g: nat :: g < |groups| && g !in groupOf ==> Hindered(page, floor, history, from, groups[g], link)
  }

  lemma HinderedNow(
    page: nat, floor: nat, past: seq<World>, history: seq<World>, from: nat, w: World, members: seq<Candidate>,
    link: seq<Image> -> Option<seq<Rewrite>>)
    requires page > 0 && from < |past| && past <= history && w == past[|past| - 1]
    requires GroupHindered(page, floor, history, |past| - 1, w, members, link)
    ensures Hindered(page, floor, history, from, members, link)
  {
    hide GroupHindered;
    assert history[|past| - 1] == w;
  }

  lemma HinderedLonger(
    page: nat, floor: nat, past: seq<World>, history: seq<World>, from: nat, members: seq<Candidate>, link: seq<Image> -> Option<seq<Rewrite>>)
    requires page > 0 && past <= history && Hindered(page, floor, past, from, members, link)
    ensures Hindered(page, floor, history, from, members, link)
  {
    hide Hinders, Mislinked;
    var i: nat :| from <= i < |past| && GroupHindered(page, floor, past, i, past[i], members, link);
    if k: nat, why :| k < |members| && Hinders(page, floor, past, i, past[i], members[k], why) {
      HindersLonger(page, floor, past, history, i, past[i], members[k], why);
    }
    assert GroupHindered(page, floor, history, i, history[i], members, link);
  }

  lemma OthersLonger(
    page: nat, floor: nat, past: seq<World>, history: seq<World>, from: nat, groups: seq<seq<Candidate>>, groupOf: seq<nat>,
    link: seq<Image> -> Option<seq<Rewrite>>)
    requires page > 0 && past <= history
    ensures OthersHindered(page, floor, past, from, groups, groupOf, link) ==> OthersHindered(page, floor, history, from, groups, groupOf, link)
  {
    hide Hindered;
    forall g: nat | g < |groups| && g !in groupOf && Hindered(page, floor, past, from, groups[g], link)
      ensures Hindered(page, floor, history, from, groups[g], link)
    {
      HinderedLonger(page, floor, past, history, from, groups[g], link);
    }
  }

  /** In some state of the run from `from` on, with a table of committed state between two others, the generation was unfit. */
  ghost predicate UnfitSince(history: seq<World>, from: nat, first: seq<CommittedState>, last: seq<CommittedState>, reloads: seq<Image>) {
    exists i: nat, committed :: from <= i < |history| && first <= committed <= last && Unfit(history[i], committed, reloads)
  }

  lemma UnfitNow(
    past: seq<World>, history: seq<World>, from: nat, w: World, first: seq<CommittedState>, committed: seq<CommittedState>,
    last: seq<CommittedState>, reloads: seq<Image>)
    requires from < |past| && past <= history && w == past[|past| - 1] && first <= committed <= last && Unfit(w, committed, reloads)
    ensures UnfitSince(history, from, first, last, reloads)
  {
    hide Unfit;
    assert history[|past| - 1] == w;
  }

  lemma UnfitEarlier(
    past: seq<World>, history: seq<World>, from: nat, later: nat, first: seq<CommittedState>, last: seq<CommittedState>,
    now: seq<CommittedState>, reloads: seq<Image>)
    requires past <= history && from <= later && last <= now
    ensures UnfitSince(past, later, first, last, reloads) ==> UnfitSince(history, from, first, now, reloads)
  {
    hide Unfit;
    if UnfitSince(past, later, first, last, reloads) {
      var i: nat, committed :| later <= i < |past| && first <= committed <= last && Unfit(past[i], committed, reloads);
      assert Unfit(history[i], committed, reloads);
    }
  }

  /** The generation cannot be installed: it introduces state again, or an entry is not patchable. */
  ghost predicate Unfit(w: World, committed: seq<CommittedState>, reloads: seq<Image>) {
    !Publishable(committed, Definitions(reloads)) || !Installable(w.bytes, w.Live(), Batch(reloads))
  }

  lemma DroppedSettles(w: World, w': World, handles: set<nat>)
    requires StayExcept(w, w', handles) && w'.active == w.active && w'.owned == w.owned - handles
    ensures Settled(w, w', handles, false)
  {
  }

  /** A commit writes entries only, complete or not. */
  lemma KeptSettles(env: Env, w: World, w': World, moved: set<nat>, batch: seq<(nat, nat)>)
    requires Inv(env, w) && EnvOk(env) && (CommitStep(env, w, w', moved, batch) || BrokeOff(env, w, w', moved, batch))
    ensures Settled(w, w', moved, true)
    ensures CommitStep(env, w, w', moved, batch) ==> !w'.poisoned && !w'.closed
    ensures BrokeOff(env, w, w', moved, batch) ==> w'.poisoned && !w'.closed
  {
    hide Inv, BatchOk, AllInReach, Merged, Aimed, Touched, ExposedOk, LiveSlots, StayExcept;
    var n: nat := |batch|;
    if CommitStep(env, w, w', moved, batch) {
      forall a | a in w.bytes && !Touched(Patches(batch), n, a)
        ensures w'.bytes[a] == w.bytes[a]
      {
        PatchFirstFrame(w.bytes, Patches(batch), n, a);
      }
    } else {
      var written: nat, failures: nat :| PoisonStep(env, w, w', moved, batch, written, failures);
      n := written;
    }
    FramedStays(env, w, w', moved, batch, n);
  }

  lemma FramedStays(env: Env, w: World, w': World, moved: set<nat>, batch: seq<(nat, nat)>, n: nat)
    requires EnvOk(env) && Inv(env, w) && BatchOk(env, w, moved, batch) && n <= |batch|
    requires w'.pools == w.pools && Framed(w.bytes, w'.bytes, Patches(batch), n)
    ensures StayExcept(w, w', {})
  {
    hide Inv, EnvOk, BatchOk, EntriesOk, ArenaInv, Touched, LiveSlots, InPools;
    InvAllocates(env, w);
    forall s, a: nat | s in w.Live() && s.begin <= a < s.usableEnd && a in w.bytes
      ensures w'.bytes[a] == w.bytes[a]
    {
      SlotBounds(env, w, s);
      SlotInPools(env, w, s, a);
      BatchMisses(env, w, moved, batch, n, a);
    }
  }

  /** Generation `k` was built from the objects of group `groupOf[k]`, in the order of the groups. */
  predicate Assigned(groups: seq<seq<Candidate>>, prepared: seq<seq<Image>>, groupOf: seq<nat>) {
    && |groupOf| == |prepared|
    && (forall j, k :: 0 <= j < k < |groupOf| ==> groupOf[j] < groupOf[k])
    && (forall k :: 0 <= k < |groupOf| ==> groupOf[k] < |groups| && AllBuilt(prepared[k], groups[groupOf[k]]))
  }

  function CountApplied(outcomes: seq<CommitOutcome>): nat {
    if outcomes == [] then 0
    else CountApplied(outcomes[..|outcomes| - 1]) + if outcomes[|outcomes| - 1].Applied? then 1 else 0
  }

  lemma AssignedCount(groups: seq<seq<Candidate>>, prepared: seq<seq<Image>>, groupOf: seq<nat>)
    requires Assigned(groups, prepared, groupOf)
    ensures |groupOf| == |prepared| && forall k :: 0 <= k < |groupOf| ==> groupOf[k] < |groups|
  {
  }

  lemma NoneApplied()
    ensures CountApplied([]) == 0
  {
  }

  lemma AppliedMore(outcomes: seq<CommitOutcome>, r: CommitOutcome)
    ensures CountApplied(outcomes + [r]) == CountApplied(outcomes) + if r.Applied? then 1 else 0
  {
    assert (outcomes + [r])[..|outcomes|] == outcomes;
  }

  ghost predicate CommittedAt(env: Env, history: seq<World>, i: nat, moved: set<nat>, batch: seq<(nat, nat)>) {
    0 < i < |history| && CommitStep(env, history[i - 1], history[i], moved, batch)
  }

  ghost predicate BrokeOff(env: Env, w: World, w': World, moved: set<nat>, batch: seq<(nat, nat)>) {
    exists written, failures :: PoisonStep(env, w, w', moved, batch, written, failures)
  }

  ghost predicate PoisonedAt(env: Env, history: seq<World>, i: nat, moved: set<nat>, batch: seq<(nat, nat)>) {
    0 < i < |history| && BrokeOff(env, history[i - 1], history[i], moved, batch)
  }

  /** The outcome tells what happened in the run from state `from` on: an installed generation is a commit of all its redirects, and
      a poisoned one an incomplete rollback of them. */
  ghost predicate Happened(env: Env, history: seq<World>, from: nat, reloads: seq<Image>, r: CommitOutcome) {
    match r
    case Applied(n) =>
      n == |Batch(reloads)| && exists i: nat :: from <= i && CommittedAt(env, history, i, Elements(Handles(reloads)), Batch(reloads))
    case Poisoned =>
      exists i: nat :: from <= i && PoisonedAt(env, history, i, Elements(Handles(reloads)), Batch(reloads))
    case _ => true
  }

  lemma RejectedHappened(env: Env, history: seq<World>, from: nat, reloads: seq<Image>, r: CommitOutcome)
    requires r.Rejected?
    ensures Happened(env, history, from, reloads, r)
  {
  }

  lemma DecisionHappened(env: Env, before: seq<World>, w: World, w': World, reloads: seq<Image>, r: CommitOutcome)
    requires before != [] && before[|before| - 1] == w && (r.Applied? || r.Poisoned?)
    requires r.Applied? ==> r.redirected == |Batch(reloads)| && CommitStep(env, w, w', Elements(Handles(reloads)), Batch(reloads))
    requires r.Poisoned? ==> BrokeOff(env, w, w', Elements(Handles(reloads)), Batch(reloads))
    ensures Happened(env, before + [w'], |before|, reloads, r)
  {
    hide CommitStep, BrokeOff, Batch, Handles;
    var history := before + [w'];
    assert history[|before| - 1] == w && history[|before|] == w';
    if r.Applied? {
      assert CommittedAt(env, history, |before|, Elements(Handles(reloads)), Batch(reloads));
    } else {
      assert PoisonedAt(env, history, |before|, Elements(Handles(reloads)), Batch(reloads));
    }
  }

  lemma HappenedSince(env: Env, history: seq<World>, from: nat, later: nat, reloads: seq<Image>, r: CommitOutcome)
    requires from <= later && Happened(env, history, later, reloads, r)
    ensures Happened(env, history, from, reloads, r)
  {
    hide CommittedAt, PoisonedAt;
  }

  lemma HappenedStill(env: Env, past: seq<World>, history: seq<World>, from: nat, reloads: seq<Image>, r: CommitOutcome)
    requires past <= history && Happened(env, past, from, reloads, r)
    ensures Happened(env, history, from, reloads, r)
  {
    hide CommitStep, BrokeOff, Batch, Handles;
    match r
    case Applied(n) =>
      var i: nat :| from <= i && CommittedAt(env, past, i, Elements(Handles(reloads)), Batch(reloads));
      assert CommittedAt(env, history, i, Elements(Handles(reloads)), Batch(reloads));
    case Poisoned =>
      var i: nat :| from <= i && PoisonedAt(env, past, i, Elements(Handles(reloads)), Batch(reloads));
      assert PoisonedAt(env, history, i, Elements(Handles(reloads)), Batch(reloads));
    case _ =>
  }

  /** What the outcome says has become of the generation's reservations. */
  ghost predicate Decided(w: World, reloads: seq<Image>, r: CommitOutcome) {
    if r.Applied? || r.Poisoned? then Elements(Handles(reloads)) <= w.active else Elements(Handles(reloads)) !! w.owned
  }

  lemma NothingPending(env: Env, w: World)
    requires w.owned == w.active
    ensures Pending(env, w, [], 0)
  {
  }

  lemma PendingReady(env: Env, w: World, prepared: seq<seq<Image>>, g: nat)
    requires Pending(env, w, prepared, g) && g < |prepared|
    ensures Ready(env, w, prepared[g])
  {
  }

  lemma PendingStays(env: Env, w: World, w': World, prepared: seq<seq<Image>>)
    requires Pending(env, w, prepared, 0) && Grows(env, w, w', {}) && w'.active == w.active
    ensures Pending(env, w', prepared, 0)
  {
    hide Ready, Handles, LiveSlots, StayExcept, Clear, EntriesSame;
    forall g | 0 <= g < |prepared|
      ensures Ready(env, w', prepared[g])
    {
      CandidatesKept(env, w, w', prepared[g], {});
    }
    assert w'.owned - w'.active == w.owned - w.active;
  }

  lemma CandidatesKept(env: Env, w: World, w': World, reloads: seq<Image>, more: set<nat>)
    requires Ready(env, w, reloads) && Grows(env, w, w', more) && w'.active == w.active
    ensures Ready(env, w', reloads)
  {
    hide AllLoaded, Handles, LiveSlots, StayExcept, Clear, EntriesSame;
    ReadyStays(env, w, w', reloads, {});
  }

  lemma PendingMore(env: Env, w: World, w': World, prepared: seq<seq<Image>>, reloads: seq<Image>)
    requires Pending(env, w, prepared, 0) && Grows(env, w, w', Elements(Handles(reloads))) && w'.active == w.active <= w.owned
    requires Ready(env, w', reloads)
    ensures Pending(env, w', prepared + [reloads], 0)
  {
    hide Ready, Handles, LiveSlots, StayExcept, Clear, EntriesSame;
    var more := prepared + [reloads];
    forall g | 0 <= g < |more|
      ensures Ready(env, w', more[g])
      ensures g < |prepared| ==> Elements(Handles(more[g])) !! Elements(Handles(reloads))
    {
      if g < |prepared| {
        CandidatesKept(env, w, w', prepared[g], Elements(Handles(reloads)));
        ReadyOwned(env, w, prepared[g]);
      }
    }
    forall b
      ensures b in w'.owned - w'.active <==> exists g :: 0 <= g < |more| && b in Handles(more[g])
    {
      if b in Handles(reloads) {
        assert more[|prepared|] == reloads;
      } else if b in w.owned - w.active {
        var g :| 0 <= g < |prepared| && b in Handles(prepared[g]);
        assert more[g] == prepared[g];
      }
    }
  }

  lemma ReadyOwned(env: Env, w: World, reloads: seq<Image>)
    requires Ready(env, w, reloads)
    ensures Elements(Handles(reloads)) <= w.owned - w.active
  {
  }

  lemma PendingLess(env: Env, w: World, w': World, prepared: seq<seq<Image>>, g: nat, kept: bool)
    requires Pending(env, w, prepared, g) && g < |prepared| && Settled(w, w', Elements(Handles(prepared[g])), kept)
    ensures Pending(env, w', prepared, g + 1)
  {
    hide Ready, Handles, LiveSlots, StayExcept;
    var handles := Elements(Handles(prepared[g]));
    forall h | g < h < |prepared|
      ensures Ready(env, w', prepared[h])
    {
      ReadyOwned(env, w, prepared[h]);
      ReadyStays(env, w, w', prepared[h], if kept then {} else handles);
    }
    forall b
      ensures b in w'.owned - w'.active <==> exists h :: g < h < |prepared| && b in Handles(prepared[h])
    {
      assert b in w'.owned - w'.active <==> b in w.owned - w.active && b !in handles;
    }
  }

  lemma ReadyNone(env: Env, w: World)
    ensures Ready(env, w, []) && Handles([]) == []
  {
  }

  /** A decided generation leaves nothing in its place. */
  lemma PendingEmptied(env: Env, w: World, w': World, prepared: seq<seq<Image>>, g: nat, kept: bool)
    requires Pending(env, w, prepared, 0) && g < |prepared| && Settled(w, w', Elements(Handles(prepared[g])), kept)
    ensures Pending(env, w', prepared[g := []], 0)
  {
    hide Ready, Handles, LiveSlots, StayExcept;
    var handles, rest := Elements(Handles(prepared[g])), prepared[g := []];
    ReadyNone(env, w');
    forall h | 0 <= h < |rest|
      ensures Ready(env, w', rest[h])
    {
      if h != g {
        ReadyOwned(env, w, prepared[h]);
        ReadyStays(env, w, w', prepared[h], if kept then {} else handles);
      }
    }
    forall b
      ensures b in w'.owned - w'.active <==> exists h :: 0 <= h < |rest| && b in Handles(rest[h])
    {
      assert b in w'.owned - w'.active <==> b in w.owned - w.active && b !in handles;
      if h :| 0 <= h < |prepared| && b in Handles(prepared[h]) && h != g {
        assert b in Handles(rest[h]);
      }
    }
  }

  /** A generation takes an empty place. */
  lemma PendingMoved(env: Env, w: World, prepared: seq<seq<Image>>, g: nat, reloads: seq<Image>)
    requires g < |prepared| && prepared[g] == [] && Pending(env, w, prepared + [reloads], 0)
    ensures Pending(env, w, prepared[g := reloads], 0)
  {
    hide Ready, Handles, LiveSlots;
    var all, moved := prepared + [reloads], prepared[g := reloads];
    NoHandles();
    assert all[|prepared|] == reloads;
    forall h | 0 <= h < |moved|
      ensures Ready(env, w, moved[h])
    {
      assert moved[h] == all[if h == g then |prepared| else h];
    }
    forall h, k | 0 <= h < k < |moved|
      ensures Elements(Handles(moved[h])) !! Elements(Handles(moved[k]))
    {
      var a, b := if h == g then |prepared| else h, if k == g then |prepared| else k;
      assert moved[h] == all[a] && moved[k] == all[b];
      assert if a < b then Elements(Handles(all[a])) !! Elements(Handles(all[b])) else Elements(Handles(all[b])) !! Elements(Handles(all[a]));
    }
    forall b
      ensures b in w.owned - w.active <==> exists h :: 0 <= h < |moved| && b in Handles(moved[h])
    {
      if h :| 0 <= h < |all| && b in Handles(all[h]) {
        assert b in Handles(moved[if h == |prepared| then g else h]);
      }
      if h :| 0 <= h < |moved| && b in Handles(moved[h]) {
        assert b in Handles(all[if h == g then |prepared| else h]);
      }
    }
  }

  lemma DecidedNow(w: World, w': World, reloads: seq<Image>, r: CommitOutcome)
    requires Settled(w, w', Elements(Handles(reloads)), Keeps(r))
    ensures Decided(w', reloads, r)
  {
  }

  lemma DecidedStays(w: World, w': World, reloads: seq<Image>, r: CommitOutcome, handles: set<nat>, kept: bool)
    requires Decided(w, reloads, r) && Settled(w, w', handles, kept)
    ensures Decided(w', reloads, r)
  {
  }

  lemma NoHandles()
    ensures Handles([]) == [] && Elements(Handles([])) == {} && Distinct(Handles([]))
  {
  }

  lemma HandlesDistinct(image: Image)
    ensures Distinct(Begins(image.states)) && image.code.begin !in Elements(Begins(image.states)) ==> Distinct(ImageHandles(image))
    ensures Elements(ImageHandles(image)) == {image.code.begin} + Elements(Begins(image.states))
  {
    assert forall b :: b in ImageHandles(image) <==> b == image.code.begin || b in Begins(image.states);
  }

  lemma BeginsOneMore(hs: seq<Handle>, h: Handle)
    ensures Begins(hs + [h]) == Begins(hs) + [h.begin]
    ensures Elements(Begins(hs + [h])) == Elements(Begins(hs)) + {h.begin}
    ensures Distinct(Begins(hs)) && h.begin !in Elements(Begins(hs)) ==> Distinct(Begins(hs + [h]))
  {
    assert Begins(hs + [h]) == Begins(hs) + [h.begin];
  }

  lemma SlotMapped(env: Env, w: World, s: Slot)
    requires ArenaInv(env, w) && s in w.Live() && !w.closed
    ensures MappedRange(w.bytes, s.begin, s.extentEnd) && s.usableEnd < s.extentEnd
  {
    SlotBounds(env, w, s);
    assert Mine(w, s);
  }

  lemma DisjointConcat<T>(s: seq<T>, t: seq<T>)
    requires Distinct(s) && Distinct(t) && Elements(s) !! Elements(t)
    ensures Distinct(s + t)
  {
    forall i, j | 0 <= i < j < |s + t|
      ensures (s + t)[i] != (s + t)[j]
    {
      if i < |s| <= j {
        assert s[i] in Elements(s) && t[j - |s|] in Elements(t);
      }
    }
  }

  lemma ReachNext(batch: seq<(nat, nat)>, n: nat)
    requires n < |batch| && AllInReach(batch, n) && InReach(batch[n].0, batch[n].1)
    ensures AllInReach(batch, n + 1)
  {
    forall k | 0 <= k < n + 1
      ensures InReach(batch[k].0, batch[k].1)
    {
      if k == n {
        assert batch[k] == batch[n];
      }
    }
  }

  lemma NamesOneMore(batch: seq<(nat, nat)>, x: (nat, nat))
    ensures forall e :: Names(batch + [x], e) <==> Names(batch, e) || e == x.0
  {
    forall e
      ensures Names(batch + [x], e) <==> Names(batch, e) || e == x.0
    {
      if Names(batch, e) {
        var j :| 0 <= j < |batch| && batch[j].0 == e;
        assert (batch + [x])[j].0 == e;
      }
      assert (batch + [x])[|batch|] == x;
    }
  }

  lemma {:induction false} BatchPrefix(reloads: seq<Image>, n: nat)
    requires n <= |reloads|
    ensures Batch(reloads[..n]) <= Batch(reloads)
    decreases |reloads|
  {
    if n < |reloads| {
      var m := |reloads| - 1;
      assert reloads[..m][..n] == reloads[..n];
      BatchPrefix(reloads[..m], n);
    } else {
      assert reloads[..n] == reloads;
    }
  }
}
