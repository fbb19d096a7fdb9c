/** Publishing a generation as a sequence of atomic directory steps, any of which may be the last before a crash. */
module Publisher {
  import opened Wrappers
  import opened Words
  import opened Scanner
  import opened Wire
  import opened GenerationOffer
  import opened References
  import Sha256

  datatype Generation = Generation(manifest: Option<string>, objects: map<string, Sha256.Content>)

  /** What a consumer can see: marker names and generation directories. Staging data is invisible to it. */
  datatype Files = Files(markers: set<string>, generations: map<string, Generation>)

  predicate Named(files: Files, r: Reference) {
    SerializedMarker(r).Ok? && r.sequence <= MAX_64 && SerializedMarker(r).value in files.markers
  }

  ghost predicate IsNewest(files: Files, r: Reference) {
    Named(files, r) && forall x :: Named(files, x) ==> !Less(r, x)
  }

  /** The directory holds a manifest for just this reference, and every object with its stated digest. */
  ghost predicate Complete(g: Generation, r: Reference) {
    && g.manifest.Some? && Parsed(g.manifest.value).Ok?
    && var o := Parsed(g.manifest.value).value;
    o.sequence == r.sequence && o.generation == r.generation
    && forall i :: 0 <= i < |o.members| ==> HoldsMember(g, o.members[i])
  }

  predicate HoldsMember(g: Generation, m: Member) {
    m.objectPath in g.objects && Sha256.Fingerprint(g.objects[m.objectPath]) == m.sha256
  }

  /** The newest marker, if there is one, names a complete generation. */
  ghost predicate Sound(files: Files) {
    forall r :: IsNewest(files, r) ==> r.generation in files.generations && Complete(files.generations[r.generation], r)
  }

  /** The directories, and every state they were ever in. */
  class FileSystem {
    var files: Files
    ghost var history: seq<Files>
    /** How many operations failed, and how many crashes there were. */
    ghost var mishaps: nat

    ghost predicate Valid()
      reads this`files, this`history
    {
      history != [] && history[|history| - 1] == files
    }

    constructor (files: Files)
      ensures Valid() && this.files == files && history == [files]
    {
      this.files := files;
      history := [files];
      mishaps := 0;
    }

    /** The publisher may end here: it crashes, or cannot read or write a file of its own. */
    method Interrupted() returns (crash: bool)
      modifies this`mishaps
      ensures mishaps == old(mishaps) + if crash then 1 else 0
    {
      crash := *;
      mishaps := mishaps + if crash then 1 else 0;
    }

    /** Removal is not atomic: a consumer, or a crash, can meet the directory half removed. */
    method RemoveAll(id: string) returns (removed: bool)
      requires Valid()
      modifies this
      ensures Valid() && old(history) <= history && mishaps == old(mishaps) + if removed then 0 else 1
      ensures forall i :: |old(history)| <= i < |history| ==> DiffersAt(old(files), history[i], id)
      ensures removed ==> id !in files.generations
    {
      var left: Option<Generation> := *;
      files := files.(generations := if left.Some? then files.generations[id := left.value] else files.generations - {id});
      history := history + [files];
      removed := *;
      mishaps := mishaps + if removed then 0 else 1;
      if removed {
        files := files.(generations := files.generations - {id});
        history := history + [files];
      }
    }

    /** Renaming onto a directory that is still there fails. */
    method RenameGeneration(id: string, staged: Generation) returns (ok: bool)
      requires Valid()
      modifies this
      ensures Valid() && mishaps >= old(mishaps)
      ensures !ok && mishaps == old(mishaps) ==> id in old(files).generations
      ensures ok ==> id !in old(files).generations
      ensures ok ==> files == old(files).(generations := old(files).generations[id := staged]) && history == old(history) + [files]
      ensures !ok ==> files == old(files) && history == old(history)
    {
      ok := *;
      mishaps := mishaps + if ok then 0 else 1;
      if id in files.generations {
        ok := false;
      }
      if ok {
        files := files.(generations := files.generations[id := staged]);
        history := history + [files];
      }
    }

    method RenameMarker(name: string) returns (ok: bool)
      requires Valid()
      modifies this
      ensures Valid() && mishaps == old(mishaps) + if ok then 0 else 1
      ensures ok ==> files == old(files).(markers := old(files).markers + {name}) && history == old(history) + [files]
      ensures !ok ==> files == old(files) && history == old(history)
    {
      ok := *;
      mishaps := mishaps + if ok then 0 else 1;
      if ok {
        files := files.(markers := files.markers + {name});
        history := history + [files];
      }
    }
  }

  /** The states differ in one generation directory at most. */
  predicate DiffersAt(was: Files, now: Files, id: string) {
    now.markers == was.markers && now.generations - {id} == was.generations - {id}
  }

  // ---- sequence allocation ----

  /** One more than the greatest sequence of a well-formed marker, in 64 bits: the sum wraps to zero for the
      greatest of all, which then takes no part. */
  method NextSequence(markers: set<string>) returns (next: nat)
    ensures 1 <= next <= MAX_64
    ensures forall name :: name in markers && ParsedMarker(name).Ok? && ParsedMarker(name).value.sequence < MAX_64 ==>
              ParsedMarker(name).value.sequence < next
    ensures next == 1 || exists name :: name in markers && ParsedMarker(name).Ok? && ParsedMarker(name).value.sequence == next - 1
  {
    hide ParsedMarker;
    next := 1;
    var todo := markers;
    while todo != {}
      invariant todo <= markers && 1 <= next <= MAX_64
      invariant forall name :: name in markers - todo && ParsedMarker(name).Ok? && ParsedMarker(name).value.sequence < MAX_64 ==>
                  ParsedMarker(name).value.sequence < next
      invariant next == 1 || exists name :: name in markers && ParsedMarker(name).Ok? && ParsedMarker(name).value.sequence == next - 1
    {
      var name :| name in todo;
      var r := ParsedMarker(name);
      SequencesFit(name);
      if r.Ok? {
        next := Max(next, (r.value.sequence + 1) % TWO_64);
      }
      todo := todo - {name};
    }
  }

  lemma SequencesFit(name: string)
    ensures ParsedMarker(name).Ok? ==> ParsedMarker(name).value.sequence <= MAX_64
  {
  }

  /** The allocated sequence is above every marker's exactly when no marker has the greatest sequence. */
  lemma AllocatedAbove(files: Files, next: nat)
    requires 1 <= next <= MAX_64
    requires forall name :: name in files.markers && ParsedMarker(name).Ok? && ParsedMarker(name).value.sequence < MAX_64 ==>
               ParsedMarker(name).value.sequence < next
    ensures (forall r :: Named(files, r) ==> r.sequence < next) <==> forall r :: Named(files, r) ==> r.sequence < MAX_64
  {
    hide ParsedMarker, SerializedMarker;
    forall r | Named(files, r) && r.sequence < MAX_64
      ensures r.sequence < next
    {
      MarkerExact(SerializedMarker(r).value, r);
    }
  }

  /** With a marker of the greatest sequence the allocation starts again at one, below that marker. */
  method GreatestExhausts() returns (next: nat, ghost top: Reference, ghost files: Files)
    ensures Named(files, top) && files.markers == {SerializedMarker(top).value} && top.sequence == MAX_64
    ensures next == 1
  {
    var name := SerializedMarker(Reference(MAX_64, "g"));
    TopNamed();
    top, files := Reference(MAX_64, "g"), Files({name.value}, map[]);
    MarkerExact(name.value, top);
    next := NextSequence({name.value});
  }

  lemma TopNamed()
    ensures SerializedMarker(Reference(MAX_64, "g")).Ok?
  {
    assert PortableKey("g", false) by {
      assert forall from: nat, to: nat :: from <= to <= 1 && IsComponent("g", from, to) ==> from == 0 && to == 1;
      assert "g"[0..1] == "g";
    }
  }

  // ---- one publication ----

  datatype Source = Source(member: string, source: string, build: string)

  datatype Request = Request(group: string, compatibility: string, abi: string, members: seq<Source>, inputs: seq<string>)

  function ObjectPath(member: string): string {
    "objects/" + member + ".o"
  }

  function Record(s: Source, content: Sha256.Content): Member {
    Member(s.member, ObjectPath(s.member), Sha256.Fingerprint(content), s.source, s.build)
  }

  function Records(members: seq<Source>, contents: seq<Sha256.Content>): (r: seq<Member>)
    requires |members| == |contents|
    ensures |r| == |members| && forall i :: 0 <= i < |r| ==> r[i] == Record(members[i], contents[i])
  {
    seq(|members|, i requires 0 <= i < |members| => Record(members[i], contents[i]))
  }

  function Octets(text: string): Sha256.Content {
    var all := seq(|text|, i requires 0 <= i < |text| => (text[i] as int % 256) as Sha256.Octet);
    if |all| < 0x2000_0000_0000_0000 then all else []
  }

  function Concatenated(digests: seq<Member>): string {
    if digests == [] then "" else digests[0].sha256 + Concatenated(digests[1..])
  }

  /** The generation id depends on the contents only. */
  function GenerationId(records: seq<Member>): string {
    "g-" + Sha256.Fingerprint(Octets(Concatenated(records)))[..16]
  }

  // ---- which publications share an id ----

  /** Two different contents whose fingerprints agree in their first sixteen characters. */
  predicate Collide(x: Sha256.Content, y: Sha256.Content) {
    x != y && Sha256.Fingerprint(x)[..16] == Sha256.Fingerprint(y)[..16]
  }

  /** Texts of digests, one behind the other, are equal only digest by digest. */
  lemma {:induction false} ConcatenatedInjective(a: seq<Member>, b: seq<Member>)
    requires forall i :: 0 <= i < |a| ==> |a[i].sha256| == 64
    requires forall i :: 0 <= i < |b| ==> |b[i].sha256| == 64
    ensures |Concatenated(a)| == 64 * |a|
    ensures Concatenated(a) == Concatenated(b) ==> |a| == |b| && forall i :: 0 <= i < |a| ==> a[i].sha256 == b[i].sha256
    decreases |a| + |b|
  {
    if a != [] && b != [] {
      ConcatenatedInjective(a[1..], b[1..]);
      if Concatenated(a) == Concatenated(b) {
        assert a[0].sha256 == Concatenated(a)[..64] == b[0].sha256;
        assert Concatenated(a[1..]) == Concatenated(a)[64..] == Concatenated(b[1..]);
        assert forall i :: 0 < i < |a| ==> a[i] == a[1..][i - 1] && b[i] == b[1..][i - 1];
      }
    } else if a != [] {
      ConcatenatedInjective(a[1..], b);
    } else if b != [] {
      ConcatenatedInjective(a, b[1..]);
      assert |Concatenated(b)| == 64 + |Concatenated(b[1..])|;
    }
  }

  lemma {:induction false} ConcatenatedHex(a: seq<Member>)
    requires forall i :: 0 <= i < |a| ==> forall c :: c in a[i].sha256 ==> Sha256.LowerHex(c)
    ensures forall c :: c in Concatenated(a) ==> Sha256.LowerHex(c)
  {
    if a != [] {
      ConcatenatedHex(a[1..]);
    }
  }

  lemma OctetOf(c: char)
    requires Sha256.LowerHex(c)
    ensures (c as int % 256) as Sha256.Octet as int == c as int
  {
  }

  lemma OctetsInjective(x: string, y: string)
    requires |x| < 0x2000_0000_0000_0000 && |y| < 0x2000_0000_0000_0000
    requires (forall c :: c in x ==> Sha256.LowerHex(c)) && (forall c :: c in y ==> Sha256.LowerHex(c))
    ensures Octets(x) == Octets(y) ==> x == y
  {
    if Octets(x) == Octets(y) {
      assert |x| == |Octets(x)| == |y|;
      forall i | 0 <= i < |x|
        ensures x[i] == y[i]
      {
        assert x[i] in x && y[i] in y;
        OctetOf(x[i]);
        OctetOf(y[i]);
        assert Octets(x)[i] == Octets(y)[i];
      }
    }
  }

  /** Two publications of equally many objects share an id just when the objects are the same, one by one, unless two different
      contents or two different lists of digests have colliding fingerprints. */
  lemma SharedIdMeans(m: seq<Source>, first: seq<Sha256.Content>, m': seq<Source>, other: seq<Sha256.Content>)
    requires |m| == |first| && |m'| == |other| && 64 * |m| < 0x2000_0000_0000_0000 && 64 * |m'| < 0x2000_0000_0000_0000
    ensures var a, b := Records(m, first), Records(m', other);
      GenerationId(a) == GenerationId(b) ==>
        first == other || Collide(Octets(Concatenated(a)), Octets(Concatenated(b)))
        || exists i :: 0 <= i < |first| && i < |other| && Collide(first[i], other[i])
    ensures first == other ==> GenerationId(Records(m, first)) == GenerationId(Records(m', other))
  {
    hide Octets, Sha256.Fingerprint;
    var a, b := Records(m, first), Records(m', other);
    ConcatenatedInjective(a, b);
    ConcatenatedInjective(b, a);
    ConcatenatedHex(a);
    ConcatenatedHex(b);
    OctetsInjective(Concatenated(a), Concatenated(b));
    var x, y := Sha256.Fingerprint(Octets(Concatenated(a)))[..16], Sha256.Fingerprint(Octets(Concatenated(b)))[..16];
    if GenerationId(a) == GenerationId(b) {
      assert x == GenerationId(a)[2..] == GenerationId(b)[2..] == y;
      if Concatenated(a) == Concatenated(b) && first != other {
        var i :| 0 <= i < |first| && first[i] != other[i];
        assert a[i].sha256 == b[i].sha256;
      }
    }
    if first == other {
      SameDigests(a, b);
    }
  }

  lemma {:induction false} SameDigests(a: seq<Member>, b: seq<Member>)
    requires |a| == |b| && forall i :: 0 <= i < |a| ==> a[i].sha256 == b[i].sha256
    ensures Concatenated(a) == Concatenated(b)
  {
    if a != [] {
      SameDigests(a[1..], b[1..]);
    }
  }

  function Manifest(q: Request, sequence: nat, contents: seq<Sha256.Content>): Offer
    requires |q.members| == |contents|
  {
    var records := Records(q.members, contents);
    Offer(q.group, sequence, GenerationId(records), q.compatibility, q.abi, records, q.inputs)
  }

  /** The staged objects, as they read the second time. */
  function Stage(members: seq<Member>, contents: seq<Sha256.Content>, n: nat): map<string, Sha256.Content>
    requires n <= |members| == |contents|
  {
    if n == 0 then map[] else Stage(members, contents, n - 1)[members[n - 1].objectPath := contents[n - 1]]
  }

  lemma {:induction false} StagedObject(members: seq<Member>, contents: seq<Sha256.Content>, n: nat, k: nat)
    requires k < n <= |members| == |contents| && MembersValid(members)
    ensures members[k].objectPath in Stage(members, contents, n)
    ensures Stage(members, contents, n)[members[k].objectPath] == contents[k]
  {
    if k < n - 1 {
      StagedObject(members, contents, n - 1, k);
    }
  }

  /** What is staged is complete when the objects did not change between their two readings. */
  lemma StagedComplete(q: Request, sequence: nat, contents: seq<Sha256.Content>)
    requires |q.members| == |contents| && Valid(Manifest(q, sequence, contents))
    ensures var o := Manifest(q, sequence, contents);
      Serialized(o).Ok? && Complete(Generation(Some(Serialized(o).value), Stage(o.members, contents, |o.members|)), Reference(sequence, o.generation))
  {
    hide GenerationId, Parsed, Serialized, Sha256.Fingerprint, MemberOk;
    var o := Manifest(q, sequence, contents);
    RoundTrip(o);
    forall k | 0 <= k < |o.members|
      ensures HoldsMember(Generation(Some(Serialized(o).value), Stage(o.members, contents, |o.members|)), o.members[k])
    {
      StagedObject(o.members, contents, |o.members|, k);
    }
  }

  method StageObjects(members: seq<Member>, contents: seq<Sha256.Content>) returns (objects: map<string, Sha256.Content>)
    requires |members| == |contents|
    ensures objects == Stage(members, contents, |members|)
  {
    objects := map[];
    for n := 0 to |members|
      invariant objects == Stage(members, contents, n)
    {
      objects := objects[members[n].objectPath := contents[n]];
    }
  }

  /** Some newest marker announces this id. */
  ghost predicate NewestUses(files: Files, id: string) {
    exists r :: IsNewest(files, r) && r.generation == id
  }

  /** So when the newest generation was published from the contents `other`, its id is used again just by a publication of these very
      contents, unless fingerprints collide. */
  lemma ReusedJustWhenSame(files: Files, r: Reference, m: seq<Source>, first: seq<Sha256.Content>, m': seq<Source>, other: seq<Sha256.Content>)
    requires |m| == |first| && |m'| == |other| && 64 * |m| < 0x2000_0000_0000_0000 && 64 * |m'| < 0x2000_0000_0000_0000
    requires IsNewest(files, r) && r.generation == GenerationId(Records(m', other))
    ensures first == other ==> NewestUses(files, GenerationId(Records(m, first)))
    ensures var a, b := Records(m, first), Records(m', other);
      NewestUses(files, GenerationId(a)) ==>
        first == other || Collide(Octets(Concatenated(a)), Octets(Concatenated(b)))
        || exists i :: 0 <= i < |first| && i < |other| && Collide(first[i], other[i])
  {
    hide GenerationId, Records, Collide, Concatenated, Named, Less;
    SharedIdMeans(m, first, m', other);
    if x :| IsNewest(files, x) && x.generation == GenerationId(Records(m, first)) {
      Order(x, r, r);
    }
  }

  /** The states from `from` on are sound. */
  ghost predicate SoundFrom(history: seq<Files>, from: nat) {
    forall i :: from <= i < |history| ==> Sound(history[i])
  }

  ghost predicate BelowTop(files: Files) {
    forall r :: Named(files, r) ==> r.sequence < MAX_64
  }

  lemma OtherDirectory(was: Files, now: Files, id: string)
    requires Sound(was) && DiffersAt(was, now, id) && !NewestUses(was, id)
    ensures Sound(now)
  {
    hide Complete, Named, Less;
    forall r | IsNewest(now, r)
      ensures r.generation in now.generations && Complete(now.generations[r.generation], r)
    {
      assert forall x :: Named(now, x) <==> Named(was, x) by {
        SameNames(was, now);
      }
      assert IsNewest(was, r);
      assert r.generation in was.generations - {id} && r.generation in now.generations - {id};
      assert (now.generations - {id})[r.generation] == (was.generations - {id})[r.generation];
    }
  }

  lemma SameNames(was: Files, now: Files)
    requires was.markers == now.markers
    ensures forall x :: Named(now, x) <==> Named(was, x)
  {
  }

  /** A marker above all others makes the state sound when its generation is complete. */
  lemma ReleaseSound(was: Files, now: Files, r: Reference, name: string)
    requires now == was.(markers := was.markers + {name}) && SerializedMarker(r) == Ok(name) && r.sequence <= MAX_64
    requires r.generation in was.generations && Complete(was.generations[r.generation], r)
    requires forall x :: Named(was, x) ==> x.sequence < r.sequence
    ensures Sound(now) && IsNewest(now, r)
  {
    hide Complete, SerializedMarker, TextLess;
    forall x | Named(now, x)
      ensures x == r || Named(was, x)
    {
      if SerializedMarker(x).value == name {
        MarkerExact(name, x);
        MarkerExact(name, r);
      }
    }
    Order(r, r, r);
    assert Named(now, r);
    forall x | IsNewest(now, x)
      ensures x == r
    {
      assert !Less(x, r);
    }
  }

  /** Publish one generation. `first` and `second` are the contents of the member objects at their two readings. The
      result is missing after an error or a crash, even one behind the last step. */
  method Publish(fs: FileSystem, q: Request, first: seq<Sha256.Content>, second: seq<Sha256.Content>)
    returns (r: Option<Reference>, ghost id: string)
    requires fs.Valid() && |q.members| == |first| == |second|
    modifies fs
    ensures fs.Valid() && old(fs.history) <= fs.history
    ensures id == GenerationId(Records(q.members, first))
    ensures first == second && Sound(old(fs.files)) && BelowTop(old(fs.files)) && !NewestUses(old(fs.files), id) ==>
              SoundFrom(fs.history, |old(fs.history)|)
    ensures first == second && Sound(old(fs.files)) && BelowTop(old(fs.files)) && r.Some? ==>
              (SoundFrom(fs.history, |old(fs.history)|) <==> !NewestUses(old(fs.files), id))
    ensures first == second && BelowTop(old(fs.files)) && r.Some? ==> Sound(fs.files) && IsNewest(fs.files, r.value)
    ensures fs.files.markers == old(fs.files.markers) || exists x :: Released(old(fs.files), fs.files, x, id)
    ensures r.Some? ==> Released(old(fs.files), fs.files, r.value, id) && Follows(old(fs.files), r.value.sequence)
    ensures r.Some? ==> id in fs.files.generations && Prints(fs.files.generations[id], Manifest(q, r.value.sequence, first))
    ensures fs.mishaps >= old(fs.mishaps)
    ensures r.None? && fs.mishaps == old(fs.mishaps) ==> Unpublishable(old(fs.files), q, first)
  {
    hide Sound, Named, NewestUses, Valid, Complete, GenerationId, DiffersAt, SoundFrom, BelowTop, Serialized,
         SerializedMarker, OfferError, IsNewest, Released, Stage, Sha256.Fingerprint, ParsedMarker, Follows;
    r := None;
    ghost var was, before := fs.files, fs.history;
    var sequence := NextSequence(fs.files.markers);
    Allocated(was, sequence);
    var offer := Manifest(q, sequence, first);
    id := offer.generation;
    NothingHappened(before);
    var text := Serialized(offer);
    if text.Error? {
      RefusedWhen(was, q, sequence, first);
      return;
    }
    SerializedValid(offer);
    var staged := StageObjects(offer.members, second);
    var crash := fs.Interrupted();
    if crash {
      return;
    }
    var removed := fs.RemoveAll(offer.generation);
    OtherStates(was, before, fs.history, id);
    LastDiffers(was, before, fs.history, id);
    crash := fs.Interrupted();
    if crash {
      return;
    }
    var generation := Generation(Some(text.value), staged);
    ghost var middle := fs.files;
    var ok := fs.RenameGeneration(offer.generation, generation);
    if !ok {
      return;
    }
    StillDiffers(was, middle, fs.files, id, generation);
    OtherStates(was, before, fs.history, id);
    crash := fs.Interrupted();
    if crash {
      return;
    }
    var marker := SerializedMarker(Reference(sequence, offer.generation)).value;
    ghost var built, builtHistory := fs.files, fs.history;
    ok := fs.RenameMarker(marker);
    if !ok {
      return;
    }
    if Sound(was) && BelowTop(was) && NewestUses(was, id) {
      ReuseBreaks(was, built, sequence, id, generation, offer);
      BrokenAt(fs.history, |before|, |builtHistory| - 1);
    }
    if first == second && BelowTop(was) {
      StagedComplete(q, sequence, first);
      NamesBelow(was, built, sequence, id);
      ReleaseSound(built, fs.files, Reference(sequence, id), marker);
      SoundAppend(builtHistory, fs.files, |before|);
    }
    MarkerReleased(was, fs.files, Reference(sequence, id), marker);
    crash := fs.Interrupted();
    if !crash {
      r := Some(Reference(sequence, offer.generation));
    }
  }

  /** The manifest that the request asks for is invalid. */
  ghost predicate Unpublishable(files: Files, q: Request, contents: seq<Sha256.Content>)
    requires |q.members| == |contents|
  {
    exists sequence: nat :: sequence <= MAX_64 && Follows(files, sequence) && !GenerationOffer.Valid(Manifest(q, sequence, contents))
  }

  lemma RefusedWhen(files: Files, q: Request, sequence: nat, contents: seq<Sha256.Content>)
    requires |q.members| == |contents| && sequence <= MAX_64 && Follows(files, sequence) && Serialized(Manifest(q, sequence, contents)).Error?
    ensures Unpublishable(files, q, contents)
  {
    hide Follows, GenerationId;
    ValidatorExact(Manifest(q, sequence, contents));
  }

  predicate Prints(g: Generation, o: Offer) {
    Serialized(o).Ok? && g.manifest == Some(Serialized(o).value)
  }

  /** The marker of `x` was added, above the sequence of every other that is not the greatest of all. */
  ghost predicate Released(was: Files, now: Files, x: Reference, id: string) {
    && x.generation == id && x.sequence <= MAX_64 && SerializedMarker(x).Ok? && now.markers == was.markers + {SerializedMarker(x).value}
    && forall y :: Named(was, y) && y.sequence < MAX_64 ==> y.sequence < x.sequence
  }

  lemma NothingHappened(history: seq<Files>)
    ensures SoundFrom(history, |history|)
  {
  }

  lemma Allocated(was: Files, sequence: nat)
    requires 1 <= sequence <= MAX_64
    requires forall name :: name in was.markers && ParsedMarker(name).Ok? && ParsedMarker(name).value.sequence < MAX_64 ==>
               ParsedMarker(name).value.sequence < sequence
    requires sequence == 1 || exists name :: name in was.markers && ParsedMarker(name).Ok? && ParsedMarker(name).value.sequence == sequence - 1
    ensures forall y :: Named(was, y) && y.sequence < MAX_64 ==> y.sequence < sequence
    ensures Follows(was, sequence)
  {
    hide ParsedMarker, SerializedMarker;
    if name :| name in was.markers && ParsedMarker(name).Ok? && ParsedMarker(name).value.sequence == sequence - 1 {
      MarkerExact(name, ParsedMarker(name).value);
      assert Named(was, ParsedMarker(name).value);
    }
    forall y | Named(was, y) && y.sequence < MAX_64
      ensures y.sequence < sequence
    {
      MarkerExact(SerializedMarker(y).value, y);
    }
  }

  /** The sequence is the first one, or the next after some marker's. */
  ghost predicate Follows(files: Files, sequence: nat) {
    sequence == 1 || (sequence > 1 && exists y :: Named(files, y) && y.sequence == sequence - 1)
  }

  /** When the newest id is used again, its marker finds a manifest of another sequence before the new marker is there. */
  lemma ReuseBreaks(was: Files, built: Files, sequence: nat, id: string, g: Generation, o: Offer)
    requires BelowTop(was) && NewestUses(was, id) && built.markers == was.markers
    requires forall y :: Named(was, y) && y.sequence < MAX_64 ==> y.sequence < sequence
    requires id in built.generations && built.generations[id] == g && Prints(g, o) && o.sequence == sequence <= MAX_64
    ensures !Sound(built)
  {
    hide Parsed, Serialized, Less, SerializedMarker, GenerationOffer.Valid;
    var r :| IsNewest(was, r) && r.generation == id;
    SameNames(was, built);
    assert IsNewest(built, r);
    SerializedValid(o);
    RoundTrip(o);
    assert !Complete(built.generations[id], r);
  }

  lemma BrokenAt(history: seq<Files>, from: nat, i: nat)
    requires from <= i < |history| && !Sound(history[i])
    ensures !SoundFrom(history, from)
  {
    hide Sound;
  }

  lemma SerializedValid(o: Offer)
    requires o.sequence <= MAX_64 && Serialized(o).Ok?
    ensures Valid(o) && SerializedMarker(Reference(o.sequence, o.generation)).Ok?
  {
    hide MembersValid, NamesValid;
    ValidatorExact(o);
  }

  /** While only one directory differs, soundness is kept. */
  lemma OtherStates(was: Files, before: seq<Files>, history: seq<Files>, id: string)
    requires before <= history && forall i :: |before| <= i < |history| ==> DiffersAt(was, history[i], id)
    ensures Sound(was) && !NewestUses(was, id) ==> SoundFrom(history, |before|)
  {
    hide Sound, DiffersAt, NewestUses;
    if Sound(was) && !NewestUses(was, id) {
      forall i | |before| <= i < |history|
        ensures Sound(history[i])
      {
        OtherDirectory(was, history[i], id);
      }
    }
  }

  lemma LastDiffers(was: Files, before: seq<Files>, history: seq<Files>, id: string)
    requires before != [] && before[|before| - 1] == was && before <= history
    requires forall i :: |before| <= i < |history| ==> DiffersAt(was, history[i], id)
    ensures DiffersAt(was, history[|history| - 1], id) && history[|history| - 1].markers == was.markers
  {
  }

  lemma StillDiffers(was: Files, middle: Files, now: Files, id: string, g: Generation)
    requires DiffersAt(was, middle, id) && now == middle.(generations := middle.generations[id := g])
    ensures DiffersAt(was, now, id) && now.markers == was.markers
  {
    assert now.generations - {id} == middle.generations - {id};
  }

  lemma NamesBelow(was: Files, built: Files, sequence: nat, id: string)
    requires BelowTop(was) && built.markers == was.markers
    requires forall y :: Named(was, y) && y.sequence < MAX_64 ==> y.sequence < sequence
    ensures forall x :: Named(built, x) ==> x.sequence < sequence
  {
    SameNames(was, built);
  }

  lemma SoundAppend(history: seq<Files>, files: Files, from: nat)
    requires Sound(files)
    ensures SoundFrom(history, from) ==> SoundFrom(history + [files], from)
  {
    hide Sound;
  }

  lemma MarkerReleased(was: Files, now: Files, x: Reference, marker: string)
    requires SerializedMarker(x) == Ok(marker) && x.sequence <= MAX_64 && now.markers == was.markers + {marker}
    requires forall y :: Named(was, y) && y.sequence < MAX_64 ==> y.sequence < x.sequence
    ensures Released(was, now, x, x.generation)
  {
  }

  /** Publishing the same contents twice: the second publication, for as long as it lasts, leaves no complete newest
      generation, though it puts one back in the end. */
  method PublishTwice(fs: FileSystem, q: Request, contents: seq<Sha256.Content>)
    returns (r: Option<Reference>, again: Option<Reference>, ghost middle: Files, ghost length: nat)
    requires fs.Valid() && |q.members| == |contents| && BelowTop(fs.files)
    modifies fs
    ensures fs.Valid() && old(fs.history) <= fs.history && 0 < length <= |fs.history|
    ensures again.Some? && BelowTop(middle) ==>
              r.Some? && middle == fs.history[length - 1] && Sound(middle) && !SoundFrom(fs.history, length) && Sound(fs.files)
    ensures fs.mishaps >= old(fs.mishaps)
    ensures fs.mishaps == old(fs.mishaps) ==> again.Some? || Unpublishable(if r.Some? then middle else old(fs.files), q, contents)
  {
    hide Unpublishable, Sound, SoundFrom, BelowTop, NewestUses, IsNewest, Released, Follows, Prints, GenerationId, Records, Manifest;
    ghost var id, was := "", fs.files;
    r, id := Publish(fs, q, contents, contents);
    again, middle, length := None, fs.files, |fs.history|;
    if r.Some? {
      ReleasedMeans(was, middle, r.value, id);
      UsesNewest(middle, r.value, id);
      again, id := Publish(fs, q, contents, contents);
    }
  }

  lemma ReleasedMeans(was: Files, now: Files, r: Reference, id: string)
    requires Released(was, now, r, id)
    ensures r.generation == id && r.sequence <= MAX_64 && forall y :: Named(was, y) && y.sequence < MAX_64 ==> y.sequence < r.sequence
  {
    hide SerializedMarker;
  }

  lemma UsesNewest(files: Files, r: Reference, id: string)
    requires IsNewest(files, r)
    ensures r.generation == id ==> NewestUses(files, id)
  {
    hide IsNewest;
  }

  // ---- any number of publications, one after another under the lock ----

  datatype Publication = Publication(request: Request, first: seq<Sha256.Content>, second: seq<Sha256.Content>) {
    predicate Fits() {
      |request.members| == |first| == |second|
    }

    /** The objects are stable, and the publication does not reuse the newest id or run out of sequences. */
    ghost predicate Careful(files: Files)
      requires Fits()
    {
      first == second && BelowTop(files) && !NewestUses(files, GenerationId(Records(request.members, first)))
    }
  }

  /** Sequences strictly increase until the greatest is reached. */
  predicate Rising(released: seq<Reference>) {
    forall i, j :: 0 <= i < j < |released| && released[i].sequence < MAX_64 ==> released[i].sequence < released[j].sequence
  }

  ghost predicate AllNamed(files: Files, released: seq<Reference>) {
    forall i :: 0 <= i < |released| ==> Named(files, released[i])
  }

  ghost predicate AllCareful(publications: seq<Publication>, starts: seq<Files>) {
    |starts| <= |publications| && forall i :: 0 <= i < |starts| ==> publications[i].Fits() && publications[i].Careful(starts[i])
  }

  /** `released[j]` is the marker of publication `which[j]`, in order. */
  ghost predicate ReleasedBy(publications: seq<Publication>, released: seq<Reference>, which: seq<nat>, n: nat) {
    && |which| == |released| && n <= |publications|
    && (forall j :: 0 <= j < |which| ==>
          which[j] < n && publications[which[j]].Fits()
          && released[j].generation == GenerationId(Records(publications[which[j]].request.members, publications[which[j]].first)))
    && (forall i, j :: 0 <= i < j < |which| ==> which[i] < which[j])
  }

  /** Every publication without a marker had a manifest that cannot be printed. */
  ghost predicate OthersUnpublishable(publications: seq<Publication>, starts: seq<Files>, which: seq<nat>) {
    |starts| <= |publications|
    && forall i :: 0 <= i < |starts| && i !in which ==>
         publications[i].Fits() && Unpublishable(starts[i], publications[i].request, publications[i].first)
  }

  /** Each publication releases its marker, unless the file system fails or the manifest cannot be printed. Released sequences
      strictly increase; and when every publication is careful in the state it starts from, every state any consumer can meet
      is sound, crashes included. */
  method PublishAll(fs: FileSystem, publications: seq<Publication>)
    returns (released: seq<Reference>, ghost starts: seq<Files>, ghost which: seq<nat>)
    requires fs.Valid() && Sound(fs.files) && forall i :: 0 <= i < |publications| ==> publications[i].Fits()
    modifies fs
    ensures fs.Valid() && old(fs.history) <= fs.history && Rising(released)
    ensures |starts| == |publications| && forall i :: 0 <= i < |starts| ==> starts[i] in fs.history
    ensures AllCareful(publications, starts) ==> SoundFrom(fs.history, |old(fs.history)|)
    ensures ReleasedBy(publications, released, which, |publications|) && fs.mishaps >= old(fs.mishaps)
    ensures fs.mishaps == old(fs.mishaps) ==> OthersUnpublishable(publications, starts, which)
  {
    hide Sound, SoundFrom, Rising, AllNamed, Publication.Careful, GenerationId, Records, Unpublishable;
    released, starts, which := [], [], [];
    NothingReleased(fs.files, fs.history);
    for n := 0 to |publications|
      invariant fs.Valid() && old(fs.history) <= fs.history && Rising(released) && AllNamed(fs.files, released)
      invariant |starts| == n && forall i :: 0 <= i < n ==> starts[i] in fs.history
      invariant AllCareful(publications, starts) ==> SoundFrom(fs.history, |old(fs.history)|) && Sound(fs.files)
      invariant ReleasedBy(publications, released, which, n) && fs.mishaps >= old(fs.mishaps)
      invariant fs.mishaps == old(fs.mishaps) ==> OthersUnpublishable(publications, starts, which)
    {
      ghost var was, before, soFar := fs.files, fs.history, starts;
      assert before[|before| - 1] == was && was in before;
      starts := starts + [was];
      var more := PublishNext(fs, publications[n], released);
      if |more| > |released| {
        which := which + [n];
      }
      assert n in which || more == released;
      released := more;
      if AllCareful(publications, starts) {
        assert starts[n] == was && forall i :: 0 <= i < n ==> soFar[i] == starts[i];
        SoundJoin(before, fs.history, |old(fs.history)|);
      }
    }
  }

  method PublishNext(fs: FileSystem, p: Publication, released: seq<Reference>) returns (more: seq<Reference>)
    requires fs.Valid() && p.Fits() && AllNamed(fs.files, released) && Rising(released)
    modifies fs
    ensures fs.Valid() && old(fs.history) <= fs.history && AllNamed(fs.files, more) && Rising(more)
    ensures p.Careful(old(fs.files)) && Sound(old(fs.files)) ==> SoundFrom(fs.history, |old(fs.history)|)
    ensures more == released
            || (|more| == |released| + 1 && released <= more && more[|released|].generation == GenerationId(Records(p.request.members, p.first)))
    ensures fs.mishaps >= old(fs.mishaps)
    ensures more == released && fs.mishaps == old(fs.mishaps) ==> Unpublishable(old(fs.files), p.request, p.first)
  {
    hide Sound, SoundFrom, Named, Rising, AllNamed, Records, GenerationId, IsNewest, NewestUses, BelowTop, Publication.Careful, Unpublishable;
    ghost var was := fs.files;
    var r, id := Publish(fs, p.request, p.first, p.second);
    if p.Careful(was) {
      CarefulMeans(p, was, id);
    }
    NamesStay(was, fs.files, released, id);
    more := released;
    if r.Some? {
      ReleasedAbove(was, fs.files, released, r.value, id);
      more := released + [r.value];
    }
  }

  lemma NothingReleased(files: Files, history: seq<Files>)
    ensures Rising([]) && AllNamed(files, []) && SoundFrom(history, |history|)
  {
  }

  lemma CarefulMeans(p: Publication, files: Files, id: string)
    requires p.Fits() && p.Careful(files) && id == GenerationId(Records(p.request.members, p.first))
    ensures p.first == p.second && BelowTop(files) && !NewestUses(files, id)
  {
  }

  lemma SoundJoin(before: seq<Files>, history: seq<Files>, from: nat)
    requires 0 < from <= |before| && before <= history && SoundFrom(before, from) && SoundFrom(history, |before|)
    requires Sound(before[|before| - 1])
    ensures SoundFrom(history, from) && Sound(history[|history| - 1])
  {
    hide Sound;
    forall i | from <= i < |history|
      ensures Sound(history[i])
    {
      if i < |before| {
        assert Sound(before[i]);
      }
    }
  }

  lemma NamesStay(was: Files, now: Files, released: seq<Reference>, id: string)
    requires AllNamed(was, released)
    requires now.markers == was.markers || exists x :: Released(was, now, x, id)
    ensures AllNamed(now, released)
  {
    hide SerializedMarker;
  }

  lemma ReleasedAbove(was: Files, now: Files, released: seq<Reference>, r: Reference, id: string)
    requires AllNamed(was, released) && Rising(released) && Released(was, now, r, id)
    ensures AllNamed(now, released + [r]) && Rising(released + [r])
  {
    hide SerializedMarker;
    NamesStay(was, now, released, id);
  }
}
