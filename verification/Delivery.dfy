/** From the publisher to the consumer: what a pass makes of the directories a publisher leaves. */
module Delivery {
  import opened Wrappers
  import opened Words
  import opened GenerationOffer
  import opened References
  import opened Publisher
  import opened GenerationStream
  import GroupDescriptor
  import Sha256

  /** A pass reads the state `files`: its markers in any order, its manifests and its objects. */
  ghost predicate Shows(view: View, files: Files) {
    && view.markers.Some? && (forall name :: name in view.markers.value <==> name in files.markers)
    && (forall id :: id in files.generations ==> ShowsGeneration(view, id, files.generations[id]))
  }

  ghost predicate ShowsGeneration(view: View, id: string, g: Generation) {
    && (g.manifest.Some? ==> id in view.manifests && view.manifests[id] == g.manifest.value)
    && (forall path :: path in g.objects ==> view.Object(id, path) == Readable(g.objects[path]))
  }

  /** The offer is for the group as the running program was built. */
  predicate Suits(o: Offer, d: GroupDescriptor.Descriptor) {
    && o.group == d.group && o.compatibility == d.compatibility && o.abi == d.abi
    && |o.members| == |d.members| && forall i :: 0 <= i < |o.members| ==> o.members[i].member == d.members[i]
  }

  /** A complete generation with a suitable manifest is one that may be consumed. */
  lemma CompleteIsGood(view: View, files: Files, d: GroupDescriptor.Descriptor, r: Reference, o: Offer)
    requires Shows(view, files) && r.generation in files.generations && Publisher.Complete(files.generations[r.generation], r)
    requires Parsed(files.generations[r.generation].manifest.value) == Ok(o) && Suits(o, d)
    ensures Good(view, d, r, o)
  {
    hide Parsed, Sha256.Fingerprint;
    var g := files.generations[r.generation];
    assert ShowsGeneration(view, r.generation, g);
    forall i | 0 <= i < |o.members|
      ensures MemberGood(view, r.generation, o.members[i])
    {
      assert HoldsMember(g, o.members[i]);
    }
  }

  lemma NewestSeen(view: View, files: Files, cursor: nat, r: Reference, seen: Reference)
    requires Shows(view, files) && IsNewest(files, r) && r.sequence > cursor
    requires Newest(Newer(view.markers.value, cursor, |view.markers.value|), seen)
    ensures seen == r
  {
    hide ParsedMarker, SerializedMarker, Less;
    var names := view.markers.value;
    NewerExact(names, cursor, |names|);
    SeenNamed(view, files, r);
    assert r in Newer(names, cursor, |names|);
    var k :| 0 <= k < |names| && ParsedMarker(names[k]) == Ok(seen) && seen.sequence > cursor;
    SequencesFit(names[k]);
    MarkerExact(names[k], seen);
    assert names[k] in names;
    assert Named(files, seen);
    Order(r, seen, r);
  }

  lemma SeenNamed(view: View, files: Files, r: Reference)
    requires Shows(view, files) && Named(files, r)
    ensures exists k :: 0 <= k < |view.markers.value| && ParsedMarker(view.markers.value[k]) == Ok(r)
  {
    hide ParsedMarker, SerializedMarker;
    var name := SerializedMarker(r).value;
    assert name in view.markers.value;
    var k :| 0 <= k < |view.markers.value| && view.markers.value[k] == name;
    MarkerExact(name, r);
  }

  lemma {:induction false} HighestReaches(names: seq<string>, start: nat, n: nat, k: nat)
    requires k < n <= |names| && ParsedMarker(names[k]).Ok?
    ensures Highest(names, start, n) >= ParsedMarker(names[k]).value.sequence
  {
    hide ParsedMarker;
    if k < n - 1 {
      HighestReaches(names, start, n - 1, k);
    }
  }

  /** A sound state whose newest marker is above the cursor is consumed in one pass, when its manifest suits the program:
      what the publisher guarantees at every step is what the consumer needs. */
  method Deliver(stream: GenerationStream, ghost files: Files, view: View, ghost r: Reference, ghost offer: Offer) returns (o: Observation)
    requires stream.Valid() && GroupDescriptor.Valid(stream.descriptor)
    requires Shows(view, files) && view.resolvable && Sound(files) && IsNewest(files, r) && r.sequence > stream.cursor
    requires Parsed(files.generations[r.generation].manifest.value) == Ok(offer) && Suits(offer, stream.descriptor)
    modifies stream
    ensures stream.Valid() && o == Consumed(r, offer) && stream.cursor == r.sequence
  {
    hide Publisher.Complete, Parsed, ParsedMarker, SerializedMarker, Suits, Shows, Newer, Highest, Less;
    ghost var cursor, names := stream.cursor, Names(view, files);
    CompleteIsGood(view, files, stream.descriptor, r, offer);
    SeenNamed(view, files, r);
    ghost var k :| 0 <= k < |names| && ParsedMarker(names[k]) == Ok(r);
    HighestReaches(names, cursor, |names|, k);
    o := stream.Poll(view);
    assert o.Consumed? || o.Rejected?;
    NewestSeen(view, files, cursor, r, o.reference);
    if o.Consumed? {
      GoodOffer(view, stream.descriptor, r, o.offer, offer);
    }
  }

  ghost function Names(view: View, files: Files): (names: seq<string>)
    requires Shows(view, files)
    ensures view.markers == Some(names)
  {
    view.markers.value
  }

  lemma GoodOffer(view: View, d: GroupDescriptor.Descriptor, r: Reference, a: Offer, b: Offer)
    requires Good(view, d, r, a) && Good(view, d, r, b)
    ensures a == b
  {
    hide Parsed;
  }

  /** One pass over directories that hold still. */
  method ReadView(files: Files) returns (view: View)
    ensures Shows(view, files) && view.resolvable
  {
    var names: seq<string> := [];
    var todo := files.markers;
    while todo != {}
      invariant todo <= files.markers && forall name :: name in names <==> name in files.markers - todo
    {
      var name :| name in todo;
      names := names + [name];
      todo := todo - {name};
    }
    var manifests := map id | id in files.generations && files.generations[id].manifest.Some? :: files.generations[id].manifest.value;
    var objects := map id, path | id in files.generations && path in files.generations[id].objects ::
      (id, path) := Readable(files.generations[id].objects[path]);
    view := View(Some(names), manifests, objects, true);
  }

  /** The request is for a program with this descriptor. */
  predicate BuiltFor(q: Request, d: GroupDescriptor.Descriptor) {
    && q.group == d.group && q.compatibility == d.compatibility && q.abi == d.abi
    && |q.members| == |d.members| && forall i :: 0 <= i < |q.members| ==> q.members[i].member == d.members[i]
  }

  lemma PublishedOffer(g: Generation, q: Request, sequence: nat, contents: seq<Sha256.Content>, d: GroupDescriptor.Descriptor)
    requires |q.members| == |contents| && sequence <= MAX_64 && BuiltFor(q, d) && Prints(g, Manifest(q, sequence, contents))
    ensures Parsed(g.manifest.value) == Ok(Manifest(q, sequence, contents)) && Suits(Manifest(q, sequence, contents), d)
  {
    hide Parsed, Serialized, GenerationId, Sha256.Fingerprint, GenerationOffer.Valid;
    SerializedValid(Manifest(q, sequence, contents));
    RoundTrip(Manifest(q, sequence, contents));
  }

  /** The cursor is below a sequence that was allocated after these markers. */
  ghost predicate Awaits(cursor: nat, files: Files) {
    cursor == 0 || exists y :: Named(files, y) && cursor <= y.sequence
  }

  lemma AwaitsNext(cursor: nat, was: Files, sequence: nat)
    requires Follows(was, sequence) && BelowTop(was) && forall y :: Named(was, y) && y.sequence < MAX_64 ==> y.sequence < sequence
    ensures cursor < sequence <==> Awaits(cursor, was)
  {
    hide SerializedMarker;
    if 0 < cursor < sequence {
      var y :| Named(was, y) && y.sequence == sequence - 1;
      assert cursor <= y.sequence;
    }
  }

  /** A publication of stable objects that returns is consumed by the next pass of a program it was built for, with the
      manifest of just these objects; exactly when the program's cursor is zero, or not above every marker that was there. */
  method PublishAndConsume(fs: FileSystem, q: Request, contents: seq<Sha256.Content>, stream: GenerationStream)
    returns (r: Option<Reference>, o: Observation, ghost view: View)
    requires fs.Valid() && stream.Valid() && GroupDescriptor.Valid(stream.descriptor) && |q.members| == |contents|
    requires BelowTop(fs.files)
    modifies fs, stream
    ensures fs.Valid() && stream.Valid()
    ensures r.Some? ==> Follows(old(fs.files), r.value.sequence)
    ensures r.Some? && BuiltFor(q, stream.descriptor) ==>
              (o == Consumed(r.value, Manifest(q, r.value.sequence, contents)) <==> Awaits(old(stream.cursor), old(fs.files)))
    ensures r.Some? && !Awaits(old(stream.cursor), old(fs.files)) ==> !o.Consumed? && stream.cursor == old(stream.cursor)
    ensures fs.mishaps >= old(fs.mishaps) && (fs.mishaps == old(fs.mishaps) ==> r.Some? || Unpublishable(old(fs.files), q, contents))
    ensures r.Some? && !(BuiltFor(q, stream.descriptor) && Awaits(old(stream.cursor), old(fs.files))) ==>
              Shows(view, fs.files) && Observes(view, stream.descriptor, old(stream.cursor), old(stream.reports), o)
  {
    hide Publisher.Complete, Parsed, Serialized, SerializedMarker, Suits, Shows, Newer, Highest, Less, Prints, Manifest, BuiltFor, GenerationId,
      NewestUses, Sound, SoundFrom, Follows, Awaits, Released, BelowTop, IsNewest, Observes, Unpublishable;
    ghost var id, was := "", fs.files;
    r, id := Publish(fs, q, contents, contents);
    o, view := Idle, View(None, map[], map[], false);
    if r.Some? {
      ReleasedMeans(was, fs.files, r.value, id);
      AwaitsNext(stream.cursor, was, r.value.sequence);
      var seen := ReadView(fs.files);
      view := seen;
      if BuiltFor(q, stream.descriptor) && stream.cursor < r.value.sequence {
        PublishedOffer(fs.files.generations[id], q, r.value.sequence, contents, stream.descriptor);
        o := Deliver(stream, fs.files, seen, r.value, Manifest(q, r.value.sequence, contents));
      } else {
        NewestBound(fs.files, view, r.value, stream.cursor);
        o := PollOnce(stream, seen);
      }
    }
  }

  /** No marker is above the newest one. */
  lemma NewestBound(files: Files, view: View, r: Reference, cursor: nat)
    requires Shows(view, files) && IsNewest(files, r)
    ensures cursor >= r.sequence ==> Highest(view.markers.value, cursor, |view.markers.value|) == cursor
  {
    hide ParsedMarker, SerializedMarker, TextLess;
    var names := view.markers.value;
    forall k | 0 <= k < |names| && ParsedMarker(names[k]).Ok?
      ensures ParsedMarker(names[k]).value.sequence <= r.sequence
    {
      var x := ParsedMarker(names[k]).value;
      SequencesFit(names[k]);
      MarkerExact(names[k], x);
      assert names[k] in names;
      assert Named(files, x);
    }
    if cursor >= r.sequence {
      HighestIs(names, cursor, |names|, cursor);
    }
  }

  /** The first publication has the sequence one: a program with a greater baseline never consumes it. */
  method FirstBelowBaseline(fs: FileSystem, q: Request, contents: seq<Sha256.Content>, d: GroupDescriptor.Descriptor)
    returns (r: Option<Reference>, o: Observation)
    requires fs.Valid() && fs.files.markers == {} && |q.members| == |contents|
    requires GroupDescriptor.Valid(d) && BuiltFor(q, d)
    modifies fs
    ensures r.Some? ==> r.value.sequence == 1
    ensures r.Some? ==> (o == Consumed(r.value, Manifest(q, 1, contents)) <==> d.baseline == 0)
    ensures r.Some? && d.baseline > 0 ==> !o.Consumed?
    ensures fs.mishaps >= old(fs.mishaps) && (fs.mishaps == old(fs.mishaps) ==> r.Some? || Unpublishable(old(fs.files), q, contents))
  {
    hide Unpublishable, Manifest, BuiltFor, SerializedMarker;
    var stream := new GenerationStream(d);
    NothingNamed(fs.files);
    ghost var view;
    r, o, view := PublishAndConsume(fs, q, contents, stream);
  }

  lemma NothingNamed(files: Files)
    requires files.markers == {}
    ensures forall y :: !Named(files, y)
  {
  }
}
