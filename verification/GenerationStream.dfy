/** Reading the publication stream of one managed group: one observation per pass. */
module GenerationStream {
  import opened Wrappers
  import opened Words
  import opened Wire
  import opened GenerationOffer
  import opened References
  import GroupDescriptor
  import Sha256

  datatype FileState = Outside | Missing | Readable(content: Sha256.Content)

  /** What the directories hold during one pass. `markers` is absent when there is nothing to list,
      `resolvable` tells whether the generation directory has a canonical path. */
  datatype View = View(
    markers: Option<seq<string>>, manifests: map<string, string>, objects: map<(string, string), FileState>, resolvable: bool)
  {
    function Object(generation: string, path: string): FileState {
      if (generation, path) in objects then objects[(generation, path)] else Missing
    }
  }

  datatype Reason =
    | NoManifest | BadManifest(error: WireError)
    | ObjectOutside(member: nat) | ObjectMissing(member: nat) | DigestMismatch(member: nat)

  datatype Observation =
    | Idle
    | Consumed(reference: Reference, offer: Offer)
    | Rejected(reference: Reference, reason: Reason)
    | MarkerRejected(name: string)
    | Threw

  predicate IsMarker(name: string) {
    |name| >= |SUFFIX| && name[|name| - |SUFFIX|..] == SUFFIX
  }

  predicate IsMalformed(name: string) {
    IsMarker(name) && ParsedMarker(name).Error?
  }

  /** A name is malformed when it ends like a marker and is not the printed name of any reference. */
  lemma MalformedMeans(name: string)
    ensures IsMalformed(name)
       <==> |name| >= 6 && name[|name| - 6..] == ".ready" && forall r: Reference :: r.sequence <= MAX_64 ==> SerializedMarker(r) != Ok(name)
  {
    hide ParsedMarker, SerializedMarker;
    forall r: Reference | r.sequence <= MAX_64
      ensures ParsedMarker(name) == Ok(r) <==> SerializedMarker(r) == Ok(name)
    {
      MarkerExact(name, r);
    }
    if ParsedMarker(name).Ok? {
      MarkerInRange(name);
    }
  }

  lemma MarkerInRange(name: string)
    ensures ParsedMarker(name).Ok? ==> ParsedMarker(name).value.sequence <= MAX_64
  {
    hide PortablePath, Identity;
  }

  // ---- what a pass sees ----

  /** The well-formed markers newer than the cursor, in directory order. */
  function Newer(names: seq<string>, cursor: nat, n: nat): seq<Reference>
    requires n <= |names|
  {
    if n == 0 then []
    else
      var r := ParsedMarker(names[n - 1]);
      Newer(names, cursor, n - 1) + if r.Ok? && r.value.sequence > cursor then [r.value] else []
  }

  lemma {:induction false} NewerExact(names: seq<string>, cursor: nat, n: nat)
    requires n <= |names|
    ensures forall x :: x in Newer(names, cursor, n) <==>
              exists k :: 0 <= k < n && ParsedMarker(names[k]) == Ok(x) && x.sequence > cursor
  {
    hide ParsedMarker;
    if n > 0 {
      NewerExact(names, cursor, n - 1);
    }
  }

  /** The greatest of `start` and the sequences of all well-formed markers. */
  function Highest(names: seq<string>, start: nat, n: nat): (r: nat)
    requires n <= |names|
    ensures start <= r
  {
    if n == 0 then start
    else
      var marker := ParsedMarker(names[n - 1]);
      if marker.Ok? then Max(Highest(names, start, n - 1), marker.value.sequence) else Highest(names, start, n - 1)
  }

  lemma {:induction false} HighestIs(names: seq<string>, start: nat, n: nat, top: nat)
    requires n <= |names| && start <= top
    requires forall k :: 0 <= k < n && ParsedMarker(names[k]).Ok? ==> ParsedMarker(names[k]).value.sequence <= top
    requires top == start || exists k :: 0 <= k < n && ParsedMarker(names[k]).Ok? && ParsedMarker(names[k]).value.sequence == top
    ensures Highest(names, start, n) == top
  {
    hide ParsedMarker;
    if n > 0 {
      var marker := ParsedMarker(names[n - 1]);
      if marker.Ok? && marker.value.sequence == top {
        HighestBelow(names, start, n - 1, top);
      } else {
        HighestIs(names, start, n - 1, top);
      }
    }
  }

  lemma {:induction false} HighestBelow(names: seq<string>, start: nat, n: nat, top: nat)
    requires n <= |names| && start <= top
    requires forall k :: 0 <= k < n && ParsedMarker(names[k]).Ok? ==> ParsedMarker(names[k]).value.sequence <= top
    ensures Highest(names, start, n) <= top
  {
    hide ParsedMarker;
    if n > 0 {
      HighestBelow(names, start, n - 1, top);
    }
  }

  // ---- checking one generation ----

  function MemberReason(view: View, generation: string, m: Member, k: nat): Option<Reason> {
    match view.Object(generation, m.objectPath)
    case Outside => Some(ObjectOutside(k))
    case Missing => Some(ObjectMissing(k))
    case Readable(content) => if Sha256.Fingerprint(content) == m.sha256 then None else Some(DigestMismatch(k))
  }

  predicate MemberGood(view: View, generation: string, m: Member) {
    view.Object(generation, m.objectPath).Readable? && Sha256.Fingerprint(view.Object(generation, m.objectPath).content) == m.sha256
  }

  /** A generation that may be consumed: its manifest parses, fits the descriptor and the marker, and every
      object is there with the digest the manifest states. */
  ghost predicate Good(view: View, d: GroupDescriptor.Descriptor, r: Reference, o: Offer) {
    ManifestGood(view, d, r, o) && forall i :: 0 <= i < |o.members| ==> MemberGood(view, r.generation, o.members[i])
  }

  ghost predicate ManifestGood(view: View, d: GroupDescriptor.Descriptor, r: Reference, o: Offer) {
    && r.generation in view.manifests && Parsed(view.manifests[r.generation]) == Ok(o)
    && o.sequence == r.sequence && o.generation == r.generation
    && o.group == d.group && o.compatibility == d.compatibility && o.abi == d.abi
    && |o.members| == |d.members| && (forall i :: 0 <= i < |o.members| ==> o.members[i].member == d.members[i])
  }

  /** What a reason says about the generation it is given for: the manifest is missing, unreadable, or about something else,
      or member `k` is the first whose object lies outside, is missing, or has another digest. */
  ghost predicate Explains(view: View, d: GroupDescriptor.Descriptor, r: Reference, reason: Reason) {
    match reason
    case NoManifest => r.generation !in view.manifests
    case BadManifest(error) =>
      r.generation in view.manifests
      && (Parsed(view.manifests[r.generation]) == Error(error)
          || (Parsed(view.manifests[r.generation]).Ok? && !ManifestGood(view, d, r, Parsed(view.manifests[r.generation]).value)))
    case ObjectOutside(k) => exists o :: FirstBad(view, d, r, o, k) && view.Object(r.generation, o.members[k].objectPath).Outside?
    case ObjectMissing(k) => exists o :: FirstBad(view, d, r, o, k) && view.Object(r.generation, o.members[k].objectPath).Missing?
    case DigestMismatch(k) => exists o :: FirstBad(view, d, r, o, k) && view.Object(r.generation, o.members[k].objectPath).Readable?
  }

  ghost predicate FirstBad(view: View, d: GroupDescriptor.Descriptor, r: Reference, o: Offer, k: nat) {
    ManifestGood(view, d, r, o) && k < |o.members| && !MemberGood(view, r.generation, o.members[k])
    && forall i :: 0 <= i < k ==> MemberGood(view, r.generation, o.members[i])
  }

  /** The newest generation has a manifest that suits it, and a directory without a canonical path. */
  ghost predicate Unresolvable(view: View, d: GroupDescriptor.Descriptor, cursor: nat) {
    && view.markers.Some? && !view.resolvable
    && exists r, o :: Newest(Newer(view.markers.value, cursor, |view.markers.value|), r) && ManifestGood(view, d, r, o)
  }

  lemma OneBadMember(view: View, d: GroupDescriptor.Descriptor, r: Reference, o: Offer, k: nat)
    requires FirstBad(view, d, r, o, k)
    ensures forall x :: !Good(view, d, r, x)
  {
    hide MemberGood;
  }

  lemma NothingToResolve(view: View, d: GroupDescriptor.Descriptor, cursor: nat)
    requires view.markers.Some? ==> Newer(view.markers.value, cursor, |view.markers.value|) == []
    ensures !Unresolvable(view, d, cursor)
  {
  }

  lemma UnresolvableJust(view: View, d: GroupDescriptor.Descriptor, cursor: nat, r: Reference)
    requires view.markers.Some? && Newest(Newer(view.markers.value, cursor, |view.markers.value|), r)
    ensures Unresolvable(view, d, cursor) <==> !view.resolvable && exists o :: ManifestGood(view, d, r, o)
  {
    hide Newer, Less, ManifestGood;
    forall x | Newest(Newer(view.markers.value, cursor, |view.markers.value|), x)
      ensures x == r
    {
      Order(x, r, r);
    }
  }

  class GenerationStream {
    const descriptor: GroupDescriptor.Descriptor
    var cursor: nat
    var reported: set<string>

    /** Every name of a malformed marker that was ever reported. */
    ghost var reports: seq<string>

    ghost predicate Valid()
      reads this
    {
      && (forall name :: name in reported <==> name in reports)
      && (forall i, j :: 0 <= i < j < |reports| ==> reports[i] != reports[j])
    }

    constructor (descriptor: GroupDescriptor.Descriptor)
      requires GroupDescriptor.Valid(descriptor)
      ensures Valid() && this.descriptor == descriptor && cursor == descriptor.baseline && reports == [] && reported == {}
    {
      this.descriptor := descriptor;
      cursor := descriptor.baseline;
      reported := {};
      reports := [];
    }

    /** One pass. An observation of an offer moves the cursor to the greatest sequence in the directory, whether the
        offer is consumed or rejected; nothing else moves it. */
    method Poll(view: View) returns (o: Observation)
      requires Valid() && GroupDescriptor.Valid(descriptor)
      modifies this
      ensures Valid() && old(cursor) <= cursor && old(reports) <= reports
      ensures view.markers.Some? && o != Threw ==> cursor == Highest(view.markers.value, old(cursor), |view.markers.value|)
      ensures view.markers.None? ==> o == Idle
      ensures o == Threw <==> Unresolvable(view, descriptor, old(cursor))
      ensures o == Idle && view.markers.Some? ==>
                forall k :: 0 <= k < |view.markers.value| && IsMalformed(view.markers.value[k]) ==> view.markers.value[k] in old(reports)
      ensures o == Idle || o == Threw || o.MarkerRejected? ==> cursor == old(cursor)
      ensures o.Consumed? || o.Rejected? ==>
                cursor == o.reference.sequence > old(cursor)
                && Newest(Newer(view.markers.value, old(cursor), |view.markers.value|), o.reference)
      ensures o.Consumed? ==> Good(view, descriptor, o.reference, o.offer)
      ensures o.Rejected? ==> forall offer :: !Good(view, descriptor, o.reference, offer)
      ensures o.Rejected? ==> Explains(view, descriptor, o.reference, o.reason)
      ensures o.MarkerRejected? ==> IsMalformed(o.name) && o.name in view.markers.value && o.name !in old(reports)
      ensures o.MarkerRejected? ==>
                forall k :: 0 <= k < |view.markers.value| && IsMalformed(view.markers.value[k]) && view.markers.value[k] !in old(reports) ==>
                  !TextLess(view.markers.value[k], o.name)
      ensures reports == old(reports) + if o.MarkerRejected? then [o.name] else []
    {
      hide Newer, Highest, Newest, Less, TextLess, Explains, ManifestGood, MemberGood, Unresolvable, ParsedMarker;
      if view.markers.None? {
        NothingToResolve(view, descriptor, cursor);
        return Idle;
      }
      var names := view.markers.value;
      var newer := CollectNewer(names);
      if newer == [] {
        NothingNewer(names, cursor);
        NothingToResolve(view, descriptor, cursor);
        o := ReportMalformed(names);
        return;
      }
      var selected := SelectNewest(newer);
      SelectedHighest(names, cursor, selected);
      UnresolvableJust(view, descriptor, cursor, selected);
      var reason, offer := Check(view, selected);
      if reason.Some? {
        o := Rejected(selected, reason.value);
      } else if !view.resolvable {
        return Threw;
      } else {
        var bad := CheckObjects(view, selected, offer);
        o := if bad.Some? then Rejected(selected, bad.value) else Consumed(selected, offer);
      }
      cursor := selected.sequence;
    }

    method CollectNewer(names: seq<string>) returns (newer: seq<Reference>)
      ensures newer == Newer(names, cursor, |names|)
    {
      hide ParsedMarker;
      newer := [];
      for i := 0 to |names|
        invariant newer == Newer(names, cursor, i)
      {
        var r := ParsedMarker(names[i]);
        if r.Ok? && r.value.sequence > cursor {
          newer := newer + [r.value];
        }
      }
    }

    /** The first malformed marker, in the order of names, that was not reported before. */
    method ReportMalformed(names: seq<string>) returns (o: Observation)
      requires Valid()
      modifies `reported, `reports
      ensures Valid()
      ensures if o.MarkerRejected? then
                o.name in names && IsMalformed(o.name) && o.name !in old(reported) && reports == old(reports) + [o.name]
                && forall k :: 0 <= k < |names| && IsMalformed(names[k]) && names[k] !in old(reported) ==> !TextLess(names[k], o.name)
              else
                o == Idle && reports == old(reports)
                && forall k :: 0 <= k < |names| && IsMalformed(names[k]) ==> names[k] in old(reported)
    {
      hide IsMalformed, TextLess;
      var least: Option<string> := None;
      for i := 0 to |names|
        invariant reported == old(reported) && reports == old(reports)
        invariant least.None? ==> forall k :: 0 <= k < i && IsMalformed(names[k]) ==> names[k] in reported
        invariant least.Some? ==> least.value in names && IsMalformed(least.value) && least.value !in reported
        invariant least.Some? ==>
                    forall k :: 0 <= k < i && IsMalformed(names[k]) && names[k] !in reported ==> !TextLess(names[k], least.value)
      {
        if IsMalformed(names[i]) && names[i] !in reported {
          if least.None? {
            TextOrder(names[i], names[i], names[i]);
            least := Some(names[i]);
          } else {
            TextOrder(names[i], least.value, least.value);
            if TextLess(names[i], least.value) {
              StaysLeast(names, i, least.value, reported);
              least := Some(names[i]);
            }
          }
        }
      }
      if least.None? {
        return Idle;
      }
      reported := reported + {least.value};
      reports := reports + [least.value];
      o := MarkerRejected(least.value);
    }

    static lemma StaysLeast(names: seq<string>, i: nat, least: string, reported: set<string>)
      requires i < |names| && TextLess(names[i], least)
      requires forall k :: 0 <= k < i && IsMalformed(names[k]) && names[k] !in reported ==> !TextLess(names[k], least)
      ensures forall k :: 0 <= k <= i && IsMalformed(names[k]) && names[k] !in reported ==> !TextLess(names[k], names[i])
    {
      hide IsMalformed, TextLess;
      forall k | 0 <= k <= i && IsMalformed(names[k]) && names[k] !in reported
        ensures !TextLess(names[k], names[i])
      {
        TextOrder(names[k], names[i], least);
      }
    }

    /** The checks on the manifest. */
    method Check(view: View, r: Reference) returns (reason: Option<Reason>, offer: Offer)
      requires GroupDescriptor.Valid(descriptor) && PortablePath(r.generation, false)
      ensures reason.Some? ==> Explains(view, descriptor, r, reason.value) && forall o :: !ManifestGood(view, descriptor, r, o)
      ensures reason.None? ==> ManifestGood(view, descriptor, r, offer)
    {
      hide Parsed, MemberGood, OfferError, GroupDescriptor.DescriptorError;
      offer := Offer("", 0, "", "", "", [], []);
      if r.generation !in view.manifests {
        return Some(NoManifest), offer;
      }
      var parsed := GenerationOffer.Parse(view.manifests[r.generation]);
      if parsed.Error? {
        return Some(BadManifest(parsed.error)), offer;
      }
      offer := parsed.value;
      ParsedValid(view.manifests[r.generation]);
      ValidNotRefused(offer);
      GroupDescriptor.ValidatorExact(descriptor);
      var mismatch := DescriptorMismatch(offer, descriptor);
      if mismatch.Some? {
        return Some(BadManifest(mismatch.value)), offer;
      }
      var wrong := ReferenceError(r, offer);
      if wrong.Some? {
        return Some(BadManifest(wrong.value)), offer;
      }
      reason := None;
    }

    method CheckObjects(view: View, r: Reference, offer: Offer) returns (bad: Option<Reason>)
      requires ManifestGood(view, descriptor, r, offer)
      ensures bad.None? <==> forall i :: 0 <= i < |offer.members| ==> MemberGood(view, r.generation, offer.members[i])
      ensures bad.Some? ==> Explains(view, descriptor, r, bad.value) && forall o :: !Good(view, descriptor, r, o)
    {
      hide Sha256.Fingerprint, ManifestGood;
      for k := 0 to |offer.members|
        invariant forall i :: 0 <= i < k ==> MemberGood(view, r.generation, offer.members[i])
      {
        bad := MemberReason(view, r.generation, offer.members[k], k);
        if bad.Some? {
          assert FirstBad(view, descriptor, r, offer, k);
          OneBadMember(view, descriptor, r, offer, k);
          return;
        }
      }
      bad := None;
    }
  }

  lemma NothingNewer(names: seq<string>, cursor: nat)
    requires Newer(names, cursor, |names|) == []
    ensures Highest(names, cursor, |names|) == cursor
  {
    hide ParsedMarker;
    NewerExact(names, cursor, |names|);
    forall k | 0 <= k < |names| && ParsedMarker(names[k]).Ok?
      ensures ParsedMarker(names[k]).value.sequence <= cursor
    {
      var x := ParsedMarker(names[k]).value;
      assert x !in Newer(names, cursor, |names|);
    }
    HighestIs(names, cursor, |names|, cursor);
  }

  lemma SelectedHighest(names: seq<string>, cursor: nat, r: Reference)
    requires Newest(Newer(names, cursor, |names|), r)
    ensures Highest(names, cursor, |names|) == r.sequence > cursor
    ensures PortablePath(r.generation, false)
  {
    NewerExact(names, cursor, |names|);
    forall k | 0 <= k < |names| && ParsedMarker(names[k]).Ok?
      ensures ParsedMarker(names[k]).value.sequence <= r.sequence
    {
      var x := ParsedMarker(names[k]).value;
      assert x.sequence > cursor ==> x in Newer(names, cursor, |names|) && !Less(r, x);
    }
    HighestIs(names, cursor, |names|, r.sequence);
  }

  // ---- whole runs ----

  predicate HasSequence(o: Observation) {
    o.Consumed? || o.Rejected?
  }

  predicate SequencesRise(os: seq<Observation>) {
    forall i, j :: 0 <= i < j < |os| && HasSequence(os[i]) && HasSequence(os[j]) ==> os[i].reference.sequence < os[j].reference.sequence
  }

  predicate NamesDiffer(os: seq<Observation>) {
    forall i, j :: 0 <= i < j < |os| && os[i].MarkerRejected? && os[j].MarkerRejected? ==> os[i].name != os[j].name
  }

  /** The observations so far lie at or below the cursor, and their malformed names are on record. */
  predicate Behind(os: seq<Observation>, cursor: nat, reports: seq<string>) {
    && (forall i :: 0 <= i < |os| && HasSequence(os[i]) ==> os[i].reference.sequence <= cursor)
    && (forall i :: 0 <= i < |os| && os[i].MarkerRejected? ==> os[i].name in reports)
  }

  lemma ObservesNext(os: seq<Observation>, o: Observation, was: nat, now: nat, before: seq<string>, after: seq<string>)
    requires SequencesRise(os) && NamesDiffer(os) && Behind(os, was, before) && was <= now && before <= after
    requires HasSequence(o) ==> was < o.reference.sequence == now
    requires o.MarkerRejected? ==> o.name !in before && o.name in after
    ensures SequencesRise(os + [o]) && NamesDiffer(os + [o]) && Behind(os + [o], now, after)
  {
    forall i | 0 <= i < |os| && os[i].MarkerRejected?
      ensures os[i].name in after
    {
      assert os[i].name in before;
    }
  }

  /** One pass from a cursor and the names reported so far: nothing, the newest newer offer with its verdict, or the least malformed
      name that was not reported before. */
  ghost predicate Observes(view: View, d: GroupDescriptor.Descriptor, cursor: nat, reports: seq<string>, o: Observation) {
    if view.markers.None? then o == Idle
    else if Newer(view.markers.value, cursor, |view.markers.value|) == [] then
      if exists k :: NewlyMalformed(view.markers.value, reports, k) then
        o.MarkerRejected? && (exists k :: NewlyMalformed(view.markers.value, reports, k) && o.name == view.markers.value[k])
        && forall k :: NewlyMalformed(view.markers.value, reports, k) ==> !TextLess(view.markers.value[k], o.name)
      else o == Idle
    else if Unresolvable(view, d, cursor) then o == Threw
    else
      HasSequence(o) && Newest(Newer(view.markers.value, cursor, |view.markers.value|), o.reference)
      && if o.Consumed? then Good(view, d, o.reference, o.offer)
         else Explains(view, d, o.reference, o.reason) && forall offer :: !Good(view, d, o.reference, offer)
  }

  predicate NewlyMalformed(names: seq<string>, reports: seq<string>, k: int) {
    0 <= k < |names| && IsMalformed(names[k]) && names[k] !in reports
  }

  /** The cursor and the reported names after a pass. */
  ghost predicate Moves(o: Observation, cursor: nat, reports: seq<string>, now: nat, after: seq<string>) {
    && now == (if HasSequence(o) then o.reference.sequence else cursor)
    && after == (if o.MarkerRejected? then reports + [o.name] else reports)
  }

  /** A pass of the stream is one such step. */
  method PollOnce(stream: GenerationStream, view: View) returns (o: Observation)
    requires stream.Valid() && GroupDescriptor.Valid(stream.descriptor)
    modifies stream
    ensures stream.Valid()
    ensures Observes(view, stream.descriptor, old(stream.cursor), old(stream.reports), o)
    ensures Moves(o, old(stream.cursor), old(stream.reports), stream.cursor, stream.reports)
    ensures HasSequence(o) ==> old(stream.cursor) < o.reference.sequence
    ensures view.markers.Some? && o != Threw ==> stream.cursor == Highest(view.markers.value, old(stream.cursor), |view.markers.value|)
    ensures o.MarkerRejected? ==> o.name !in old(stream.reports)
  {
    hide Good, Explains, Newest, Unresolvable, IsMalformed, TextLess, Highest, Newer, GenerationStream.Valid;
    o := stream.Poll(view);
    if view.markers.Some? {
      NewerDecides(view, stream.descriptor, old(stream.cursor));
      if o.MarkerRejected? {
        var k :| 0 <= k < |view.markers.value| && view.markers.value[k] == o.name;
        assert NewlyMalformed(view.markers.value, old(stream.reports), k);
      }
    }
  }

  lemma NewerDecides(view: View, d: GroupDescriptor.Descriptor, cursor: nat)
    requires view.markers.Some?
    ensures var newer := Newer(view.markers.value, cursor, |view.markers.value|);
      if newer == [] then !Unresolvable(view, d, cursor) && (forall r :: !Newest(newer, r))
      else Highest(view.markers.value, cursor, |view.markers.value|) > cursor
  {
    hide Newer, Less;
    var newer := Newer(view.markers.value, cursor, |view.markers.value|);
    if newer != [] {
      NewerExact(view.markers.value, cursor, |view.markers.value|);
      var k :| 0 <= k < |view.markers.value| && ParsedMarker(view.markers.value[k]) == Ok(newer[0]);
      HighestAtLeast(view.markers.value, cursor, |view.markers.value|, k);
    }
  }

  lemma {:induction false} HighestAtLeast(names: seq<string>, start: nat, n: nat, k: nat)
    requires k < n <= |names| && ParsedMarker(names[k]).Ok?
    ensures Highest(names, start, n) >= ParsedMarker(names[k]).value.sequence
  {
    hide ParsedMarker;
    if k < n - 1 {
      HighestAtLeast(names, start, n - 1, k);
    }
  }

  /** A consumer polling a directory that changes as it likes, each pass from where the one before it ended. The sequences it observes
      strictly increase, and no malformed marker is reported twice. */
  method PollAll(d: GroupDescriptor.Descriptor, views: seq<View>)
    returns (observations: seq<Observation>, ghost cursors: seq<nat>, ghost reports: seq<seq<string>>)
    requires GroupDescriptor.Valid(d)
    ensures |observations| == |views| && |cursors| == |reports| == |views| + 1 && cursors[0] == d.baseline && reports[0] == []
    ensures forall i :: 0 <= i < |views| ==> Observes(views[i], d, cursors[i], reports[i], observations[i])
    ensures forall i :: 0 <= i < |views| ==> Moves(observations[i], cursors[i], reports[i], cursors[i + 1], reports[i + 1])
    ensures SequencesRise(observations) && NamesDiffer(observations)
  {
    hide Observes, SequencesRise, NamesDiffer, Behind, GenerationStream.Valid;
    var stream := new GenerationStream(d);
    observations, cursors, reports := [], [d.baseline], [[]];
    NothingObserved(stream.cursor);
    for n := 0 to |views|
      invariant stream.Valid() && stream.descriptor == d && |observations| == n && |cursors| == |reports| == n + 1
      invariant cursors[0] == d.baseline && reports[0] == [] && cursors[n] == stream.cursor && reports[n] == stream.reports
      invariant SequencesRise(observations) && NamesDiffer(observations) && Behind(observations, stream.cursor, stream.reports)
      invariant forall i :: 0 <= i < n ==> Observes(views[i], d, cursors[i], reports[i], observations[i])
      invariant forall i :: 0 <= i < n ==> Moves(observations[i], cursors[i], reports[i], cursors[i + 1], reports[i + 1])
    {
      ghost var was, before := stream.cursor, stream.reports;
      var o := PollOnce(stream, views[n]);
      ObservesNext(observations, o, was, stream.cursor, before, stream.reports);
      observations, cursors, reports := observations + [o], cursors + [stream.cursor], reports + [stream.reports];
    }
  }

  lemma NothingObserved(cursor: nat)
    ensures SequencesRise([]) && NamesDiffer([]) && Behind([], cursor, [])
  {
  }
}
