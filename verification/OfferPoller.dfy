/** Polling one manifest URL and turning newer offers into candidates. */
module OfferPoller {
  import opened Wrappers
  import opened WasmOffer
  import opened WasmCandidate

  /** A delivered manifest. */
  datatype Fetched = Failed | Text(text: string)

  datatype OfferEvent = Accepted | Ignored | Conflicting | ManifestInvalid | FetchFailed

  function ContractOf(o: Offer): Contract {
    Contract(o.abi, o.entries, o.sha256)
  }

  /** The host's own contract, when it has one, fixes the ABI and the entries. */
  predicate HostAgrees(expected: Contract, o: Offer) {
    expected.abi == "" || (o.abi == expected.abi && o.entries == expected.entries)
  }

  /** The artifact path below the directory of the manifest. */
  function ArtifactUrl(manifestUrl: string, path: string): string {
    manifestUrl[..DirectoryEnd(manifestUrl, |manifestUrl|)] + path
  }

  function DirectoryEnd(url: string, n: nat): (r: nat)
    requires n <= |url|
    ensures r <= n && (r > 0 ==> url[r - 1] == '/') && forall i :: r <= i < n ==> url[i] != '/'
  {
    if n == 0 then 0 else if url[n - 1] == '/' then n else DirectoryEnd(url, n - 1)
  }

  /** The candidate is the one the offer asks for, given the host's contract. */
  ghost predicate AskedFor(expected: Contract, c: Candidate, o: Offer)
    reads c
  {
    if expected.abi == "" || (expected.abi == o.abi && expected.entries == o.entries) then
      c.contract.abi == o.abi && c.contract.entries == o.entries && c.contract.sha256 == o.sha256
    else
      c.status == Rejected && c.reason == WasmCandidate.Incompatible && c.contract == Contract("", [], "")
  }

  /** The manifest is a valid offer for the watched group. */
  predicate Offers(group: string, fetched: Fetched) {
    fetched.Text? && Parsed(fetched.text).Ok? && (group == "" || Parsed(fetched.text).value.group == group)
  }

  /** It has a greater sequence than the last accepted offer. */
  predicate Supersedes(group: string, last: Option<Offer>, fetched: Fetched) {
    Offers(group, fetched) && (last.Some? ==> last.value.sequence < Parsed(fetched.text).value.sequence)
  }

  /** It claims the sequence of the last accepted offer for another generation. */
  predicate Conflicts(group: string, last: Option<Offer>, fetched: Fetched) {
    Offers(group, fetched) && last.Some? && last.value.sequence == Parsed(fetched.text).value.sequence
    && last.value != Parsed(fetched.text).value
  }

  /** What a new candidate is before anything else happens to it: it loads the artifact below the manifest, unless the offer
      does not fit the host or its contract is unsound; and a loader that answers at once has decided it. */
  ghost predicate Asked(expected: Contract, url: string, o: Offer, immediate: Option<LoadResult>, c: Candidate?)
    reads c
  {
    c != null &&
    if expected.abi != "" && (expected.abi != o.abi || expected.entries != o.entries) then
      c.status == Rejected && c.reason == WasmCandidate.Incompatible
    else if !ContractOk(ArtifactUrl(url, o.artifact), ContractOf(o)) then c.status == Rejected && c.reason == InvalidContract
    else if immediate.None? then c.status == Loading
    else c.Decided(Judge(ContractOf(o), immediate.value))
  }

  /** Valid offers for the group, with strictly increasing sequences. */
  ghost predicate Rising(accepted: seq<Offer>, group: string) {
    && (forall i, j :: 0 <= i < j < |accepted| ==> accepted[i].sequence < accepted[j].sequence)
    && (forall i :: 0 <= i < |accepted| ==> WasmOffer.Valid(accepted[i]) && (group != "" ==> accepted[i].group == group))
  }

  lemma RisingMore(accepted: seq<Offer>, group: string, o: Offer)
    requires Rising(accepted, group) && WasmOffer.Valid(o) && (group != "" ==> o.group == group)
    requires accepted != [] ==> accepted[|accepted| - 1].sequence < o.sequence
    ensures Rising(accepted + [o], group)
  {
    hide WasmOffer.Valid;
  }

  class Poller {
    const url: string
    const group: string
    const expected: Contract
    var fetching: bool
    var last: Option<Offer>
    var pending: Candidate?

    /** Every accepted offer, and how many fetches are under way. */
    ghost var accepted: seq<Offer>
    ghost var outstanding: nat

    ghost predicate Valid()
      reads this, pending
    {
      && outstanding == (if fetching then 1 else 0)
      && Rising(accepted, group)
      && last == (if accepted == [] then None else Some(accepted[|accepted| - 1]))
      && (pending != null <==> last.Some?)
      && (pending != null ==> pending.Valid() && AskedFor(expected, pending, last.value))
    }

    constructor (url: string, group: string, expected: Contract)
      requires url != ""
      ensures Valid() && this.url == url && this.group == group && this.expected == expected
      ensures !fetching && accepted == [] && pending == null && last == None
    {
      this.url, this.group, this.expected := url, group, expected;
      fetching, last, pending, accepted, outstanding := false, None, null, [], 0;
    }

    /** Start a fetch, unless one is under way. */
    method Poll() returns (started: bool)
      requires Valid()
      modifies this`fetching, this`outstanding
      ensures Valid() && fetching && started == !old(fetching)
    {
      started := !fetching;
      if started {
        fetching, outstanding := true, outstanding + 1;
      }
    }

    /** The fetch completes. `immediate` is the loader's answer when it answers at once. */
    method Deliver(fetched: Fetched, immediate: Option<LoadResult>) returns (e: OfferEvent)
      requires Valid() && fetching
      modifies this
      ensures Valid() && !fetching && old(accepted) <= accepted
      ensures e == Accepted <==> accepted != old(accepted)
      ensures e == Accepted ==> fresh(pending) && |accepted| == |old(accepted)| + 1 && fetched.Text? && Parsed(fetched.text) == Ok(last.value)
      ensures e != Accepted ==> pending == old(pending) && last == old(last)
      ensures e == Accepted <==> Supersedes(group, old(last), fetched)
      ensures e == Conflicting <==> Conflicts(group, old(last), fetched)
      ensures e == Accepted ==> Asked(expected, url, last.value, immediate, pending)
    {
      fetching, outstanding := false, outstanding - 1;
      e := Handle(fetched, immediate);
    }

    method Handle(fetched: Fetched, immediate: Option<LoadResult>) returns (e: OfferEvent)
      requires Valid()
      modifies this`last, this`pending, this`accepted
      ensures Valid() && old(accepted) <= accepted
      ensures e == Accepted <==> accepted != old(accepted)
      ensures e == Accepted ==> fresh(pending) && |accepted| == |old(accepted)| + 1 && fetched.Text? && Parsed(fetched.text) == Ok(last.value)
      ensures e != Accepted ==> pending == old(pending) && last == old(last)
      ensures e == Accepted <==> Supersedes(group, old(last), fetched)
      ensures e == Conflicting <==> Conflicts(group, old(last), fetched)
      ensures e == Accepted ==> Asked(expected, url, last.value, immediate, pending)
    {
      hide Parsed, WasmOffer.Valid, Candidate.Valid, AskedFor, Asked, Rising;
      if fetched.Failed? {
        return FetchFailed;
      }
      var parsed := WasmOffer.Parse(fetched.text);
      if parsed.Error? {
        return ManifestInvalid;
      }
      var offer := parsed.value;
      ParsedValid(fetched.text);
      if group != "" && offer.group != group {
        return Ignored;
      }
      match Compare(offer, last) {
        case Stale =>
          return Ignored;
        case Duplicate =>
          return Ignored;
        case Conflict =>
          return Conflicting;
        case Supersede =>
      }
      var candidate := Prepare(offer, immediate);
      pending, last := candidate, Some(offer);
      RisingMore(accepted, group, offer);
      accepted := accepted + [offer];
      e := Accepted;
    }

    /** The candidate of an offer: refused when it does not fit the host, and otherwise loading. */
    method Prepare(offer: Offer, immediate: Option<LoadResult>) returns (candidate: Candidate)
      ensures fresh(candidate) && candidate.Valid() && AskedFor(expected, candidate, offer)
      ensures Asked(expected, url, offer, immediate, candidate)
    {
      if HostAgrees(expected, offer) {
        candidate := new Candidate.Load(ArtifactUrl(url, offer.artifact), ContractOf(offer));
        if immediate.Some? {
          candidate.Complete(immediate.value);
        }
      } else {
        candidate := new Candidate.Refused(WasmCandidate.Incompatible);
      }
    }
  }
}
