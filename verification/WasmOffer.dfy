/** The manifest of one browser generation. */
module WasmOffer {
  import opened Wrappers
  import opened Words
  import opened Decimals
  import opened Scanner
  import opened Wire
  import opened Tables

  const NAME := "nekomata-wasm"
  const VERSION: nat := 1

  datatype Offer = Offer(
    group: string, sequence: nat, generation: string, abi: string, artifact: string, sha256: string, entries: seq<string>)

  /** The first thing the validator objects to. */
  function OfferError(o: Offer): Option<WireError> {
    if !Identity(o.group) || !Component(o.generation) || !Identity(o.abi) || !KeyPath(o.artifact) || !Sha256(o.sha256) then Some(InvalidField)
    else if o.entries == [] then Some(MissingField)
    else NamesError(o.entries, |o.entries|, Component, DuplicateEntry)
  }

  predicate Valid(o: Offer) {
    && o.sequence <= MAX_64
    && Identity(o.group) && Component(o.generation) && Identity(o.abi) && KeyPath(o.artifact) && Sha256(o.sha256)
    && o.entries != [] && NamesValid(o.entries, Component)
  }

  lemma ValidatorExact(o: Offer)
    requires o.sequence <= MAX_64
    ensures OfferError(o).None? <==> Valid(o)
  {
    NamesErrorExact(o.entries, |o.entries|, Component, DuplicateEntry);
    assert o.entries[..|o.entries|] == o.entries;
  }

  // ---- parsing ----

  datatype Draft = Draft(
    group: Option<string>, sequence: Option<nat>, generation: Option<string>, abi: Option<string>,
    artifact: Option<(string, string)>, entries: seq<string>)

  const BLANK := Draft(None, None, None, None, None, [])

  function ReadDirective(d: Draft, directive: string, row: string): Result<Draft, WireError> {
    match directive
    case "group_id" =>
      var v := ReadOnce(d.group.Some?, row);
      if v.Ok? then Ok(d.(group := Some(v.value))) else Error(v.error)
    case "sequence" =>
      if d.sequence.Some? then Error(DuplicateField)
      else
        var v := ReadNumber(row, true);
        if v.Ok? then Ok(d.(sequence := Some(v.value))) else Error(v.error)
    case "generation_id" =>
      var v := ReadOnce(d.generation.Some?, row);
      if v.Error? then Error(v.error)
      else if Component(v.value) then Ok(d.(generation := Some(v.value)))
      else Error(InvalidField)
    case "abi_id" =>
      var v := ReadOnce(d.abi.Some?, row);
      if v.Ok? then Ok(d.(abi := Some(v.value))) else Error(v.error)
    case "artifact" => ReadArtifact(d, row)
    case "entry" =>
      var entries := ReadName(d.entries, row, Component, DuplicateEntry);
      if entries.Ok? then Ok(d.(entries := entries.value)) else Error(entries.error)
    case _ => Error(UnknownDirective)
  }

  function ReadArtifact(d: Draft, row: string): Result<Draft, WireError> {
    if d.artifact.Some? then Error(DuplicateField)
    else
      var f := ReadFields(row, 2);
      if f.Error? then Error(f.error)
      else if KeyPath(f.value[0]) && Sha256(f.value[1]) then Ok(d.(artifact := Some((f.value[0], f.value[1]))))
      else Error(InvalidField)
  }

  const DOCUMENT: Document<Draft> := Document(NAME, VERSION, BLANK, (d, directive, row) => ReadDirective(d, directive, row))

  predicate Complete(d: Draft) {
    d.group.Some? && d.sequence.Some? && d.generation.Some? && d.abi.Some? && d.artifact.Some? && d.entries != []
  }

  function Finished(d: Draft): Offer
    requires Complete(d)
  {
    Offer(d.group.value, d.sequence.value, d.generation.value, d.abi.value, d.artifact.value.0, d.artifact.value.1, d.entries)
  }

  function Finish(r: Result<Draft, WireError>): Result<Offer, WireError> {
    if r.Error? then Error(r.error)
    else if !Complete(r.value) then Error(MissingField)
    else
      var e := OfferError(Finished(r.value));
      if e.Some? then Error(e.value) else Ok(Finished(r.value))
  }

  function Parsed(text: string): Result<Offer, WireError> {
    Finish(ReadDocument(text, DOCUMENT))
  }

  method Parse(text: string) returns (r: Result<Offer, WireError>)
    ensures r == Parsed(text)
  {
    var draft := ReadLines(text, DOCUMENT);
    r := Finish(draft);
  }

  // ---- serializing ----

  function HeaderRows(o: Offer): seq<string> {
    ["group_id" + PrintFields([o.group]), "sequence" + (" " + Decimal(o.sequence)), "generation_id" + PrintFields([o.generation]),
     "abi_id" + PrintFields([o.abi]), "artifact" + PrintFields([o.artifact, o.sha256])]
  }

  function Rows(o: Offer): seq<string> {
    HeaderRows(o) + NameRows("entry", o.entries)
  }

  function Serialized(o: Offer): Result<string, WireError> {
    var e := OfferError(o);
    if e.Some? then Error(e.value) else Ok(Unlines([MagicLine(NAME, VERSION)] + Rows(o)))
  }

  // ---- the round trips ----

  function Header(o: Offer): Draft {
    Draft(Some(o.group), Some(o.sequence), Some(o.generation), Some(o.abi), Some((o.artifact, o.sha256)), [])
  }

  lemma HeaderReads(o: Offer)
    requires Valid(o)
    ensures ReadRows(HeaderRows(o), BLANK, DOCUMENT.step) == Ok(Header(o))
    ensures forall i :: 0 <= i < |HeaderRows(o)| ==> '\n' !in HeaderRows(o)[i]
  {
    hide ReadRow, ReadOnce, ReadNumber, PrintFields, Identity, ReadDirective, KeyPath;
    var step := DOCUMENT.step;
    var d1 := BLANK.(group := Some(o.group));
    var d2 := d1.(sequence := Some(o.sequence));
    var d3 := d2.(generation := Some(o.generation));
    var d4 := d3.(abi := Some(o.abi));
    IdentityRow("group_id", o.group, BLANK, step);
    NumberIsTail(o.sequence);
    RowReads("sequence", " " + Decimal(o.sequence), d1, step);
    NumberRoundTrip(o.sequence, true);
    IdentityRow("generation_id", o.generation, d2, step);
    IdentityRow("abi_id", o.abi, d3, step);
    HeaderDirectives(o, d1, d2, d3, d4);
    ArtifactReads(o, d4);
    ChainReads(HeaderRows(o), [BLANK, d1, d2, d3, d4, Header(o)], step);
  }

  lemma HeaderDirectives(o: Offer, d1: Draft, d2: Draft, d3: Draft, d4: Draft)
    requires Component(o.generation) && ReadNumber(" " + Decimal(o.sequence), true) == Ok(o.sequence)
    requires forall v :: v in {o.group, o.generation, o.abi} ==> ReadOnce(false, PrintFields([v])) == Ok(v)
    requires d1 == BLANK.(group := Some(o.group)) && d2 == d1.(sequence := Some(o.sequence))
    requires d3 == d2.(generation := Some(o.generation)) && d4 == d3.(abi := Some(o.abi))
    ensures ReadDirective(BLANK, "group_id", PrintFields([o.group])) == Ok(d1)
    ensures ReadDirective(d1, "sequence", " " + Decimal(o.sequence)) == Ok(d2)
    ensures ReadDirective(d2, "generation_id", PrintFields([o.generation])) == Ok(d3)
    ensures ReadDirective(d3, "abi_id", PrintFields([o.abi])) == Ok(d4)
  {
    hide ReadOnce, ReadNumber, PrintFields, PortablePath, ReadArtifact;
  }

  lemma ArtifactReads(o: Offer, d: Draft)
    requires Valid(o) && d.artifact.None?
    ensures var row := "artifact" + PrintFields([o.artifact, o.sha256]);
      ReadRow(row, d, DOCUMENT.step) == Ok(d.(artifact := Some((o.artifact, o.sha256)))) && '\n' !in row
  {
    hide ReadArtifact, PortableKey;
    var f := [o.artifact, o.sha256];
    assert !HasControl(o.sha256);
    FieldsAreTail(f);
    RowReads("artifact", PrintFields(f), d, DOCUMENT.step);
    FieldsRoundTrip(f);
    ArtifactAccepted(o, d, PrintFields(f));
  }

  lemma ArtifactAccepted(o: Offer, d: Draft, row: string)
    requires Valid(o) && d.artifact.None? && ReadFields(row, 2) == Ok([o.artifact, o.sha256])
    ensures ReadDirective(d, "artifact", row) == Ok(d.(artifact := Some((o.artifact, o.sha256))))
  {
    hide ReadFields, KeyPath, Sha256;
  }

  lemma EntriesRead(o: Offer, d: Draft)
    requires NamesValid(o.entries, Component) && d.entries == []
    ensures ReadRows(NameRows("entry", o.entries), d, DOCUMENT.step) == Ok(d.(entries := o.entries))
    ensures forall i :: 0 <= i < |o.entries| ==> '\n' !in NameRows("entry", o.entries)[i]
  {
    hide ReadRows, PrintFields, ReadName, PortableKey;
    var states := (i: nat) => d.(entries := if i <= |o.entries| then o.entries[..i] else []);
    forall i: nat | i < |o.entries|
      ensures DOCUMENT.step(states(i), "entry", PrintFields([o.entries[i]])) == Ok(states(i + 1))
    {
      ReadsName(o.entries, i, Component, DuplicateEntry);
      EntryDirective(states(i), PrintFields([o.entries[i]]));
    }
    NameRowsRead("entry", o.entries, |o.entries|, states, DOCUMENT.step);
    assert o.entries[..|o.entries|] == o.entries && o.entries[..0] == [];
    assert states(0) == d;
  }

  lemma EntryDirective(d: Draft, row: string)
    requires ReadName(d.entries, row, Component, DuplicateEntry).Ok?
    ensures ReadDirective(d, "entry", row) == Ok(d.(entries := ReadName(d.entries, row, Component, DuplicateEntry).value))
  {
  }

  /** Every valid offer survives printing and parsing. */
  lemma RoundTrip(o: Offer)
    requires Valid(o)
    ensures Serialized(o).Ok? && Parsed(Serialized(o).value) == Ok(o)
  {
    hide ReadRows, NameRows, HeaderRows, OfferError, MagicLine, Unlines, ReadDirective, ReadDocument, Identity, Component, KeyPath, NamesValid;
    ValidatorExact(o);
    HeaderReads(o);
    EntriesRead(o, Header(o));
    RowsAppend(HeaderRows(o), NameRows("entry", o.entries), BLANK, DOCUMENT.step);
    DocumentRoundTrip(Rows(o), DOCUMENT);
  }

  predicate DraftOk(d: Draft) {
    && (d.group.Some? ==> Identity(d.group.value))
    && (d.sequence.Some? ==> d.sequence.value <= MAX_64)
    && (d.generation.Some? ==> Component(d.generation.value))
    && (d.abi.Some? ==> Identity(d.abi.value))
    && (d.artifact.Some? ==> KeyPath(d.artifact.value.0) && Sha256(d.artifact.value.1))
    && NamesValid(d.entries, Component)
  }

  lemma DirectiveKeeps(d: Draft, directive: string, row: string)
    requires DraftOk(d)
    ensures var r := ReadDirective(d, directive, row); r.Ok? ==> DraftOk(r.value)
  {
    hide ReadOnce, ReadNumber, Component, DraftOk, ReadArtifact, ReadName;
    FieldKeeps(d, row);
    SpecialKeeps(d, row);
  }

  lemma FieldKeeps(d: Draft, row: string)
    requires DraftOk(d)
    ensures forall present: bool :: ReadOnce(present, row).Ok? ==>
              var v := ReadOnce(present, row).value;
              DraftOk(d.(group := Some(v))) && DraftOk(d.(abi := Some(v))) && (Component(v) ==> DraftOk(d.(generation := Some(v))))
    ensures ReadNumber(row, true).Ok? ==> DraftOk(d.(sequence := Some(ReadNumber(row, true).value)))
  {
    hide ReadOnce, ReadNumber, Identity, KeyPath, Component, Sha256, NamesValid;
  }

  lemma SpecialKeeps(d: Draft, row: string)
    requires DraftOk(d)
    ensures ReadArtifact(d, row).Ok? ==> DraftOk(ReadArtifact(d, row).value)
    ensures var entries := ReadName(d.entries, row, Component, DuplicateEntry); entries.Ok? ==> DraftOk(d.(entries := entries.value))
  {
    hide ReadFields, Identity, KeyPath, Component, Sha256, NamesValid, ReadName;
    ReadNameKeeps(d.entries, row, Component, DuplicateEntry);
  }

  lemma DraftsOk(text: string)
    ensures var r := ReadDocument(text, DOCUMENT); r.Ok? ==> DraftOk(r.value)
  {
    hide ReadRows, ReadDirective;
    var lines := Lines(text);
    if lines != [] {
      forall d, directive, row | DraftOk(d) && DOCUMENT.step(d, directive, row).Ok?
        ensures DraftOk(DOCUMENT.step(d, directive, row).value)
      {
        DirectiveKeeps(d, directive, row);
      }
      RowsKeep(lines[1..], BLANK, DOCUMENT.step, DraftOk);
    }
  }

  /** Everything the parser accepts is valid, and its closing validation never objects. */
  lemma ParsedValid(text: string)
    ensures Parsed(text).Ok? ==> Valid(Parsed(text).value)
    ensures var r := ReadDocument(text, DOCUMENT); r.Ok? && Complete(r.value) ==> Parsed(text) == Ok(Finished(r.value))
  {
    hide ReadDocument, OfferError;
    DraftsOk(text);
    var r := ReadDocument(text, DOCUMENT);
    if r.Ok? && Complete(r.value) {
      ValidatorExact(Finished(r.value));
    }
  }

  lemma ReprintStable(text: string)
    requires Parsed(text).Ok?
    ensures Serialized(Parsed(text).value).Ok? && Parsed(Serialized(Parsed(text).value).value) == Parsed(text)
  {
    hide Parsed, Serialized;
    ParsedValid(text);
    RoundTrip(Parsed(text).value);
  }

  // ---- what a text says, whatever the order of its rows ----

  predicate Known(directive: string) {
    directive in {"group_id", "sequence", "generation_id", "abi_id", "artifact", "entry"}
  }

  /** No row, or one with a path and a digest. */
  predicate SaysArtifact(tails: seq<string>, v: Option<(string, string)>) {
    match v
    case None => tails == []
    case Some(a) => |tails| == 1 && ReadFields(tails[0], 2) == Ok([a.0, a.1]) && KeyPath(a.0) && Sha256(a.1)
  }

  lemma ArtifactMore(tails: seq<string>, v: Option<(string, string)>, row: string)
    requires SaysArtifact(tails, v)
    ensures forall d: Draft :: d.artifact == v && ReadArtifact(d, row).Ok? ==> SaysArtifact(tails + [row], ReadArtifact(d, row).value.artifact)
  {
    hide ReadFields, PortablePath, Sha256;
    var f := ReadFields(row, 2);
    if f.Ok? {
      assert f.value == [f.value[0], f.value[1]];
    }
    assert tails == [] ==> (tails + [row])[0] == row;
  }

  lemma ArtifactLast(tails: seq<string>, row: string, v: Option<(string, string)>)
    requires SaysArtifact(tails + [row], v)
    ensures tails == [] && v.Some? && SaysArtifact(tails, None)
    ensures forall d: Draft :: d.artifact.None? ==> ReadArtifact(d, row) == Ok(d.(artifact := v))
  {
    hide ReadFields, PortablePath, Sha256;
    assert (tails + [row])[|tails|] == row;
  }

  /** The rows say just what the draft holds: each single field in one row or none, entries each in a row of their
      own, and nothing else. */
  predicate Says(items: seq<Item>, d: Draft) {
    && (forall i :: 0 <= i < |items| ==> Known(items[i].directive))
    && SaysOnce(Tails(items, "group_id"), d.group)
    && SaysOnce(Tails(items, "generation_id"), d.generation)
    && SaysOnce(Tails(items, "abi_id"), d.abi)
    && SaysNumber(Tails(items, "sequence"), d.sequence, true)
    && SaysArtifact(Tails(items, "artifact"), d.artifact)
    && SaysNames(Tails(items, "entry"), d.entries) && DraftOk(d)
  }

  /** The draft before its last row was read. */
  function Before(d: Draft, directive: string): Draft {
    match directive
    case "group_id" => d.(group := None)
    case "generation_id" => d.(generation := None)
    case "abi_id" => d.(abi := None)
    case "sequence" => d.(sequence := None)
    case "artifact" => d.(artifact := None)
    case _ => d.(entries := if d.entries == [] then [] else d.entries[..|d.entries| - 1])
  }

  lemma DirectivesDiffer()
    ensures "group_id" != "sequence" && "group_id" != "artifact" && "sequence" != "artifact"
  {
    assert "group_id"[0] != "sequence"[0] && "group_id"[0] != "artifact"[0] && "sequence"[0] != "artifact"[0];
  }

  lemma RowSays(front: seq<Item>, x: Item, d: Draft)
    requires Says(front, d) && ReadDirective(d, x.directive, x.tail).Ok?
    ensures Says(front + [x], ReadDirective(d, x.directive, x.tail).value)
  {
    hide ReadOnce, ReadNumber, ReadFields, ReadName, Identity, PortablePath, SaysOnce, SaysNumber, SaysNames, SaysArtifact, Tails, DraftOk;
    TailsMore(front, x);
    DirectivesDiffer();
    DirectiveKeeps(d, x.directive, x.tail);
    match x.directive
    case "group_id" => OnceMore(Tails(front, "group_id"), d.group, x.tail);
    case "generation_id" => OnceMore(Tails(front, "generation_id"), d.generation, x.tail);
    case "abi_id" => OnceMore(Tails(front, "abi_id"), d.abi, x.tail);
    case "sequence" => NumberMore(Tails(front, "sequence"), d.sequence, x.tail, true);
    case "artifact" => ArtifactMore(Tails(front, "artifact"), d.artifact, x.tail);
    case _ =>
      NamesOk(d);
      NamesMore(Tails(front, "entry"), d.entries, x.tail, Component, DuplicateEntry);
  }

  lemma NamesOk(d: Draft)
    requires DraftOk(d)
    ensures NamesValid(d.entries, Component)
  {
  }

  lemma LastRow(front: seq<Item>, x: Item, d: Draft)
    requires Says(front + [x], d)
    ensures Says(front, Before(d, x.directive)) && ReadDirective(Before(d, x.directive), x.directive, x.tail) == Ok(d)
  {
    hide ReadOnce, ReadNumber, ReadFields, ReadName, Identity, PortablePath, SaysOnce, SaysNumber, SaysNames, SaysArtifact, Tails, NamesValid;
    TailsMore(front, x);
    DirectivesDiffer();
    assert (front + [x])[|front|] == x && forall i :: 0 <= i < |front| ==> (front + [x])[i] == front[i];
    match x.directive
    case "group_id" => OnceLast(Tails(front, "group_id"), x.tail, d.group);
    case "generation_id" => OnceLast(Tails(front, "generation_id"), x.tail, d.generation);
    case "abi_id" => OnceLast(Tails(front, "abi_id"), x.tail, d.abi);
    case "sequence" => NumberLast(Tails(front, "sequence"), x.tail, d.sequence, true);
    case "artifact" => ArtifactLast(Tails(front, "artifact"), x.tail, d.artifact);
    case _ => NamesLess(Tails(front, "entry"), x.tail, d.entries, Component, DuplicateEntry);
  }

  lemma {:induction false} ItemsMean(items: seq<Item>, d: Draft)
    ensures Fold(items, BLANK, DOCUMENT.step) == Ok(d) <==> Says(items, d)
    decreases |items|
  {
    hide ReadDirective, Before, DraftOk;
    if items == [] {
      NothingSaid(d);
    } else {
      var n := |items| - 1;
      var front, x := items[..n], items[n];
      assert items == front + [x];
      var r := Fold(front, BLANK, DOCUMENT.step);
      if r.Ok? {
        ItemsMean(front, r.value);
        if ReadDirective(r.value, x.directive, x.tail).Ok? {
          RowSays(front, x, r.value);
        }
      }
      if Says(items, d) {
        LastRow(front, x, d);
        ItemsMean(front, Before(d, x.directive));
      }
    }
  }

  lemma NothingSaid(d: Draft)
    ensures Says([], d) <==> d == BLANK
  {
  }

  function DraftOf(o: Offer): Draft {
    Draft(Some(o.group), Some(o.sequence), Some(o.generation), Some(o.abi), Some((o.artifact, o.sha256)), o.entries)
  }

  /** Under the magic line, the rows of the text say just what the offer holds: each single field once, and the
      entry rows in their order. Blank lines and comments say nothing. */
  predicate Denotes(text: string, o: Offer) {
    var lines := Lines(text);
    lines != [] && InspectMagic(TrimReturn(lines[0]), NAME, VERSION) == NoIssue && o.entries != []
    && Says(Items(lines[1..]), DraftOf(o))
  }

  /** A text parses exactly when it says its offer, in whatever order of rows. */
  lemma ParsedExact(text: string, o: Offer)
    ensures Parsed(text) == Ok(o) <==> Denotes(text, o)
  {
    hide Says, OfferError, ReadDirective, ReadRows, Fold, InspectMagic;
    var lines := Lines(text);
    if lines != [] {
      RowsAreItems(lines[1..], BLANK, DOCUMENT.step);
      ItemsMean(Items(lines[1..]), DraftOf(o));
      ParsedValid(text);
      var r := ReadDocument(text, DOCUMENT);
      if r.Ok? && Complete(r.value) {
        assert r.value == DraftOf(Finished(r.value));
      }
      assert o.entries != [] ==> Finished(DraftOf(o)) == o;
    }
  }

  /** The single field of this directive is set. */
  predicate Holds(d: Draft, directive: string) {
    match directive
    case "group_id" => d.group.Some?
    case "generation_id" => d.generation.Some?
    case "abi_id" => d.abi.Some?
    case "sequence" => d.sequence.Some?
    case "artifact" => d.artifact.Some?
    case _ => false
  }

  /** A row with another directive is refused, and so is a single field that stands there a second time. */
  lemma RowRefused(d: Draft, directive: string, row: string)
    ensures !Known(directive) ==> ReadDirective(d, directive, row) == Error(UnknownDirective)
    ensures Holds(d, directive) ==> ReadDirective(d, directive, row) == Error(DuplicateField)
  {
    hide PortablePath, Identity, ReadFields, ReadNumber;
  }

  // ---- delivery order ----

  datatype Ordering = Supersede | Duplicate | Stale | Conflict

  /** How an incoming offer stands to the last one seen. */
  function Compare(incoming: Offer, last: Option<Offer>): Ordering {
    if last.None? || incoming.sequence > last.value.sequence then Supersede
    else if incoming.sequence < last.value.sequence then Stale
    else if incoming == last.value then Duplicate
    else Conflict
  }
}
