/** The description of a managed reload group that a build embeds in the application. */
module GroupDescriptor {
  import opened Wrappers
  import opened Words
  import opened Decimals
  import opened Scanner
  import opened Wire
  import opened Tables

  const NAME := "nekomata-group"
  const VERSION: nat := 1

  datatype Descriptor = Descriptor(
    group: string, members: seq<string>, publication: string, baseline: nat, compatibility: string, abi: string,
    root: Option<string>)

  /** The first thing the validator objects to. */
  function DescriptorError(d: Descriptor): Option<WireError> {
    if !Identity(d.group) || !Component(d.publication) || !Identity(d.compatibility) || !Identity(d.abi) then Some(InvalidField)
    else if d.root.Some? && !Identity(d.root.value) then Some(InvalidField)
    else if d.members == [] then Some(MissingField)
    else NamesError(d.members, |d.members|, KeyPath, DuplicateMember)
  }

  predicate Valid(d: Descriptor) {
    && d.baseline <= MAX_64
    && Identity(d.group) && Component(d.publication) && Identity(d.compatibility) && Identity(d.abi)
    && (d.root.Some? ==> Identity(d.root.value))
    && d.members != [] && NamesValid(d.members, KeyPath)
  }

  lemma ValidatorExact(d: Descriptor)
    requires d.baseline <= MAX_64
    ensures DescriptorError(d).None? <==> Valid(d)
  {
    NamesErrorExact(d.members, |d.members|, KeyPath, DuplicateMember);
    assert d.members[..|d.members|] == d.members;
  }

  // ---- parsing ----

  datatype Draft = Draft(
    group: Option<string>, publication: Option<string>, baseline: Option<nat>, compatibility: Option<string>,
    abi: Option<string>, root: Option<string>, members: seq<string>)

  const BLANK := Draft(None, None, None, None, None, None, [])

  /** The baseline sequence may have leading zeros. */
  function ReadDirective(d: Draft, directive: string, row: string): Result<Draft, WireError> {
    match directive
    case "group_id" =>
      var v := ReadOnce(d.group.Some?, row);
      if v.Ok? then Ok(d.(group := Some(v.value))) else Error(v.error)
    case "publication_key" => ReadPublication(d, row)
    case "baseline_sequence" => ReadBaseline(d, row)
    case "compatibility_id" =>
      var v := ReadOnce(d.compatibility.Some?, row);
      if v.Ok? then Ok(d.(compatibility := Some(v.value))) else Error(v.error)
    case "abi_id" =>
      var v := ReadOnce(d.abi.Some?, row);
      if v.Ok? then Ok(d.(abi := Some(v.value))) else Error(v.error)
    case "generation_root_hint" =>
      var v := ReadOnce(d.root.Some?, row);
      if v.Ok? then Ok(d.(root := Some(v.value))) else Error(v.error)
    case "member" => ReadMember(d, row)
    case _ => Error(UnknownDirective)
  }

  function ReadPublication(d: Draft, row: string): Result<Draft, WireError> {
    var v := ReadOnce(d.publication.Some?, row);
    if v.Error? then Error(v.error)
    else if Component(v.value) then Ok(d.(publication := Some(v.value)))
    else Error(InvalidField)
  }

  function ReadBaseline(d: Draft, row: string): Result<Draft, WireError> {
    if d.baseline.Some? then Error(DuplicateField)
    else
      var v := ReadNumber(row, false);
      if v.Ok? then Ok(d.(baseline := Some(v.value))) else Error(v.error)
  }

  function ReadMember(d: Draft, row: string): Result<Draft, WireError> {
    var members := ReadName(d.members, row, KeyPath, DuplicateMember);
    if members.Ok? then Ok(d.(members := members.value)) else Error(members.error)
  }

  const DOCUMENT: Document<Draft> := Document(NAME, VERSION, BLANK, (d, directive, row) => ReadDirective(d, directive, row))

  predicate Complete(d: Draft) {
    d.group.Some? && d.publication.Some? && d.baseline.Some? && d.compatibility.Some? && d.abi.Some? && d.members != []
  }

  function Finished(d: Draft): Descriptor
    requires Complete(d)
  {
    Descriptor(d.group.value, d.members, d.publication.value, d.baseline.value, d.compatibility.value, d.abi.value, d.root)
  }

  function Finish(r: Result<Draft, WireError>): Result<Descriptor, WireError> {
    if r.Error? then Error(r.error)
    else if !Complete(r.value) then Error(MissingField)
    else
      var e := DescriptorError(Finished(r.value));
      if e.Some? then Error(e.value) else Ok(Finished(r.value))
  }

  function Parsed(text: string): Result<Descriptor, WireError> {
    Finish(ReadDocument(text, DOCUMENT))
  }

  method Parse(text: string) returns (r: Result<Descriptor, WireError>)
    ensures r == Parsed(text)
  {
    var draft := ReadLines(text, DOCUMENT);
    r := Finish(draft);
  }

  // ---- serializing ----

  function HeaderRows(d: Descriptor): seq<string> {
    ["group_id" + PrintFields([d.group]), "publication_key" + PrintFields([d.publication]),
     "baseline_sequence" + (" " + Decimal(d.baseline)), "compatibility_id" + PrintFields([d.compatibility]),
     "abi_id" + PrintFields([d.abi])]
  }

  function RootRows(d: Descriptor): seq<string> {
    if d.root.Some? then ["generation_root_hint" + PrintFields([d.root.value])] else []
  }

  function Rows(d: Descriptor): seq<string> {
    HeaderRows(d) + (RootRows(d) + NameRows("member", d.members))
  }

  function Serialized(d: Descriptor): Result<string, WireError> {
    var e := DescriptorError(d);
    if e.Some? then Error(e.value) else Ok(Unlines([MagicLine(NAME, VERSION)] + Rows(d)))
  }

  // ---- the round trips ----

  function Header(d: Descriptor): Draft {
    Draft(Some(d.group), Some(d.publication), Some(d.baseline), Some(d.compatibility), Some(d.abi), None, [])
  }

  lemma DirectivesAre()
    ensures IsDirective("group_id") && IsDirective("publication_key") && IsDirective("baseline_sequence")
    ensures IsDirective("compatibility_id") && IsDirective("abi_id")
  {
  }

  lemma HeaderReads(d: Descriptor)
    requires Valid(d)
    ensures ReadRows(HeaderRows(d), BLANK, DOCUMENT.step) == Ok(Header(d))
    ensures forall i :: 0 <= i < |HeaderRows(d)| ==> '\n' !in HeaderRows(d)[i]
  {
    hide ReadRow, ReadRows, ReadOnce, ReadNumber, PrintFields, Identity, ReadDirective, IsDirective;
    DirectivesAre();
    var step := DOCUMENT.step;
    var d1 := BLANK.(group := Some(d.group));
    var d2 := d1.(publication := Some(d.publication));
    var d3 := d2.(baseline := Some(d.baseline));
    var d4 := d3.(compatibility := Some(d.compatibility));
    IdentityRow("group_id", d.group, BLANK, step);
    IdentityRow("publication_key", d.publication, d1, step);
    NumberIsTail(d.baseline);
    RowReads("baseline_sequence", " " + Decimal(d.baseline), d2, step);
    NumberRoundTrip(d.baseline, false);
    IdentityRow("compatibility_id", d.compatibility, d3, step);
    IdentityRow("abi_id", d.abi, d4, step);
    HeaderDirectives(d, d1, d2, d3, d4);
    ChainReads(HeaderRows(d), [BLANK, d1, d2, d3, d4, Header(d)], step);
  }

  lemma HeaderDirectives(d: Descriptor, d1: Draft, d2: Draft, d3: Draft, d4: Draft)
    requires Component(d.publication) && ReadNumber(" " + Decimal(d.baseline), false) == Ok(d.baseline)
    requires forall v :: v in {d.group, d.publication, d.compatibility, d.abi} ==> ReadOnce(false, PrintFields([v])) == Ok(v)
    requires d1 == BLANK.(group := Some(d.group)) && d2 == d1.(publication := Some(d.publication))
    requires d3 == d2.(baseline := Some(d.baseline)) && d4 == d3.(compatibility := Some(d.compatibility))
    ensures ReadDirective(BLANK, "group_id", PrintFields([d.group])) == Ok(d1)
    ensures ReadDirective(d1, "publication_key", PrintFields([d.publication])) == Ok(d2)
    ensures ReadDirective(d2, "baseline_sequence", " " + Decimal(d.baseline)) == Ok(d3)
    ensures ReadDirective(d3, "compatibility_id", PrintFields([d.compatibility])) == Ok(d4)
    ensures ReadDirective(d4, "abi_id", PrintFields([d.abi])) == Ok(Header(d))
  {
    hide ReadOnce, ReadNumber, PrintFields, PortablePath;
  }

  lemma RootReads(d: Descriptor, draft: Draft)
    requires Valid(d) && draft.root.None?
    ensures ReadRows(RootRows(d), draft, DOCUMENT.step) == Ok(draft.(root := d.root))
    ensures forall i :: 0 <= i < |RootRows(d)| ==> '\n' !in RootRows(d)[i]
  {
    hide ReadRow, ReadOnce, PrintFields, Identity;
    if d.root.Some? {
      IdentityRow("generation_root_hint", d.root.value, draft, DOCUMENT.step);
      assert RootRows(d)[1..] == [];
    }
  }

  lemma MembersRead(d: Descriptor, draft: Draft)
    requires NamesValid(d.members, KeyPath) && draft.members == []
    ensures ReadRows(NameRows("member", d.members), draft, DOCUMENT.step) == Ok(draft.(members := d.members))
    ensures forall i :: 0 <= i < |d.members| ==> '\n' !in NameRows("member", d.members)[i]
  {
    hide ReadRows, PrintFields, ReadName, PortableKey;
    var states := (i: nat) => draft.(members := if i <= |d.members| then d.members[..i] else []);
    forall i: nat | i < |d.members|
      ensures DOCUMENT.step(states(i), "member", PrintFields([d.members[i]])) == Ok(states(i + 1))
    {
      ReadsName(d.members, i, KeyPath, DuplicateMember);
      MemberDirective(states(i), PrintFields([d.members[i]]));
    }
    NameRowsRead("member", d.members, |d.members|, states, DOCUMENT.step);
    assert d.members[..|d.members|] == d.members && d.members[..0] == [];
    assert states(0) == draft;
  }

  lemma MemberDirective(d: Draft, row: string)
    requires ReadName(d.members, row, KeyPath, DuplicateMember).Ok?
    ensures ReadDirective(d, "member", row) == Ok(d.(members := ReadName(d.members, row, KeyPath, DuplicateMember).value))
  {
  }

  /** Every valid descriptor survives printing and parsing. */
  lemma RoundTrip(d: Descriptor)
    requires Valid(d)
    ensures Serialized(d).Ok? && Parsed(Serialized(d).value) == Ok(d)
  {
    hide ReadRows, NameRows, HeaderRows, RootRows, DescriptorError, MagicLine, Unlines, ReadDirective, ReadDocument, Identity, Component, NamesValid;
    ValidatorExact(d);
    HeaderReads(d);
    RootReads(d, Header(d));
    var rooted := Header(d).(root := d.root);
    MembersRead(d, rooted);
    RowsAppend(HeaderRows(d), RootRows(d) + NameRows("member", d.members), BLANK, DOCUMENT.step);
    RowsAppend(RootRows(d), NameRows("member", d.members), Header(d), DOCUMENT.step);
    DocumentRoundTrip(Rows(d), DOCUMENT);
  }

  predicate DraftOk(d: Draft) {
    && (d.group.Some? ==> Identity(d.group.value))
    && (d.publication.Some? ==> Component(d.publication.value))
    && (d.baseline.Some? ==> d.baseline.value <= MAX_64)
    && (d.compatibility.Some? ==> Identity(d.compatibility.value))
    && (d.abi.Some? ==> Identity(d.abi.value))
    && (d.root.Some? ==> Identity(d.root.value))
    && NamesValid(d.members, KeyPath)
  }

  lemma DirectiveKeeps(d: Draft, directive: string, row: string)
    requires DraftOk(d)
    ensures var r := ReadDirective(d, directive, row); r.Ok? ==> DraftOk(r.value)
  {
    hide ReadOnce, DraftOk, ReadPublication, ReadBaseline, ReadMember;
    SpecialKeeps(d, row);
    FieldKeeps(d, row);
  }

  lemma FieldKeeps(d: Draft, row: string)
    requires DraftOk(d)
    ensures forall present: bool :: ReadOnce(present, row).Ok? ==>
              var v := ReadOnce(present, row).value;
              DraftOk(d.(group := Some(v))) && DraftOk(d.(compatibility := Some(v))) && DraftOk(d.(abi := Some(v)))
              && DraftOk(d.(root := Some(v)))
  {
    hide ReadOnce, Identity, Component, NamesValid, KeyPath;
  }

  lemma SpecialKeeps(d: Draft, row: string)
    requires DraftOk(d)
    ensures ReadPublication(d, row).Ok? ==> DraftOk(ReadPublication(d, row).value)
    ensures ReadBaseline(d, row).Ok? ==> DraftOk(ReadBaseline(d, row).value)
    ensures ReadMember(d, row).Ok? ==> DraftOk(ReadMember(d, row).value)
  {
    hide ReadFields, ReadOnce, ReadNumber, Identity, Component, NamesValid, ReadName, KeyPath;
    ReadNameKeeps(d.members, row, KeyPath, DuplicateMember);
  }

  lemma DraftsOk(text: string)
    ensures var r := ReadDocument(text, DOCUMENT); r.Ok? ==> DraftOk(r.value)
  {
    hide ReadRows, ReadDirective;
    var lines := Lines(text);
    if lines != [] {
      forall d, directive, row | DraftOk(d) && DOCUMENT.step(d, directive, row).Ok?
        ensures DraftOk(DOCUMENT.step(d, directive, row).value)
      {
        DirectiveKeeps(d, directive, row);
      }
      RowsKeep(lines[1..], BLANK, DOCUMENT.step, DraftOk);
    }
  }

  /** Everything the parser accepts is valid, and its closing validation never objects. */
  lemma ParsedValid(text: string)
    ensures Parsed(text).Ok? ==> Valid(Parsed(text).value)
    ensures var r := ReadDocument(text, DOCUMENT); r.Ok? && Complete(r.value) ==> Parsed(text) == Ok(Finished(r.value))
  {
    hide ReadDocument, DescriptorError;
    DraftsOk(text);
    var r := ReadDocument(text, DOCUMENT);
    if r.Ok? && Complete(r.value) {
      ValidatorExact(Finished(r.value));
    }
  }

  lemma ReprintStable(text: string)
    requires Parsed(text).Ok?
    ensures Serialized(Parsed(text).value).Ok? && Parsed(Serialized(Parsed(text).value).value) == Parsed(text)
  {
    hide Parsed, Serialized;
    ParsedValid(text);
    RoundTrip(Parsed(text).value);
  }

  // ---- what a text says, whatever the order of its rows ----

  predicate Known(directive: string) {
    directive in {"group_id", "publication_key", "baseline_sequence", "compatibility_id", "abi_id", "generation_root_hint", "member"}
  }

  /** The rows say just what the draft holds: each single field in one row or none, members each in a row of their
      own, and nothing else. */
  predicate Says(items: seq<Item>, d: Draft) {
    && (forall i :: 0 <= i < |items| ==> Known(items[i].directive))
    && SaysOnce(Tails(items, "group_id"), d.group)
    && SaysOnce(Tails(items, "publication_key"), d.publication)
    && SaysOnce(Tails(items, "compatibility_id"), d.compatibility)
    && SaysOnce(Tails(items, "abi_id"), d.abi)
    && SaysOnce(Tails(items, "generation_root_hint"), d.root)
    && SaysNumber(Tails(items, "baseline_sequence"), d.baseline, false)
    && SaysNames(Tails(items, "member"), d.members) && DraftOk(d)
  }

  /** The draft before its last row was read. */
  function Before(d: Draft, directive: string): Draft {
    match directive
    case "group_id" => d.(group := None)
    case "publication_key" => d.(publication := None)
    case "compatibility_id" => d.(compatibility := None)
    case "abi_id" => d.(abi := None)
    case "generation_root_hint" => d.(root := None)
    case "baseline_sequence" => d.(baseline := None)
    case _ => d.(members := if d.members == [] then [] else d.members[..|d.members| - 1])
  }

  lemma DirectivesDiffer()
    ensures "abi_id" != "member"
  {
    assert "abi_id"[0] != "member"[0];
  }

  lemma RowSays(front: seq<Item>, x: Item, d: Draft)
    requires Says(front, d) && ReadDirective(d, x.directive, x.tail).Ok?
    ensures Says(front + [x], ReadDirective(d, x.directive, x.tail).value)
  {
    hide ReadOnce, ReadNumber, ReadFields, ReadName, Identity, PortablePath, SaysOnce, SaysNumber, SaysNames, Tails, DraftOk;
    TailsMore(front, x);
    DirectivesDiffer();
    DirectiveKeeps(d, x.directive, x.tail);
    match x.directive
    case "group_id" => OnceMore(Tails(front, "group_id"), d.group, x.tail);
    case "publication_key" => OnceMore(Tails(front, "publication_key"), d.publication, x.tail);
    case "compatibility_id" => OnceMore(Tails(front, "compatibility_id"), d.compatibility, x.tail);
    case "abi_id" => OnceMore(Tails(front, "abi_id"), d.abi, x.tail);
    case "generation_root_hint" => OnceMore(Tails(front, "generation_root_hint"), d.root, x.tail);
    case "baseline_sequence" => NumberMore(Tails(front, "baseline_sequence"), d.baseline, x.tail, false);
    case _ =>
      NamesOk(d);
      NamesMore(Tails(front, "member"), d.members, x.tail, KeyPath, DuplicateMember);
  }

  lemma NamesOk(d: Draft)
    requires DraftOk(d)
    ensures NamesValid(d.members, KeyPath)
  {
  }

  lemma LastRow(front: seq<Item>, x: Item, d: Draft)
    requires Says(front + [x], d)
    ensures Says(front, Before(d, x.directive)) && ReadDirective(Before(d, x.directive), x.directive, x.tail) == Ok(d)
  {
    hide ReadOnce, ReadNumber, ReadFields, ReadName, Identity, PortablePath, SaysOnce, SaysNumber, SaysNames, Tails, NamesValid;
    TailsMore(front, x);
    DirectivesDiffer();
    assert (front + [x])[|front|] == x && forall i :: 0 <= i < |front| ==> (front + [x])[i] == front[i];
    match x.directive
    case "group_id" => OnceLast(Tails(front, "group_id"), x.tail, d.group);
    case "publication_key" => OnceLast(Tails(front, "publication_key"), x.tail, d.publication);
    case "compatibility_id" => OnceLast(Tails(front, "compatibility_id"), x.tail, d.compatibility);
    case "abi_id" => OnceLast(Tails(front, "abi_id"), x.tail, d.abi);
    case "generation_root_hint" => OnceLast(Tails(front, "generation_root_hint"), x.tail, d.root);
    case "baseline_sequence" => NumberLast(Tails(front, "baseline_sequence"), x.tail, d.baseline, false);
    case _ => NamesLess(Tails(front, "member"), x.tail, d.members, KeyPath, DuplicateMember);
  }

  lemma {:induction false} ItemsMean(items: seq<Item>, d: Draft)
    ensures Fold(items, BLANK, DOCUMENT.step) == Ok(d) <==> Says(items, d)
    decreases |items|
  {
    hide ReadDirective, Before, DraftOk;
    if items == [] {
      NothingSaid(d);
    } else {
      var n := |items| - 1;
      var front, x := items[..n], items[n];
      assert items == front + [x];
      var r := Fold(front, BLANK, DOCUMENT.step);
      if r.Ok? {
        ItemsMean(front, r.value);
        if ReadDirective(r.value, x.directive, x.tail).Ok? {
          RowSays(front, x, r.value);
        }
      }
      if Says(items, d) {
        LastRow(front, x, d);
        ItemsMean(front, Before(d, x.directive));
      }
    }
  }

  lemma NothingSaid(d: Draft)
    ensures Says([], d) <==> d == BLANK
  {
  }

  function DraftOf(o: Descriptor): Draft {
    Draft(Some(o.group), Some(o.publication), Some(o.baseline), Some(o.compatibility), Some(o.abi), o.root, o.members)
  }

  /** Under the magic line, the rows of the text say just what the descriptor holds: each single field once, and the
      member rows in their order. Blank lines and comments say nothing. */
  predicate Denotes(text: string, o: Descriptor) {
    var lines := Lines(text);
    lines != [] && InspectMagic(TrimReturn(lines[0]), NAME, VERSION) == NoIssue && o.members != []
    && Says(Items(lines[1..]), DraftOf(o))
  }

  /** A text parses exactly when it says its descriptor, in whatever order of rows. */
  lemma ParsedExact(text: string, o: Descriptor)
    ensures Parsed(text) == Ok(o) <==> Denotes(text, o)
  {
    hide Says, DescriptorError, ReadDirective, ReadRows, Fold, InspectMagic;
    var lines := Lines(text);
    if lines != [] {
      RowsAreItems(lines[1..], BLANK, DOCUMENT.step);
      ItemsMean(Items(lines[1..]), DraftOf(o));
      ParsedValid(text);
      var r := ReadDocument(text, DOCUMENT);
      if r.Ok? && Complete(r.value) {
        assert r.value == DraftOf(Finished(r.value));
      }
      assert o.members != [] ==> Finished(DraftOf(o)) == o;
    }
  }

  /** The single field of this directive is set. */
  predicate Holds(d: Draft, directive: string) {
    match directive
    case "group_id" => d.group.Some?
    case "publication_key" => d.publication.Some?
    case "compatibility_id" => d.compatibility.Some?
    case "abi_id" => d.abi.Some?
    case "generation_root_hint" => d.root.Some?
    case "baseline_sequence" => d.baseline.Some?
    case _ => false
  }

  /** A row with another directive is refused, and so is a single field that stands there a second time. */
  lemma RowRefused(d: Draft, directive: string, row: string)
    ensures !Known(directive) ==> ReadDirective(d, directive, row) == Error(UnknownDirective)
    ensures Holds(d, directive) ==> ReadDirective(d, directive, row) == Error(DuplicateField)
  {
    hide PortablePath, Identity, ReadFields, ReadNumber;
  }
}
