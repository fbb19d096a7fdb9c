/** The manifest of one managed generation, and the name of the marker that announces it. */
module GenerationOffer {
  import opened Wrappers
  import opened Words
  import opened Decimals
  import opened Scanner
  import opened Wire
  import opened Tables
  import GroupDescriptor

  const NAME := "nekomata-generation"
  const VERSION: nat := 2

  datatype Member = Member(member: string, objectPath: string, sha256: string, source: string, build: string)

  datatype Offer = Offer(
    group: string, sequence: nat, generation: string, compatibility: string, abi: string,
    members: seq<Member>, inputs: seq<string>)

  // ---- validation ----

  predicate MemberOk(m: Member) {
    && PortablePath(m.member, true)
    && PortablePath(m.objectPath, true) && "objects/" <= m.objectPath && |m.objectPath| != 8
    && Sha256(m.sha256)
    && Identity(m.source)
    && !HasControl(m.build)
  }

  /** A member names itself and its object below `objects/` by portable paths, and has a digest, a source, and a printable build. */
  lemma MemberMeans(m: Member)
    ensures MemberOk(m)
       <==> PortablePath(m.member, true) && PortablePath(m.objectPath, true) && |m.objectPath| > 8 && m.objectPath[..8] == "objects/"
            && Sha256(m.sha256) && m.source != "" && !HasControl(m.source) && !HasControl(m.build)
  {
    assert |m.objectPath| >= 8 && m.objectPath[..8] == "objects/" <==> "objects/" <= m.objectPath;
  }

  /** What can be wrong with member `n`, given the members before it. */
  function MemberError(members: seq<Member>, m: Member): Option<WireError> {
    if !MemberOk(m) then Some(InvalidField)
    else if exists i :: 0 <= i < |members| && members[i].member == m.member then Some(DuplicateMember)
    else if exists i :: 0 <= i < |members| && members[i].objectPath == m.objectPath then Some(DuplicateObjectPath)
    else None
  }

  function MembersError(members: seq<Member>, n: nat): Option<WireError>
    requires n <= |members|
  {
    if n == 0 then None
    else
      var e := MembersError(members, n - 1);
      if e.Some? then e else MemberError(members[..n - 1], members[n - 1])
  }

  /** The first thing the validator objects to. */
  function OfferError(o: Offer): Option<WireError> {
    if !Identity(o.group) || !PortablePath(o.generation, false) || !Identity(o.compatibility) || !Identity(o.abi) then Some(InvalidField)
    else if o.members == [] then Some(MissingField)
    else if MembersError(o.members, |o.members|).Some? then MembersError(o.members, |o.members|)
    else NamesError(o.inputs, |o.inputs|, Identity, DuplicateChangedInput)
  }

  /** A manifest that may be published: every field well formed, members and object paths named once. */
  predicate Valid(o: Offer) {
    && o.sequence <= MAX_64
    && Identity(o.group) && PortablePath(o.generation, false) && Identity(o.compatibility) && Identity(o.abi)
    && o.members != [] && MembersValid(o.members) && NamesValid(o.inputs, Identity)
  }

  predicate MembersValid(members: seq<Member>) {
    && (forall i :: 0 <= i < |members| ==> MemberOk(members[i]))
    && (forall i, j :: 0 <= i < j < |members| ==> members[i].member != members[j].member)
    && (forall i, j :: 0 <= i < j < |members| ==> members[i].objectPath != members[j].objectPath)
  }

  /** The validator objects to exactly the invalid manifests. */
  lemma ValidatorExact(o: Offer)
    requires o.sequence <= MAX_64
    ensures OfferError(o).None? <==> Valid(o)
  {
    MembersErrorExact(o.members, |o.members|);
    NamesErrorExact(o.inputs, |o.inputs|, Identity, DuplicateChangedInput);
    assert o.members[..|o.members|] == o.members && o.inputs[..|o.inputs|] == o.inputs;
  }

  lemma {:induction false} MembersErrorExact(members: seq<Member>, n: nat)
    requires n <= |members|
    ensures MembersError(members, n).None? <==> MembersValid(members[..n])
  {
    if n > 0 {
      MembersErrorExact(members, n - 1);
      assert members[..n] == members[..n - 1] + [members[n - 1]];
      MemberErrorExact(members[..n - 1], members[n - 1]);
    }
  }

  lemma MemberErrorExact(members: seq<Member>, m: Member)
    ensures MembersValid(members + [m]) <==> MembersValid(members) && MemberError(members, m).None?
  {
    hide MemberOk;
    var all := members + [m];
    assert all[|members|] == m && forall i :: 0 <= i < |members| ==> all[i] == members[i];
  }

  // ---- parsing ----

  /** What the rows read so far have set. */
  datatype Draft = Draft(
    group: Option<string>, sequence: Option<nat>, generation: Option<string>, compatibility: Option<string>, abi: Option<string>,
    members: seq<Member>, inputs: seq<string>)

  const BLANK := Draft(None, None, None, None, None, [], [])

  function ReadDirective(d: Draft, directive: string, row: string): Result<Draft, WireError> {
    match directive
    case "group_id" =>
      var v := ReadOnce(d.group.Some?, row);
      if v.Ok? then Ok(d.(group := Some(v.value))) else Error(v.error)
    case "sequence" =>
      if d.sequence.Some? then Error(DuplicateField)
      else
        var v := ReadNumber(row, true);
        if v.Ok? then Ok(d.(sequence := Some(v.value))) else Error(v.error)
    case "generation_id" =>
      var v := ReadOnce(d.generation.Some?, row);
      if v.Error? then Error(v.error)
      else if PortablePath(v.value, false) then Ok(d.(generation := Some(v.value)))
      else Error(InvalidField)
    case "compatibility_id" =>
      var v := ReadOnce(d.compatibility.Some?, row);
      if v.Ok? then Ok(d.(compatibility := Some(v.value))) else Error(v.error)
    case "abi_id" =>
      var v := ReadOnce(d.abi.Some?, row);
      if v.Ok? then Ok(d.(abi := Some(v.value))) else Error(v.error)
    case "member" => ReadMember(d, row)
    case "changed_input" =>
      var inputs := ReadName(d.inputs, row, Identity, DuplicateChangedInput);
      if inputs.Ok? then Ok(d.(inputs := inputs.value)) else Error(inputs.error)
    case _ => Error(UnknownDirective)
  }

  function ReadMember(d: Draft, row: string): Result<Draft, WireError> {
    var f := ReadFields(row, 5);
    if f.Error? then Error(f.error)
    else
      var m := Member(f.value[0], f.value[1], f.value[2], f.value[3], f.value[4]);
      var e := MemberError(d.members, m);
      if e.Some? then Error(e.value) else Ok(d.(members := d.members + [m]))
  }

  const DOCUMENT: Document<Draft> := Document(NAME, VERSION, BLANK, (d, directive, row) => ReadDirective(d, directive, row))

  predicate Complete(d: Draft) {
    d.group.Some? && d.sequence.Some? && d.generation.Some? && d.compatibility.Some? && d.abi.Some? && d.members != []
  }

  function Finished(d: Draft): Offer
    requires Complete(d)
  {
    Offer(d.group.value, d.sequence.value, d.generation.value, d.compatibility.value, d.abi.value, d.members, d.inputs)
  }

  function Finish(r: Result<Draft, WireError>): Result<Offer, WireError> {
    if r.Error? then Error(r.error)
    else if !Complete(r.value) then Error(MissingField)
    else
      var e := OfferError(Finished(r.value));
      if e.Some? then Error(e.value) else Ok(Finished(r.value))
  }

  function Parsed(text: string): Result<Offer, WireError> {
    Finish(ReadDocument(text, DOCUMENT))
  }

  method Parse(text: string) returns (r: Result<Offer, WireError>)
    ensures r == Parsed(text)
  {
    var draft := ReadLines(text, DOCUMENT);
    r := Finish(draft);
  }

  // ---- serializing ----

  function MemberFields(m: Member): seq<string> {
    [m.member, m.objectPath, m.sha256, m.source, m.build]
  }

  function MemberRows(members: seq<Member>): (r: seq<string>)
    ensures |r| == |members| && forall i :: 0 <= i < |r| ==> r[i] == "member" + PrintFields(MemberFields(members[i]))
  {
    seq(|members|, i requires 0 <= i < |members| => "member" + PrintFields(MemberFields(members[i])))
  }

  function HeaderRows(o: Offer): seq<string> {
    ["group_id" + PrintFields([o.group]), "sequence" + (" " + Decimal(o.sequence)), "generation_id" + PrintFields([o.generation]),
     "compatibility_id" + PrintFields([o.compatibility]), "abi_id" + PrintFields([o.abi])]
  }

  function Rows(o: Offer): seq<string> {
    HeaderRows(o) + (MemberRows(o.members) + NameRows("changed_input", o.inputs))
  }

  function Serialized(o: Offer): Result<string, WireError> {
    var e := OfferError(o);
    if e.Some? then Error(e.value) else Ok(Unlines([MagicLine(NAME, VERSION)] + Rows(o)))
  }

  // ---- the round trips ----

  function Header(o: Offer): Draft {
    Draft(Some(o.group), Some(o.sequence), Some(o.generation), Some(o.compatibility), Some(o.abi), [], [])
  }

  lemma DirectivesAre()
    ensures IsDirective("group_id") && IsDirective("sequence") && IsDirective("generation_id")
    ensures IsDirective("compatibility_id") && IsDirective("abi_id")
  {
  }

  lemma HeaderReads(o: Offer)
    requires Valid(o)
    ensures ReadRows(HeaderRows(o), BLANK, DOCUMENT.step) == Ok(Header(o))
    ensures forall i :: 0 <= i < |HeaderRows(o)| ==> '\n' !in HeaderRows(o)[i]
  {
    hide ReadRow, ReadRows, ReadOnce, ReadNumber, PrintFields, Identity, ReadDirective, IsDirective;
    DirectivesAre();
    var step := DOCUMENT.step;
    var d1 := BLANK.(group := Some(o.group));
    var d2 := d1.(sequence := Some(o.sequence));
    var d3 := d2.(generation := Some(o.generation));
    var d4 := d3.(compatibility := Some(o.compatibility));
    IdentityRow("group_id", o.group, BLANK, step);
    NumberIsTail(o.sequence);
    RowReads("sequence", " " + Decimal(o.sequence), d1, step);
    NumberRoundTrip(o.sequence, true);
    IdentityRow("generation_id", o.generation, d2, step);
    IdentityRow("compatibility_id", o.compatibility, d3, step);
    IdentityRow("abi_id", o.abi, d4, step);
    HeaderDirectives(o, d1, d2, d3, d4);
    ChainReads(HeaderRows(o), [BLANK, d1, d2, d3, d4, Header(o)], step);
  }

  lemma HeaderDirectives(o: Offer, d1: Draft, d2: Draft, d3: Draft, d4: Draft)
    requires PortablePath(o.generation, false) && ReadNumber(" " + Decimal(o.sequence), true) == Ok(o.sequence)
    requires forall v :: v in {o.group, o.generation, o.compatibility, o.abi} ==> ReadOnce(false, PrintFields([v])) == Ok(v)
    requires d1 == BLANK.(group := Some(o.group)) && d2 == d1.(sequence := Some(o.sequence))
    requires d3 == d2.(generation := Some(o.generation)) && d4 == d3.(compatibility := Some(o.compatibility))
    ensures ReadDirective(BLANK, "group_id", PrintFields([o.group])) == Ok(d1)
    ensures ReadDirective(d1, "sequence", " " + Decimal(o.sequence)) == Ok(d2)
    ensures ReadDirective(d2, "generation_id", PrintFields([o.generation])) == Ok(d3)
    ensures ReadDirective(d3, "compatibility_id", PrintFields([o.compatibility])) == Ok(d4)
    ensures ReadDirective(d4, "abi_id", PrintFields([o.abi])) == Ok(Header(o))
  {
    hide ReadOnce, ReadNumber, PrintFields, PortablePath;
  }

  lemma MembersRead(o: Offer)
    requires Valid(o)
    ensures ReadRows(MemberRows(o.members), Header(o), DOCUMENT.step) == Ok(Header(o).(members := o.members))
    ensures forall i :: 0 <= i < |o.members| ==> '\n' !in MemberRows(o.members)[i]
  {
    hide ReadRow, PrintFields, Valid;
    var states := seq(|o.members| + 1, i requires 0 <= i <= |o.members| => Header(o).(members := o.members[..i]));
    forall i | 0 <= i < |o.members|
      ensures ReadRow(MemberRows(o.members)[i], states[i], DOCUMENT.step) == Ok(states[i + 1]) && '\n' !in MemberRows(o.members)[i]
    {
      MemberRow(o, i, states[i]);
      assert o.members[..i + 1] == o.members[..i] + [o.members[i]];
    }
    ChainReads(MemberRows(o.members), states, DOCUMENT.step);
    assert o.members[..0] == [] && o.members[..|o.members|] == o.members;
  }

  lemma MemberRow(o: Offer, n: nat, d: Draft)
    requires Valid(o) && n < |o.members| && d.members == o.members[..n]
    ensures var row := "member" + PrintFields(MemberFields(o.members[n]));
      ReadRow(row, d, DOCUMENT.step) == Ok(d.(members := o.members[..n] + [o.members[n]])) && '\n' !in row
  {
    var m := o.members[n];
    var f := MemberFields(m);
    MemberHasNoControl(m);
    FieldsAreTail(f);
    RowReads("member", PrintFields(f), d, DOCUMENT.step);
    FieldsRoundTrip(f);
    MemberAccepted(o.members, n);
    ReadsMember(d, PrintFields(f), m);
  }

  lemma ReadsMember(d: Draft, row: string, m: Member)
    requires ReadFields(row, 5) == Ok(MemberFields(m)) && MemberError(d.members, m).None?
    ensures ReadDirective(d, "member", row) == Ok(d.(members := d.members + [m]))
  {
    hide ReadFields, MemberError;
  }

  lemma MemberAccepted(members: seq<Member>, n: nat)
    requires MembersValid(members) && n < |members|
    ensures MemberError(members[..n], members[n]).None?
  {
    hide MemberOk;
  }

  lemma MemberHasNoControl(m: Member)
    requires MemberOk(m)
    ensures forall i :: 0 <= i < 5 ==> !HasControl(MemberFields(m)[i])
  {
  }

  lemma InputsRead(o: Offer, d: Draft)
    requires NamesValid(o.inputs, Identity) && d.inputs == []
    ensures ReadRows(NameRows("changed_input", o.inputs), d, DOCUMENT.step) == Ok(d.(inputs := o.inputs))
    ensures forall i :: 0 <= i < |o.inputs| ==> '\n' !in NameRows("changed_input", o.inputs)[i]
  {
    hide ReadRows, PrintFields, ReadName;
    var states := (i: nat) => d.(inputs := if i <= |o.inputs| then o.inputs[..i] else []);
    forall i: nat | i < |o.inputs|
      ensures DOCUMENT.step(states(i), "changed_input", PrintFields([o.inputs[i]])) == Ok(states(i + 1))
    {
      ReadsName(o.inputs, i, Identity, DuplicateChangedInput);
    }
    NameRowsRead("changed_input", o.inputs, |o.inputs|, states, DOCUMENT.step);
    assert o.inputs[..|o.inputs|] == o.inputs && o.inputs[..0] == [];
    assert states(0) == d;
  }

  /** Every valid manifest survives printing and parsing, whatever its quotes, backslashes and spaces. */
  lemma RoundTrip(o: Offer)
    requires Valid(o)
    ensures Serialized(o).Ok? && Parsed(Serialized(o).value) == Ok(o)
  {
    hide ReadRows, Rows, Valid, OfferError, MagicLine, Unlines, ReadDirective, ReadDocument, NamesValid;
    ValidNotRefused(o);
    RowsRead(o);
    TextReads(o);
  }

  lemma TextReads(o: Offer)
    requires forall i :: 0 <= i < |Rows(o)| ==> '\n' !in Rows(o)[i]
    ensures ReadDocument(Unlines([MagicLine(NAME, VERSION)] + Rows(o)), DOCUMENT) == ReadRows(Rows(o), BLANK, DOCUMENT.step)
  {
    hide ReadRows, Rows, MagicLine, Unlines, ReadDirective, ReadDocument;
    DocumentRoundTrip(Rows(o), DOCUMENT);
  }

  lemma RowsRead(o: Offer)
    requires Valid(o) && o.members != [] && NamesValid(o.inputs, Identity)
    ensures ReadRows(Rows(o), BLANK, DOCUMENT.step) == Ok(Header(o).(members := o.members, inputs := o.inputs))
    ensures forall i :: 0 <= i < |Rows(o)| ==> '\n' !in Rows(o)[i]
  {
    hide ReadRows, MemberRows, NameRows, HeaderRows, Valid, ReadDirective, NamesValid;
    HeaderReads(o);
    MembersRead(o);
    InputsRead(o, Header(o).(members := o.members));
    RowsAppend(HeaderRows(o), MemberRows(o.members) + NameRows("changed_input", o.inputs), BLANK, DOCUMENT.step);
    RowsAppend(MemberRows(o.members), NameRows("changed_input", o.inputs), Header(o), DOCUMENT.step);
  }

  lemma ValidNotRefused(o: Offer)
    requires Valid(o)
    ensures OfferError(o).None? && o.members != [] && NamesValid(o.inputs, Identity)
  {
    ValidatorExact(o);
  }

  /** What every row leaves true of the draft. */
  predicate DraftOk(d: Draft) {
    && (d.group.Some? ==> Identity(d.group.value))
    && (d.sequence.Some? ==> d.sequence.value <= MAX_64)
    && (d.generation.Some? ==> PortablePath(d.generation.value, false))
    && (d.compatibility.Some? ==> Identity(d.compatibility.value))
    && (d.abi.Some? ==> Identity(d.abi.value))
    && MembersValid(d.members) && NamesValid(d.inputs, Identity)
  }

  lemma DirectiveKeeps(d: Draft, directive: string, row: string)
    requires DraftOk(d)
    ensures var r := ReadDirective(d, directive, row); r.Ok? ==> DraftOk(r.value)
  {
    hide ReadOnce, ReadNumber, Identity, PortablePath, DraftOk, ReadMember, ReadName;
    MemberKeeps(d, row);
    InputKeeps(d, row);
    FieldKeeps(d, row);
  }

  lemma FieldKeeps(d: Draft, row: string)
    requires DraftOk(d)
    ensures forall present: bool :: ReadOnce(present, row).Ok? ==>
              var v := ReadOnce(present, row).value;
              DraftOk(d.(group := Some(v))) && DraftOk(d.(compatibility := Some(v))) && DraftOk(d.(abi := Some(v)))
              && (PortablePath(v, false) ==> DraftOk(d.(generation := Some(v))))
    ensures ReadNumber(row, true).Ok? ==> DraftOk(d.(sequence := Some(ReadNumber(row, true).value)))
  {
    hide ReadOnce, ReadNumber, Identity, PortablePath, MembersValid, NamesValid;
  }

  lemma InputKeeps(d: Draft, row: string)
    requires DraftOk(d)
    ensures var inputs := ReadName(d.inputs, row, Identity, DuplicateChangedInput); inputs.Ok? ==> DraftOk(d.(inputs := inputs.value))
  {
    hide Identity, PortablePath, MembersValid, NamesValid, ReadName;
    ReadNameKeeps(d.inputs, row, Identity, DuplicateChangedInput);
  }

  lemma MemberKeeps(d: Draft, row: string)
    requires DraftOk(d)
    ensures var r := ReadMember(d, row); r.Ok? ==> DraftOk(r.value)
  {
    hide ReadFields, Identity, PortablePath, MembersValid, NamesValid, MemberError;
    var fields := ReadFields(row, 5);
    if fields.Ok? {
      var f := fields.value;
      MemberErrorExact(d.members, Member(f[0], f[1], f[2], f[3], f[4]));
    }
  }

  lemma DraftsOk(text: string)
    ensures var r := ReadDocument(text, DOCUMENT); r.Ok? ==> DraftOk(r.value)
  {
    hide ReadRows, ReadDirective;
    var lines := Lines(text);
    if lines != [] {
      forall d, directive, row | DraftOk(d) && DOCUMENT.step(d, directive, row).Ok?
        ensures DraftOk(DOCUMENT.step(d, directive, row).value)
      {
        DirectiveKeeps(d, directive, row);
      }
      RowsKeep(lines[1..], BLANK, DOCUMENT.step, DraftOk);
    }
  }

  /** Everything the parser accepts is valid, and the validation that ends it never objects: the rows were
      already checked one by one. */
  lemma ParsedValid(text: string)
    ensures Parsed(text).Ok? ==> Valid(Parsed(text).value)
    ensures var r := ReadDocument(text, DOCUMENT); r.Ok? && Complete(r.value) ==> Parsed(text) == Ok(Finished(r.value))
  {
    hide ReadDocument, OfferError;
    DraftsOk(text);
    var r := ReadDocument(text, DOCUMENT);
    if r.Ok? && Complete(r.value) {
      ValidatorExact(Finished(r.value));
    }
  }

  /** Printing what was parsed and parsing it again changes nothing. */
  lemma ReprintStable(text: string)
    requires Parsed(text).Ok?
    ensures Serialized(Parsed(text).value).Ok? && Parsed(Serialized(Parsed(text).value).value) == Parsed(text)
  {
    hide Parsed, Serialized;
    ParsedValid(text);
    RoundTrip(Parsed(text).value);
  }

  // ---- what a text says, whatever the order of its rows ----

  predicate Known(directive: string) {
    directive in {"group_id", "sequence", "generation_id", "compatibility_id", "abi_id", "member", "changed_input"}
  }

  /** A row for each member, in their order. */
  predicate SaysMembers(tails: seq<string>, members: seq<Member>) {
    |tails| == |members| && forall i :: 0 <= i < |tails| ==> ReadFields(tails[i], 5) == Ok(MemberFields(members[i]))
  }

  /** The rows say just what the draft holds: each single field in one row or none, members and changed inputs each in a row of its
      own, and nothing else. */
  predicate Says(items: seq<Item>, d: Draft) {
    && (forall i :: 0 <= i < |items| ==> Known(items[i].directive))
    && SaysOnce(Tails(items, "group_id"), d.group) && SaysNumber(Tails(items, "sequence"), d.sequence, true)
    && SaysOnce(Tails(items, "generation_id"), d.generation) && SaysOnce(Tails(items, "compatibility_id"), d.compatibility)
    && SaysOnce(Tails(items, "abi_id"), d.abi) && SaysMembers(Tails(items, "member"), d.members)
    && SaysNames(Tails(items, "changed_input"), d.inputs) && DraftOk(d)
  }

  /** The draft before its last row was read. */
  function Before(d: Draft, directive: string): Draft {
    match directive
    case "group_id" => d.(group := None)
    case "sequence" => d.(sequence := None)
    case "generation_id" => d.(generation := None)
    case "compatibility_id" => d.(compatibility := None)
    case "abi_id" => d.(abi := None)
    case "member" => d.(members := if d.members == [] then [] else d.members[..|d.members| - 1])
    case _ => d.(inputs := if d.inputs == [] then [] else d.inputs[..|d.inputs| - 1])
  }

  lemma MembersMore(tails: seq<string>, members: seq<Member>, row: string)
    requires SaysMembers(tails, members)
    ensures forall m :: SaysMembers(tails + [row], members + [m]) <==> ReadFields(row, 5) == Ok(MemberFields(m))
    ensures ReadFields(row, 5).Ok? ==>
              var f := ReadFields(row, 5).value; f == MemberFields(Member(f[0], f[1], f[2], f[3], f[4]))
  {
    hide ReadFields;
    forall m
      ensures SaysMembers(tails + [row], members + [m]) <==> ReadFields(row, 5) == Ok(MemberFields(m))
    {
      assert (tails + [row])[|tails|] == row && (members + [m])[|tails|] == m;
      assert forall i :: 0 <= i < |tails| ==> (tails + [row])[i] == tails[i] && (members + [m])[i] == members[i];
    }
  }

  lemma MembersLess(tails: seq<string>, row: string, members: seq<Member>)
    requires SaysMembers(tails + [row], members) && MembersValid(members)
    ensures members != [] && var n := |members| - 1;
      SaysMembers(tails, members[..n]) && MembersValid(members[..n]) && ReadFields(row, 5) == Ok(MemberFields(members[n]))
      && MemberError(members[..n], members[n]).None? && members == members[..n] + [members[n]]
  {
    hide ReadFields, MemberOk, MemberError;
    assert (tails + [row])[|tails|] == row && forall i :: 0 <= i < |tails| ==> (tails + [row])[i] == tails[i];
    MemberAccepted(members, |members| - 1);
  }

  lemma DirectivesDiffer()
    ensures "group_id" != "sequence" && "abi_id" != "member"
  {
    assert "group_id"[0] != "sequence"[0] && "abi_id"[0] != "member"[0];
  }

  lemma RowSays(front: seq<Item>, x: Item, d: Draft)
    requires Says(front, d) && ReadDirective(d, x.directive, x.tail).Ok?
    ensures Says(front + [x], ReadDirective(d, x.directive, x.tail).value)
  {
    hide ReadOnce, ReadNumber, ReadFields, ReadName, Identity, PortablePath, SaysOnce, SaysNumber, SaysNames, SaysMembers, Tails, MemberError, DraftOk;
    var now := ReadDirective(d, x.directive, x.tail).value;
    TailsMore(front, x);
    DirectivesDiffer();
    DirectiveKeeps(d, x.directive, x.tail);
    match x.directive
    case "group_id" => OnceMore(Tails(front, "group_id"), d.group, x.tail);
    case "sequence" => NumberMore(Tails(front, "sequence"), d.sequence, x.tail, true);
    case "generation_id" => OnceMore(Tails(front, "generation_id"), d.generation, x.tail);
    case "compatibility_id" => OnceMore(Tails(front, "compatibility_id"), d.compatibility, x.tail);
    case "abi_id" => OnceMore(Tails(front, "abi_id"), d.abi, x.tail);
    case "member" =>
      MembersMore(Tails(front, "member"), d.members, x.tail);
      assert now.members == d.members + [now.members[|d.members|]];
    case _ =>
      InputsOk(d);
      NamesMore(Tails(front, "changed_input"), d.inputs, x.tail, Identity, DuplicateChangedInput);
  }

  lemma InputsOk(d: Draft)
    requires DraftOk(d)
    ensures MembersValid(d.members) && NamesValid(d.inputs, Identity)
  {
  }

  lemma LastRow(front: seq<Item>, x: Item, d: Draft)
    requires Says(front + [x], d)
    ensures Says(front, Before(d, x.directive)) && ReadDirective(Before(d, x.directive), x.directive, x.tail) == Ok(d)
  {
    hide ReadOnce, ReadNumber, ReadFields, ReadName, Identity, PortablePath, SaysOnce, SaysNumber, SaysNames, SaysMembers, Tails, MemberError,
      MembersValid, NamesValid;
    TailsMore(front, x);
    DirectivesDiffer();
    assert (front + [x])[|front|] == x && forall i :: 0 <= i < |front| ==> (front + [x])[i] == front[i];
    match x.directive
    case "group_id" => OnceLast(Tails(front, "group_id"), x.tail, d.group);
    case "sequence" => NumberLast(Tails(front, "sequence"), x.tail, d.sequence, true);
    case "generation_id" => OnceLast(Tails(front, "generation_id"), x.tail, d.generation);
    case "compatibility_id" => OnceLast(Tails(front, "compatibility_id"), x.tail, d.compatibility);
    case "abi_id" => OnceLast(Tails(front, "abi_id"), x.tail, d.abi);
    case "member" => MembersLess(Tails(front, "member"), x.tail, d.members);
    case _ => NamesLess(Tails(front, "changed_input"), x.tail, d.inputs, Identity, DuplicateChangedInput);
  }

  lemma {:induction false} ItemsMean(items: seq<Item>, d: Draft)
    ensures Fold(items, BLANK, DOCUMENT.step) == Ok(d) <==> Says(items, d)
    decreases |items|
  {
    hide ReadDirective, Before, DraftOk;
    if items == [] {
      NothingSaid(d);
    } else {
      var n := |items| - 1;
      var front, x := items[..n], items[n];
      assert items == front + [x];
      var r := Fold(front, BLANK, DOCUMENT.step);
      if r.Ok? {
        ItemsMean(front, r.value);
        if ReadDirective(r.value, x.directive, x.tail).Ok? {
          RowSays(front, x, r.value);
        }
      }
      if Says(items, d) {
        LastRow(front, x, d);
        ItemsMean(front, Before(d, x.directive));
      }
    }
  }

  lemma NothingSaid(d: Draft)
    ensures Says([], d) <==> d == BLANK
  {
  }

  function DraftOf(o: Offer): Draft {
    Draft(Some(o.group), Some(o.sequence), Some(o.generation), Some(o.compatibility), Some(o.abi), o.members, o.inputs)
  }

  /** Under the magic line, the rows of the text say just what the manifest holds: each single field once, and members and inputs in
      their order. Blank lines and comments say nothing. */
  predicate Denotes(text: string, o: Offer) {
    var lines := Lines(text);
    lines != [] && InspectMagic(TrimReturn(lines[0]), NAME, VERSION) == NoIssue && o.members != []
    && Says(Items(lines[1..]), DraftOf(o))
  }

  /** A text parses to a manifest exactly when it says that manifest, in whatever order of rows. */
  lemma ParsedExact(text: string, o: Offer)
    ensures Parsed(text) == Ok(o) <==> Denotes(text, o)
  {
    hide Says, OfferError, ReadDirective, ReadRows, Fold, InspectMagic;
    var lines := Lines(text);
    if lines != [] {
      RowsAreItems(lines[1..], BLANK, DOCUMENT.step);
      ItemsMean(Items(lines[1..]), DraftOf(o));
      ParsedValid(text);
      var r := ReadDocument(text, DOCUMENT);
      if r.Ok? && Complete(r.value) {
        assert r.value == DraftOf(Finished(r.value));
      }
      assert o.members != [] ==> Finished(DraftOf(o)) == o;
    }
  }

  /** The single field of this directive is set. */
  predicate Holds(d: Draft, directive: string) {
    match directive
    case "group_id" => d.group.Some?
    case "sequence" => d.sequence.Some?
    case "generation_id" => d.generation.Some?
    case "compatibility_id" => d.compatibility.Some?
    case "abi_id" => d.abi.Some?
    case _ => false
  }

  /** A row with another directive is refused, and so is a single field that stands there a second time. */
  lemma RowRefused(d: Draft, directive: string, row: string)
    ensures !Known(directive) ==> ReadDirective(d, directive, row) == Error(UnknownDirective)
    ensures Holds(d, directive) ==> ReadDirective(d, directive, row) == Error(DuplicateField)
  {
    hide PortablePath, Identity, MemberError, ReadFields, ReadNumber;
  }

  // ---- ready markers ----

  datatype Reference = Reference(sequence: nat, generation: string)

  const SUFFIX := ".ready"

  function Find(s: string, mark: char): (i: nat)
    ensures i <= |s| && (forall j :: 0 <= j < i ==> s[j] != mark) && (i < |s| ==> s[i] == mark)
  {
    if s == "" || s[0] == mark then 0 else 1 + Find(s[1..], mark)
  }

  /** Read `<sequence>-<generation_id>.ready`. */
  function ParsedMarker(filename: string): Result<Reference, WireError> {
    if |filename| < |SUFFIX| || filename[|filename| - |SUFFIX|..] != SUFFIX then Error(InvalidMarker)
    else
      var stem := filename[..|filename| - |SUFFIX|];
      var separator := Find(stem, '-');
      if separator == |stem| || separator == 0 || separator + 1 == |stem| then Error(InvalidMarker)
      else
        var number := ParseUnsigned(stem[..separator]);
        var generation := stem[separator + 1..];
        if number.leadingZero || !number.ok || !PortablePath(generation, false) then Error(InvalidMarker)
        else Ok(Reference(number.value, generation))
  }

  function SerializedMarker(r: Reference): Result<string, WireError> {
    if PortablePath(r.generation, false) then Ok(Decimal(r.sequence) + ['-'] + r.generation + SUFFIX) else Error(InvalidMarker)
  }

  /** Markers and references are in one-to-one correspondence: a file name reads as a reference exactly when it
      is that reference's printed name. */
  lemma MarkerExact(filename: string, r: Reference)
    requires r.sequence <= MAX_64
    ensures ParsedMarker(filename) == Ok(r) <==> SerializedMarker(r) == Ok(filename)
  {
    hide PortablePath;
    if SerializedMarker(r) == Ok(filename) {
      MarkerReads(r);
    }
    if ParsedMarker(filename) == Ok(r) {
      var stem := filename[..|filename| - |SUFFIX|];
      var separator := Find(stem, '-');
      CanonicalTokens(stem[..separator], r.sequence);
      assert stem == stem[..separator] + ['-'] + stem[separator + 1..];
      assert filename == stem + SUFFIX;
    }
  }

  lemma MarkerReads(r: Reference)
    requires r.sequence <= MAX_64 && PortablePath(r.generation, false)
    ensures ParsedMarker(Decimal(r.sequence) + ['-'] + r.generation + SUFFIX) == Ok(r)
  {
    hide PortableKey;
    var stem := Decimal(r.sequence) + ['-'] + r.generation;
    var filename := stem + SUFFIX;
    assert filename[..|filename| - |SUFFIX|] == stem && filename[|filename| - |SUFFIX|..] == SUFFIX;
    var n := |Decimal(r.sequence)|;
    assert stem[n] == '-';
    assert forall j :: 0 <= j < n ==> IsDigit(stem[j]);
    assert Find(stem, '-') == n;
    assert stem[..n] == Decimal(r.sequence) && stem[n + 1..] == r.generation;
    CanonicalTokens(Decimal(r.sequence), r.sequence);
  }

  // ---- matching an offer with what announces it and what it is for ----

  /** Why a manifest is not the one its marker names. */
  function ReferenceError(r: Reference, o: Offer): Option<WireError> {
    if !PortablePath(r.generation, false) then Some(InvalidMarker)
    else if OfferError(o).Some? then OfferError(o)
    else if r.sequence != o.sequence || r.generation != o.generation then Some(MarkerMismatch)
    else None
  }

  /** Why a manifest does not fit the descriptor linked into the application. */
  function DescriptorMismatch(o: Offer, d: GroupDescriptor.Descriptor): Option<WireError> {
    if OfferError(o).Some? then OfferError(o)
    else if GroupDescriptor.DescriptorError(d).Some? then GroupDescriptor.DescriptorError(d)
    else if o.group != d.group then Some(GroupMismatch)
    else if o.compatibility != d.compatibility then Some(CompatibilityMismatch)
    else if o.abi != d.abi then Some(AbiMismatch)
    else if |o.members| != |d.members| then Some(MembershipMismatch)
    else if exists i :: 0 <= i < |o.members| && o.members[i].member != d.members[i] then Some(MembershipMismatch)
    else None
  }
}
