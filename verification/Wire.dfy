/** The grammar the three wire formats have in common: a magic line, then rows of a directive and its fields. */
module Wire {
  import opened Wrappers
  import opened Words
  import opened Decimals
  import opened Scanner

  datatype WireError =
    | InvalidFormat | UnsupportedVersion | UnknownDirective | MalformedValue | UnexpectedValue | DuplicateField
    | MissingField | InvalidField | DuplicateMember | DuplicateObjectPath | DuplicateChangedInput | DuplicateEntry
    | InvalidMarker | MarkerMismatch | GroupMismatch | CompatibilityMismatch | AbiMismatch | MembershipMismatch

  predicate Identity(v: string) {
    v != "" && !HasControl(v)
  }

  predicate PortablePath(v: string, allowComponents: bool) {
    Identity(v) && PortableKey(v, allowComponents)
  }

  predicate Sha256(v: string) {
    |v| == 64 && forall i :: 0 <= i < |v| ==> '0' <= v[i] <= '9' || 'a' <= v[i] <= 'f'
  }

  /** An identity is nonempty text without control characters. */
  lemma IdentityText(v: string)
    ensures Identity(v) <==> 0 < |v| && forall i :: 0 <= i < |v| ==> 32 <= v[i] as int && v[i] as int != 127
  {
  }

  /** A portable path has portable characters, and no component is empty, dot or dot-dot. */
  lemma PortableText(v: string, allowComponents: bool)
    ensures PortablePath(v, allowComponents)
       <==> v != "" && (forall i :: 0 <= i < |v| ==> IsPortable(v[i]) && (v[i] == '/' ==> allowComponents))
            && forall from: nat, to: nat :: IsComponent(v, from, to) ==> from < to && v[from..to] != "." && v[from..to] != ".."
  {
  }

  /** A digest is written as sixty-four lower-case hexadecimal digits. */
  lemma DigestText(v: string)
    ensures Sha256(v) <==> |v| == 64 && forall i :: 0 <= i < |v| ==> v[i] in "0123456789abcdef"
  {
    HexCharacters();
  }

  lemma HexCharacters()
    ensures forall c: char :: '0' <= c <= '9' || 'a' <= c <= 'f' <==> c in "0123456789abcdef"
  {
  }

  // ---- fields ----

  function PrintFields(values: seq<string>): string {
    if values == [] then "" else " " + (Quote(values[0]) + PrintFields(values[1..]))
  }

  /** Exactly `n` quoted fields and nothing behind them. */
  function ReadFields(row: string, n: nat): (r: Result<seq<string>, WireError>)
    ensures r.Ok? ==> |r.value| == n
    decreases n
  {
    if n == 0 then
      if SkipSpace(row) == "" then Ok([]) else Error(UnexpectedValue)
    else
      match ReadQuoted(row)
      case Field(v, rest) =>
        var more := ReadFields(rest, n - 1);
        if more.Ok? then Ok([v] + more.value) else more
      case _ => Error(MalformedValue)
  }

  lemma {:induction false} FieldsRoundTrip(values: seq<string>)
    ensures ReadFields(PrintFields(values), |values|) == Ok(values)
  {
    if values != [] {
      ReadsQuoted(values[0], PrintFields(values[1..]));
      FieldsRoundTrip(values[1..]);
      assert [values[0]] + values[1..] == values;
    }
  }

  /** One unsigned 64-bit decimal and nothing behind it. */
  function ReadNumber(row: string, canonical: bool): (r: Result<nat, WireError>)
    ensures r.Ok? ==> r.value <= MAX_64
  {
    var w := Word(SkipSpace(row));
    var p := ParseUnsigned(w.0);
    if !p.ok || (canonical && p.leadingZero) then Error(MalformedValue)
    else if SkipSpace(w.1) != "" then Error(UnexpectedValue)
    else Ok(p.value)
  }

  lemma NumberRoundTrip(n: nat, canonical: bool)
    requires n <= MAX_64
    ensures ReadNumber(" " + Decimal(n), canonical) == Ok(n)
  {
    var row := " " + Decimal(n);
    assert row[1..] == Decimal(n) && !IsSpace(Decimal(n)[0]);
    assert SkipSpace(row) == Decimal(n);
    WordOf(Decimal(n), "");
    assert Decimal(n) + "" == Decimal(n);
    CanonicalTokens(Decimal(n), n);
  }

  /** A field of its own row that may be set once and must be an identity. */
  function ReadOnce(present: bool, row: string): (r: Result<string, WireError>)
    ensures r.Ok? ==> !present && Identity(r.value)
  {
    if present then Error(DuplicateField)
    else
      var fields := ReadFields(row, 1);
      if fields.Error? then Error(fields.error)
      else if Identity(fields.value[0]) then Ok(fields.value[0])
      else Error(InvalidField)
  }

  lemma ReadsOnce(v: string)
    requires Identity(v)
    ensures ReadOnce(false, PrintFields([v])) == Ok(v)
  {
    FieldsRoundTrip([v]);
  }

  // ---- names that may not repeat ----

  predicate Component(v: string) {
    PortablePath(v, false)
  }

  predicate KeyPath(v: string) {
    PortablePath(v, true)
  }

  predicate NamesValid(names: seq<string>, ok: string -> bool) {
    && (forall i :: 0 <= i < |names| ==> ok(names[i]))
    && (forall i, j :: 0 <= i < j < |names| ==> names[i] != names[j])
  }

  /** What is wrong with one more name. */
  function NameError(names: seq<string>, name: string, ok: string -> bool, repeated: WireError): Option<WireError> {
    if !ok(name) then Some(InvalidField)
    else if name in names then Some(repeated)
    else None
  }

  /** The first thing wrong with the first `n` names. */
  function NamesError(names: seq<string>, n: nat, ok: string -> bool, repeated: WireError): Option<WireError>
    requires n <= |names|
  {
    if n == 0 then None
    else
      var e := NamesError(names, n - 1, ok, repeated);
      if e.Some? then e else NameError(names[..n - 1], names[n - 1], ok, repeated)
  }

  lemma {:induction false} NamesErrorExact(names: seq<string>, n: nat, ok: string -> bool, repeated: WireError)
    requires n <= |names|
    ensures NamesError(names, n, ok, repeated).None? <==> NamesValid(names[..n], ok)
  {
    if n > 0 {
      NamesErrorExact(names, n - 1, ok, repeated);
      assert names[..n] == names[..n - 1] + [names[n - 1]];
      NameErrorExact(names[..n - 1], names[n - 1], ok, repeated);
    }
  }

  lemma NameErrorExact(names: seq<string>, name: string, ok: string -> bool, repeated: WireError)
    ensures NamesValid(names + [name], ok) <==> NamesValid(names, ok) && NameError(names, name, ok, repeated).None?
  {
    var all := names + [name];
    assert all[|names|] == name && forall i :: 0 <= i < |names| ==> all[i] == names[i];
  }

  /** A row that adds one name. */
  function ReadName(names: seq<string>, row: string, ok: string -> bool, repeated: WireError): (r: Result<seq<string>, WireError>)
  {
    var f := ReadFields(row, 1);
    if f.Error? then Error(f.error)
    else
      var e := NameError(names, f.value[0], ok, repeated);
      if e.Some? then Error(e.value) else Ok(names + [f.value[0]])
  }

  lemma ReadNameKeeps(names: seq<string>, row: string, ok: string -> bool, repeated: WireError)
    requires NamesValid(names, ok)
    ensures var r := ReadName(names, row, ok, repeated); r.Ok? ==> NamesValid(r.value, ok)
  {
    hide NamesValid;
    var f := ReadFields(row, 1);
    if f.Ok? {
      NameErrorExact(names, f.value[0], ok, repeated);
    }
  }

  lemma ReadsName(names: seq<string>, n: nat, ok: string -> bool, repeated: WireError)
    requires NamesValid(names, ok) && n < |names|
    ensures ReadName(names[..n], PrintFields([names[n]]), ok, repeated) == Ok(names[..n + 1])
  {
    FieldsRoundTrip([names[n]]);
    assert names[n] !in names[..n];
    assert names[..n + 1] == names[..n] + [names[n]];
  }

  function NameRows(directive: string, names: seq<string>): (r: seq<string>)
    ensures |r| == |names| && forall i :: 0 <= i < |r| ==> r[i] == directive + PrintFields([names[i]])
  {
    seq(|names|, i requires 0 <= i < |names| => directive + PrintFields([names[i]]))
  }

  // ---- rows ----

  type Step<!S> = (S, string, string) -> Result<S, WireError>

  /** One line: nothing, a comment, or a directive with the rest of its row. */
  function ReadRow<S>(line: string, s: S, step: Step<S>): Result<S, WireError> {
    var row := SkipSpace(TrimReturn(line));
    if row == "" || row[0] == '#' then Ok(s)
    else
      var w := Word(row);
      step(s, w.0, w.1)
  }

  function ReadRows<S>(lines: seq<string>, s: S, step: Step<S>): Result<S, WireError> {
    if lines == [] then Ok(s)
    else
      var r := ReadRow(lines[0], s, step);
      if r.Ok? then ReadRows(lines[1..], r.value, step) else r
  }

  predicate IsDirective(word: string) {
    word != "" && word[0] != '#' && forall i :: 0 <= i < |word| ==> !IsSpace(word[i])
  }

  predicate IsTail(tail: string) {
    tail != "" && tail[0] == ' ' && tail[|tail| - 1] != '\r' && '\n' !in tail
  }

  lemma RowReads<S>(directive: string, tail: string, s: S, step: Step<S>)
    requires IsDirective(directive) && IsTail(tail)
    ensures ReadRow(directive + tail, s, step) == step(s, directive, tail)
    ensures '\n' !in directive + tail
  {
    var line := directive + tail;
    assert line[|line| - 1] == tail[|tail| - 1] && line[0] == directive[0];
    assert TrimReturn(line) == line;
    assert SkipSpace(line) == line;
    WordOf(directive, tail);
  }

  lemma {:induction false} FieldsAreTail(values: seq<string>)
    requires values != [] && forall i :: 0 <= i < |values| ==> !HasControl(values[i])
    ensures IsTail(PrintFields(values))
  {
    var rest := PrintFields(values[1..]);
    EscapeHasNo(values[0], '\n');
    if |values| > 1 {
      FieldsAreTail(values[1..]);
    }
    assert PrintFields(values)[0] == ' ';
    assert rest != "" ==> PrintFields(values)[|PrintFields(values)| - 1] == rest[|rest| - 1];
  }

  lemma {:induction false} EscapeHasNo(v: string, mark: char)
    requires !HasControl(v) && IsControl(mark)
    ensures mark !in Escape(v)
  {
    if v != "" {
      assert !HasControl(v[1..]) by {
        assert forall i :: 0 <= i < |v[1..]| ==> v[1..][i] == v[i + 1];
      }
      EscapeHasNo(v[1..], mark);
    }
  }

  /** A row of one identity reads as its directive. */
  lemma IdentityRow<S>(directive: string, v: string, s: S, step: Step<S>)
    requires IsDirective(directive) && Identity(v)
    ensures ReadRow(directive + PrintFields([v]), s, step) == step(s, directive, PrintFields([v]))
    ensures ReadOnce(false, PrintFields([v])) == Ok(v)
    ensures '\n' !in directive + PrintFields([v])
  {
    hide ReadOnce;
    FieldsAreTail([v]);
    RowReads(directive, PrintFields([v]), s, step);
    ReadsOnce(v);
  }

  lemma NumberIsTail(n: nat)
    ensures IsTail(" " + Decimal(n))
  {
    var tail := " " + Decimal(n);
    assert IsDigit(Decimal(n)[|Decimal(n)| - 1]);
  }

  // ---- documents ----

  datatype Document<!S> = Document(name: string, version: nat, start: S, step: Step<S>)

  function ReadDocument<S>(text: string, d: Document<S>): Result<S, WireError> {
    var lines := Lines(text);
    if lines == [] then Error(InvalidFormat)
    else
      match InspectMagic(TrimReturn(lines[0]), d.name, d.version)
      case WrongVersion => Error(UnsupportedVersion)
      case WrongName => Error(InvalidFormat)
      case NoIssue => ReadRows(lines[1..], d.start, d.step)
  }

  /** The line loop of the three parsers. */
  method ReadLines<S>(text: string, d: Document<S>) returns (r: Result<S, WireError>)
    ensures r == ReadDocument(text, d)
  {
    var lines := Lines(text);
    if lines == [] {
      return Error(InvalidFormat);
    }
    var issue := InspectMagic(TrimReturn(lines[0]), d.name, d.version);
    if issue != NoIssue {
      return Error(if issue == WrongVersion then UnsupportedVersion else InvalidFormat);
    }
    var s := d.start;
    for i := 1 to |lines|
      invariant ReadDocument(text, d) == ReadRows(lines[i..], s, d.step)
    {
      assert lines[i..][1..] == lines[i + 1..];
      var row := ReadRow(lines[i], s, d.step);
      if row.Error? {
        return row;
      }
      s := row.value;
    }
    r := Ok(s);
  }

  /** A document of well-formed rows under its own magic line reads as its rows. */
  lemma DocumentRoundTrip<S>(rows: seq<string>, d: Document<S>)
    requires forall i :: 0 <= i < |rows| ==> '\n' !in rows[i]
    requires '\n' !in d.name && '\r' !in d.name
    ensures ReadDocument(Unlines([MagicLine(d.name, d.version)] + rows), d) == ReadRows(rows, d.start, d.step)
  {
    hide MagicLine, Unlines, Lines, ReadRows, TrimReturn;
    var magic := MagicLine(d.name, d.version);
    var lines := [magic] + rows;
    MagicIsLine(d.name, d.version);
    LinesUnlines(lines);
    assert lines[1..] == rows;
  }

  lemma MagicIsLine(name: string, version: nat)
    requires '\n' !in name && '\r' !in name
    ensures '\n' !in MagicLine(name, version) && TrimReturn(MagicLine(name, version)) == MagicLine(name, version)
  {
    hide Decimal;
    var magic := MagicLine(name, version);
    DecimalHasNo(version, '\n');
    DecimalHasNo(version, '\r');
    assert magic[|magic| - 1] == Decimal(version)[|Decimal(version)| - 1];
  }

  lemma {:induction false} RowsAppend<S>(a: seq<string>, b: seq<string>, s: S, step: Step<S>)
    ensures ReadRows(a + b, s, step)
         == (var r := ReadRows(a, s, step); if r.Ok? then ReadRows(b, r.value, step) else r)
  {
    if a == [] {
      assert a + b == b;
    } else {
      assert (a + b)[1..] == a[1..] + b;
      var r := ReadRow(a[0], s, step);
      if r.Ok? {
        RowsAppend(a[1..], b, r.value, step);
      }
    }
  }

  /** Rows that each lead from one state to the next. */
  lemma {:induction false} ChainReads<S>(rows: seq<string>, states: seq<S>, step: Step<S>)
    requires |states| == |rows| + 1
    requires forall i :: 0 <= i < |rows| ==> ReadRow(rows[i], states[i], step) == Ok(states[i + 1])
    ensures ReadRows(rows, states[0], step) == Ok(states[|rows|])
  {
    hide ReadRow;
    if rows != [] {
      ChainReads(rows[1..], states[1..], step);
    }
  }

  /** Rows that each add one name, read one after another. `states[i]` is what the first `i` rows leave. */
  lemma NameRowsRead<S>(directive: string, names: seq<string>, n: nat, states: nat -> S, step: Step<S>)
    requires n <= |names| && IsDirective(directive) && forall i :: 0 <= i < |names| ==> Identity(names[i])
    requires forall i: nat :: i < n ==> step(states(i), directive, PrintFields([names[i]])) == Ok(states(i + 1))
    ensures ReadRows(NameRows(directive, names[..n]), states(0), step) == Ok(states(n))
    ensures forall i :: 0 <= i < n ==> '\n' !in NameRows(directive, names[..n])[i]
  {
    hide ReadRow, PrintFields, Identity, ReadOnce;
    var rows := NameRows(directive, names[..n]);
    var s := seq(n + 1, i requires 0 <= i <= n => states(i));
    forall i: nat | i < n
      ensures ReadRow(rows[i], s[i], step) == Ok(s[i + 1]) && '\n' !in rows[i]
    {
      IdentityRow(directive, names[i], states(i), step);
    }
    ChainReads(rows, s, step);
  }

  /** What every row keeps, a whole document keeps. */
  lemma {:induction false} RowsKeep<S(!new)>(lines: seq<string>, s: S, step: Step<S>, good: S -> bool)
    requires good(s)
    requires forall t, directive, row :: good(t) && step(t, directive, row).Ok? ==> good(step(t, directive, row).value)
    ensures var r := ReadRows(lines, s, step); r.Ok? ==> good(r.value)
  {
    if lines != [] {
      var r := ReadRow(lines[0], s, step);
      if r.Ok? {
        RowsKeep(lines[1..], r.value, step, good);
      }
    }
  }
}
