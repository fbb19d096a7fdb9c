/** The scanning shared by the line-oriented wire formats: lines, words, quoted fields, portable keys,
    and the magic line. Text is a sequence of characters; `std::quoted` is the escaping of quotes and
    backslashes. */
module Scanner {
  import opened Wrappers
  import opened Decimals

  predicate IsControl(c: char) {
    c < ' ' || c == 127 as char
  }

  predicate HasControl(s: string) {
    exists i :: 0 <= i < |s| && IsControl(s[i])
  }

  /** White space of the C locale. */
  predicate IsSpace(c: char) {
    c == ' ' || 9 as char <= c <= 13 as char
  }

  lemma ControlCharacters(c: char)
    ensures IsControl(c) <==> c as int <= 31 || c as int == 127
  {
  }

  lemma SpaceCharacters(c: char)
    ensures IsSpace(c) <==> c in [' ', '\t', '\n', 11 as char, 12 as char, '\r']
  {
  }

  // ---- the magic line ----

  function MagicLine(name: string, version: nat): string {
    name + "/" + Decimal(version)
  }

  datatype MagicIssue = NoIssue | WrongName | WrongVersion

  function InspectMagic(line: string, name: string, version: nat): (r: MagicIssue)
  {
    if line == MagicLine(name, version) then NoIssue
    else if !(name <= line) then WrongName
    else if |line| == |name| || line[|name|] in {'/', ' ', '-'} then WrongVersion
    else WrongName
  }

  /** Every other version of a format is told apart from a foreign format. */
  lemma OtherVersions(name: string, version: nat, other: nat)
    ensures InspectMagic(MagicLine(name, other), name, version) == if other == version then NoIssue else WrongVersion
  {
    var line := MagicLine(name, other);
    assert name <= line && line[|name|] == '/';
    if line == MagicLine(name, version) {
      assert line[|name| + 1..] == Decimal(other) == Decimal(version);
      NumberOfDecimal(other);
      NumberOfDecimal(version);
    }
  }

  // ---- quoted fields ----

  function EscapeChar(c: char): string {
    if c == '"' || c == '\\' then ['\\', c] else [c]
  }

  function Escape(s: string): string {
    if s == "" then "" else EscapeChar(s[0]) + Escape(s[1..])
  }

  function Quote(s: string): string {
    "\"" + Escape(s) + "\""
  }

  /** Read up to the closing quote: the value and what is left of the row. */
  function Unescape(s: string): Option<(string, string)> {
    if s == "" then None
    else if s[0] == '"' then Some(("", s[1..]))
    else if s[0] == '\\' then
      if |s| == 1 then None
      else
        var r := Unescape(s[2..]);
        if r.None? then None else Some(([s[1]] + r.value.0, r.value.1))
    else
      var r := Unescape(s[1..]);
      if r.None? then None else Some(([s[0]] + r.value.0, r.value.1))
  }

  lemma {:induction false} UnescapeEscape(v: string, tail: string)
    ensures Unescape(Escape(v) + ("\"" + tail)) == Some((v, tail))
  {
    var s := Escape(v) + ("\"" + tail);
    if v == "" {
      assert s[1..] == tail;
    } else {
      UnescapeEscape(v[1..], tail);
      var rest := Escape(v[1..]) + ("\"" + tail);
      assert s == EscapeChar(v[0]) + rest;
      assert s[|EscapeChar(v[0])|..] == rest;
      assert [v[0]] + v[1..] == v;
    }
  }

  function SkipSpace(s: string): (r: string)
    ensures |r| <= |s| && (r != "" ==> !IsSpace(r[0]))
  {
    if s != "" && IsSpace(s[0]) then SkipSpace(s[1..]) else s
  }

  /** The characters up to the next white space, and the rest. */
  function Word(s: string): (r: (string, string))
    ensures r.0 + r.1 == s && forall i :: 0 <= i < |r.0| ==> !IsSpace(r.0[i])
    ensures r.1 != "" ==> IsSpace(r.1[0])
  {
    if s == "" || IsSpace(s[0]) then ("", s)
    else
      var w := Word(s[1..]);
      ([s[0]] + w.0, w.1)
  }

  lemma WordOf(word: string, tail: string)
    requires forall i :: 0 <= i < |word| ==> !IsSpace(word[i])
    requires tail != "" ==> IsSpace(tail[0])
    ensures Word(word + tail) == (word, tail)
  {
    var s := word + tail;
    var r := Word(s);
    assert |r.0| < |word| ==> s[|r.0|] == r.1[0];
    assert s[..|word|] == word && s[|word|..] == tail;
    assert s[..|r.0|] == r.0 && s[|r.0|..] == r.1;
  }

  /** One quoted field of a row, or an absent or broken one. */
  datatype Field = NotQuoted | Broken | Field(value: string, rest: string)

  function ReadQuoted(row: string): Field {
    var s := SkipSpace(row);
    if s == "" || s[0] != '"' then NotQuoted
    else
      var r := Unescape(s[1..]);
      if r.None? then Broken else Field(r.value.0, r.value.1)
  }

  lemma ReadsQuoted(v: string, tail: string)
    ensures ReadQuoted(" " + (Quote(v) + tail)) == Field(v, tail)
  {
    var row := " " + (Quote(v) + tail);
    assert row[1..] == Quote(v) + tail && row[1] == '"';
    assert SkipSpace(row) == row[1..];
    assert (Quote(v) + tail)[1..] == Escape(v) + ("\"" + tail);
    UnescapeEscape(v, tail);
  }

  // ---- lines ----

  function LineEnd(s: string): (i: nat)
    ensures i <= |s| && (forall j :: 0 <= j < i ==> s[j] != '\n') && (i < |s| ==> s[i] == '\n')
  {
    if s == "" || s[0] == '\n' then 0 else 1 + LineEnd(s[1..])
  }

  /** The lines `getline` delivers: a final newline does not start another line. */
  function Lines(text: string): seq<string>
    decreases |text|
  {
    if text == "" then []
    else
      var i := LineEnd(text);
      [text[..i]] + if i == |text| then [] else Lines(text[i + 1..])
  }

  function Unlines(lines: seq<string>): string {
    if lines == [] then "" else lines[0] + "\n" + Unlines(lines[1..])
  }

  lemma {:induction false} LinesUnlines(lines: seq<string>)
    requires forall i :: 0 <= i < |lines| ==> '\n' !in lines[i]
    ensures Lines(Unlines(lines)) == lines
  {
    if lines != [] {
      LinesUnlines(lines[1..]);
      FirstLine(lines[0], Unlines(lines[1..]));
      assert [lines[0]] + lines[1..] == lines;
    }
  }

  lemma FirstLine(line: string, rest: string)
    requires '\n' !in line
    ensures Lines(line + "\n" + rest) == [line] + Lines(rest)
  {
    var text := line + "\n" + rest;
    var i := LineEnd(text);
    assert text[|line|] == '\n';
    assert forall j :: 0 <= j < |line| ==> text[j] in line;
    assert text[..i] == line && text[i + 1..] == rest;
  }

  /** A carriage return before the newline belongs to the line end. */
  function TrimReturn(line: string): string {
    if line != "" && line[|line| - 1] == '\r' then line[..|line| - 1] else line
  }

  // ---- portable keys ----

  predicate IsPortable(c: char) {
    'a' <= c <= 'z' || 'A' <= c <= 'Z' || '0' <= c <= '9' || c in {'_', '-', '.', '/'}
  }

  /** The portable characters of a file name, one by one. */
  lemma PortableCharacters(c: char)
    ensures IsPortable(c) <==>
              || c in {'A', 'B', 'C', 'D', 'E', 'F', 'G', 'H', 'I', 'J', 'K', 'L', 'M', 'N', 'O', 'P', 'Q', 'R', 'S', 'T', 'U', 'V', 'W', 'X', 'Y', 'Z'}
              || c in {'a', 'b', 'c', 'd', 'e', 'f', 'g', 'h', 'i', 'j', 'k', 'l', 'm', 'n', 'o', 'p', 'q', 'r', 's', 't', 'u', 'v', 'w', 'x', 'y', 'z'}
              || c in {'0', '1', '2', '3', '4', '5', '6', '7', '8', '9', '_', '-', '.', '/'}
  {
  }

  datatype KeyIssue = NoKeyIssue | BoundarySlash | NonPortableCharacter | ForbiddenComponent | InvalidComponent

  predicate ComponentOk(s: string) {
    s != "" && s != "." && s != ".."
  }

  /** `value[from..to]` is one component: it reaches from slash or start to slash or end. */
  predicate IsComponent(value: string, from: nat, to: nat) {
    from <= to <= |value| && (from == 0 || value[from - 1] == '/') && (to == |value| || value[to] == '/')
    && forall i :: from <= i < to ==> value[i] != '/'
  }

  /** A portable key: portable characters in nonempty components that are not dot or dot-dot. */
  predicate PortableKey(value: string, allowComponents: bool) {
    && (forall i :: 0 <= i < |value| ==> IsPortable(value[i]) && (value[i] == '/' ==> allowComponents))
    && forall from: nat, to: nat :: from <= to <= |value| && IsComponent(value, from, to) ==>
         from < to && value[from..to] != "." && value[from..to] != ".."
  }

  method InspectKey(value: string, allowComponents: bool) returns (r: KeyIssue)
    requires value != ""
    ensures r == NoKeyIssue <==> PortableKey(value, allowComponents)
    ensures r == BoundarySlash <==> value[0] == '/' || value[|value| - 1] == '/'
    ensures r == ForbiddenComponent ==> !allowComponents && '/' in value
    ensures r == NonPortableCharacter ==> exists i :: 0 <= i < |value| && !IsPortable(value[i])
    ensures r == InvalidComponent ==>
              exists from: nat, to: nat :: IsComponent(value, from, to) && (from == to || value[from..to] == "." || value[from..to] == "..")
  {
    if value[0] == '/' || value[|value| - 1] == '/' {
      assert value[0] == '/' ==> IsComponent(value, 0, 0);
      assert value[|value| - 1] == '/' ==> IsComponent(value, |value|, |value|);
      return BoundarySlash;
    }
    var begin := 0;
    for index := 0 to |value| + 1
      invariant begin <= index && begin <= |value| + 1 && (begin == |value| + 1 <==> index == |value| + 1)
      invariant begin == 0 || begin == |value| + 1 || value[begin - 1] == '/'
      invariant forall i :: begin <= i < index && i < |value| ==> value[i] != '/'
      invariant forall i :: 0 <= i < index && i < |value| ==> IsPortable(value[i]) && (value[i] == '/' ==> allowComponents)
      invariant forall from: nat, to: nat :: to < index && IsComponent(value, from, to) ==> ComponentOk(value[from..to])
    {
      if index != |value| && value[index] != '/' {
        if !IsPortable(value[index]) {
          return NonPortableCharacter;
        }
        continue;
      }
      if !allowComponents && index != |value| {
        return ForbiddenComponent;
      }
      assert IsComponent(value, begin, index);
      if !ComponentOk(value[begin..index]) {
        return InvalidComponent;
      }
      assert forall from: nat :: IsComponent(value, from, index) ==> from == begin;
      begin := index + 1;
    }
    r := NoKeyIssue;
  }
}
