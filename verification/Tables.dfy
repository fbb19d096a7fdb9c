/** What a document of rows says, whatever the order of its rows: the fields of each directive, in their order. */
module Tables {
  import opened Wrappers
  import opened Scanner
  import opened Wire

  datatype Item = Item(directive: string, tail: string)

  /** The directive and the rest of a line that is neither blank nor a comment. */
  function ItemOf(line: string): Option<Item> {
    var row := SkipSpace(TrimReturn(line));
    if row == "" || row[0] == '#' then None else Some(Item(Word(row).0, Word(row).1))
  }

  function Items(lines: seq<string>): seq<Item> {
    if lines == [] then []
    else
      var x := ItemOf(lines[0]);
      (if x.Some? then [x.value] else []) + Items(lines[1..])
  }

  /** What stands behind a directive, in the order of its rows. */
  function Tails(items: seq<Item>, directive: string): seq<string> {
    if items == [] then []
    else
      var n := |items| - 1;
      Tails(items[..n], directive) + if items[n].directive == directive then [items[n].tail] else []
  }

  lemma TailsMore(items: seq<Item>, x: Item)
    ensures forall directive :: Tails(items + [x], directive)
                             == if x.directive == directive then Tails(items, directive) + [x.tail] else Tails(items, directive)
  {
    assert (items + [x])[..|items|] == items;
  }

  function Fold<S>(items: seq<Item>, s: S, step: Step<S>): Result<S, WireError> {
    if items == [] then Ok(s)
    else
      var n := |items| - 1;
      var r := Fold(items[..n], s, step);
      if r.Ok? then step(r.value, items[n].directive, items[n].tail) else r
  }

  lemma {:induction false} FoldFront<S>(x: Item, items: seq<Item>, s: S, step: Step<S>)
    ensures Fold([x] + items, s, step)
         == (var r := step(s, x.directive, x.tail); if r.Ok? then Fold(items, r.value, step) else r)
    decreases |items|
  {
    var n := |items| - 1;
    if items == [] {
      assert [x] + items == [x] && [x][..0] == [];
      assert Fold([x][..0], s, step) == Ok(s);
    } else {
      assert ([x] + items)[..n + 1] == [x] + items[..n];
      FoldFront(x, items[..n], s, step);
    }
  }

  /** Reading rows line by line is reading the items of the lines. */
  lemma {:induction false} RowsAreItems<S>(lines: seq<string>, s: S, step: Step<S>)
    ensures ReadRows(lines, s, step) == Fold(Items(lines), s, step)
  {
    if lines != [] {
      var x := ItemOf(lines[0]);
      if x.None? {
        assert Items(lines) == Items(lines[1..]);
        RowsAreItems(lines[1..], s, step);
      } else {
        FoldFront(x.value, Items(lines[1..]), s, step);
        var r := ReadRow(lines[0], s, step);
        if r.Ok? {
          RowsAreItems(lines[1..], r.value, step);
        }
      }
    }
  }

  // ---- what rows of one directive say ----

  /** No row, or one with one identity. */
  predicate SaysOnce(tails: seq<string>, v: Option<string>) {
    match v
    case None => tails == []
    case Some(name) => |tails| == 1 && ReadFields(tails[0], 1) == Ok([name]) && Identity(name)
  }

  /** No row, or one with one number. */
  predicate SaysNumber(tails: seq<string>, v: Option<nat>, canonical: bool) {
    match v
    case None => tails == []
    case Some(n) => |tails| == 1 && ReadNumber(tails[0], canonical) == Ok(n)
  }

  /** A row for each name, in their order. */
  predicate SaysNames(tails: seq<string>, names: seq<string>) {
    |tails| == |names| && forall i :: 0 <= i < |tails| ==> ReadFields(tails[i], 1) == Ok([names[i]])
  }

  /** One more row of a directive that may stand once: it is read just when it is the first, and says its identity. */
  lemma OnceMore(tails: seq<string>, v: Option<string>, row: string)
    requires SaysOnce(tails, v)
    ensures forall w :: SaysOnce(tails + [row], w) <==> w.Some? && ReadOnce(v.Some?, row) == Ok(w.value)
  {
    hide ReadFields, Identity;
    var f := ReadFields(row, 1);
    if f.Ok? {
      assert f.value == [f.value[0]];
    }
    forall w
      ensures SaysOnce(tails + [row], w) <==> w.Some? && ReadOnce(v.Some?, row) == Ok(w.value)
    {
      assert tails == [] ==> (tails + [row])[0] == row;
    }
  }

  lemma NumberMore(tails: seq<string>, v: Option<nat>, row: string, canonical: bool)
    requires SaysNumber(tails, v, canonical)
    ensures forall w :: SaysNumber(tails + [row], w, canonical) <==> w.Some? && v.None? && ReadNumber(row, canonical) == Ok(w.value)
  {
    hide ReadNumber;
    assert tails == [] ==> (tails + [row])[0] == row;
  }

  /** One more name: it is read just when it is well formed and new. */
  lemma NamesMore(tails: seq<string>, names: seq<string>, row: string, ok: string -> bool, repeated: WireError)
    requires SaysNames(tails, names) && NamesValid(names, ok)
    ensures forall more :: SaysNames(tails + [row], more) && NamesValid(more, ok) && names <= more
              <==> ReadName(names, row, ok, repeated) == Ok(more)
  {
    hide ReadFields, NamesValid;
    var f := ReadFields(row, 1);
    forall more
      ensures SaysNames(tails + [row], more) && NamesValid(more, ok) && names <= more <==> ReadName(names, row, ok, repeated) == Ok(more)
    {
      if f.Ok? {
        assert f.value == [f.value[0]];
        NameErrorExact(names, f.value[0], ok, repeated);
      }
      if |more| == |names| + 1 && names <= more {
        assert more == names + [more[|names|]] && (tails + [row])[|names|] == row;
        assert forall i :: 0 <= i < |names| ==> (tails + [row])[i] == tails[i];
      }
    }
  }

  /** Without its last row there is one name less. */
  lemma NamesLess(tails: seq<string>, row: string, names: seq<string>, ok: string -> bool, repeated: WireError)
    requires SaysNames(tails + [row], names) && NamesValid(names, ok)
    ensures names != [] && var front := names[..|names| - 1];
      SaysNames(tails, front) && NamesValid(front, ok) && ReadName(front, row, ok, repeated) == Ok(names)
  {
    hide ReadFields;
    var front := names[..|names| - 1];
    assert names == front + [names[|front|]];
    assert (tails + [row])[|tails|] == row && forall i :: 0 <= i < |tails| ==> (tails + [row])[i] == tails[i];
  }

  lemma OnceLast(tails: seq<string>, row: string, v: Option<string>)
    requires SaysOnce(tails + [row], v)
    ensures tails == [] && v.Some? && SaysOnce(tails, None) && ReadOnce(false, row) == Ok(v.value)
  {
    hide ReadFields, Identity;
    assert (tails + [row])[|tails|] == row;
  }

  lemma NumberLast(tails: seq<string>, row: string, v: Option<nat>, canonical: bool)
    requires SaysNumber(tails + [row], v, canonical)
    ensures tails == [] && v.Some? && SaysNumber(tails, None, canonical) && ReadNumber(row, canonical) == Ok(v.value)
  {
    hide ReadNumber;
    assert (tails + [row])[|tails|] == row;
  }
}
