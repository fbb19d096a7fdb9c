/** Linking the images of one generation to one another. */
module Linker {
  import opened Wrappers
  import opened Words
  import opened Fields
  import opened Relocations
  import opened Image

  /** What an image offers to its siblings, with the address it has in this process. */
  datatype Export = Export(name: string, role: Role, address: address)

  datatype Linked = Linked(role: Role, address: address)

  /** A loaded image: its committed code, what it exports, and the fields still to be filled. */
  class CodeImage {
    const base: address
    const exports: seq<Export>
    const code: array<byte>
    var pending: seq<Fixup>

    constructor (base: address, exports: seq<Export>, code: array<byte>, pending: seq<Fixup>)
      ensures this.base == base && this.exports == exports && this.code == code && this.pending == pending
    {
      this.base := base;
      this.exports := exports;
      this.code := code;
      this.pending := pending;
    }
  }

  // ---- the exported names of a generation ----

  function AllExports(images: seq<CodeImage>): seq<Export> {
    if images == [] then [] else AllExports(images[..|images| - 1]) + images[|images| - 1].exports
  }

  /** The first `n` definitions include the name. */
  predicate Offers(all: seq<Export>, n: nat, name: string) {
    exists k :: 0 <= k < n <= |all| && all[k].name == name
  }

  predicate IsFirst(all: seq<Export>, k: nat) {
    k < |all| && forall j :: 0 <= j < k ==> all[j].name != all[k].name
  }

  predicate Collide(a: Export, b: Export) {
    a.name == b.name && (a.role != b.role || b.role == Variable)
  }

  /** Among the first `n`: a definition without an address, two of different roles, or a variable defined twice. */
  predicate Clash(all: seq<Export>, n: nat) {
    n <= |all| && ((exists k :: 0 <= k < n && all[k].address == 0) || exists j, k :: 0 <= j < k < n && Collide(all[j], all[k]))
  }

  /** The table holds the first definition of every name and nothing else. */
  ghost predicate Tabulates(table: map<string, Linked>, all: seq<Export>, n: nat) {
    && n <= |all|
    && (forall name :: name in table ==> Offers(all, n, name) && table[name].address != 0)
    && (forall k :: 0 <= k < n ==> all[k].name in table)
    && (forall k :: 0 <= k < n && IsFirst(all, k) ==> table[all[k].name] == Linked(all[k].role, all[k].address))
  }

  lemma {:induction false} FirstExists(all: seq<Export>, k: nat) returns (f: nat)
    requires k < |all|
    ensures f <= k && IsFirst(all, f) && all[f].name == all[k].name
  {
    if IsFirst(all, k) {
      f := k;
    } else {
      var j :| 0 <= j < k && all[j].name == all[k].name;
      f := FirstExists(all, j);
    }
  }

  /** The first of several functions of one name is taken; every other repetition is refused. */
  method Tabulate(all: seq<Export>) returns (r: Option<map<string, Linked>>)
    ensures r.Some? <==> !Clash(all, |all|)
    ensures r.Some? ==> Tabulates(r.value, all, |all|)
  {
    hide Clash, Tabulates, IsFirst, Collide;
    var table: map<string, Linked> := map[];
    NothingTabulated(all);
    for k := 0 to |all|
      invariant !Clash(all, k) && Tabulates(table, all, k)
    {
      var e := all[k];
      if e.address == 0 {
        ClashAt(all, k, k);
        return None;
      }
      if e.name in table {
        var f := FirstOf(table, all, k, e.name);
        CollideRule(all[f], all[k]);
        if table[e.name].role != e.role || e.role == Variable {
          ClashAt(all, f, k);
          return None;
        }
        NoNewClash(all, k, f);
        TableKept(table, all, k, f);
      } else {
        TableExtended(table, all, k);
        table := table[e.name := Linked(e.role, e.address)];
      }
    }
    r := Some(table);
  }

  lemma NothingTabulated(all: seq<Export>)
    ensures !Clash(all, 0) && Tabulates(map[], all, 0)
  {
  }

  lemma CollideRule(a: Export, b: Export)
    ensures Collide(a, b) <==> a.name == b.name && (a.role != b.role || b.role == Variable)
  {
  }

  lemma ClashAt(all: seq<Export>, j: nat, k: nat)
    requires j <= k < |all|
    requires if j == k then all[k].address == 0 else Collide(all[j], all[k])
    ensures Clash(all, |all|)
  {
  }

  lemma TableKept(table: map<string, Linked>, all: seq<Export>, k: nat, f: nat)
    requires f < k < |all| && Tabulates(table, all, k) && all[f].name == all[k].name
    ensures Tabulates(table, all, k + 1)
  {
    hide IsFirst, Offers;
    NotFirst(all, f, k);
    forall name | name in table
      ensures Offers(all, k + 1, name)
    {
      OffersMore(all, k, name);
    }
  }

  lemma NotFirst(all: seq<Export>, f: nat, k: nat)
    requires f < k < |all| && all[f].name == all[k].name
    ensures !IsFirst(all, k)
  {
  }

  lemma OffersMore(all: seq<Export>, k: nat, name: string)
    requires k < |all|
    ensures Offers(all, k + 1, name) <==> Offers(all, k, name) || all[k].name == name
  {
  }

  lemma TableExtended(table: map<string, Linked>, all: seq<Export>, k: nat)
    requires k < |all| && Tabulates(table, all, k) && !Clash(all, k)
    requires all[k].name !in table && all[k].address != 0
    ensures Tabulates(table[all[k].name := Linked(all[k].role, all[k].address)], all, k + 1) && !Clash(all, k + 1)
  {
    hide IsFirst, Offers, Clash;
    StillNoClash(table, all, k);
    var more := table[all[k].name := Linked(all[k].role, all[k].address)];
    forall name | name in more
      ensures Offers(all, k + 1, name)
    {
      OffersMore(all, k, name);
    }
    forall i | 0 <= i < k
      ensures all[i].name != all[k].name
    {
      assert all[i].name in table;
    }
  }

  lemma StillNoClash(table: map<string, Linked>, all: seq<Export>, k: nat)
    requires k < |all| && Tabulates(table, all, k) && !Clash(all, k)
    requires all[k].name !in table && all[k].address != 0
    ensures !Clash(all, k + 1)
  {
    hide IsFirst, Offers;
    forall i, j | 0 <= i < j < k + 1
      ensures !Collide(all[i], all[j])
    {
      assert all[i].name in table;
    }
  }

  lemma FirstOf(table: map<string, Linked>, all: seq<Export>, n: nat, name: string) returns (f: nat)
    requires n <= |all| && Tabulates(table, all, n) && name in table
    ensures f < n && all[f].name == name && IsFirst(all, f)
    ensures table[name] == Linked(all[f].role, all[f].address) && all[f].address != 0
  {
    var j :| 0 <= j < n && all[j].name == name;
    f := FirstExists(all, j);
  }

  lemma NoNewClash(all: seq<Export>, k: nat, f: nat)
    requires f < k < |all| && all[k].address != 0 && !Clash(all, k)
    requires all[f].name == all[k].name && !Collide(all[f], all[k]) && IsFirst(all, f)
    ensures !Clash(all, k + 1)
  {
    forall i, j | 0 <= i < j < k + 1
      ensures !Collide(all[i], all[j])
    {
      assert f < i < k ==> !Collide(all[f], all[i]);
    }
  }

  // ---- filling the fields ----

  /** What a field gets, unless its name is undefined, has another role, or is out of reach. */
  function FixupBytes(table: map<string, Linked>, base: address, f: Fixup): (r: Option<seq<byte>>)
    ensures r.Some? ==> |r.value| == FixupWidth(f)
  {
    if f.name !in table || table[f.name].role != f.role then None
    else
      match f.kind
      case ThroughStub => if f.role == Code then Some(Stub(table[f.name].address)) else None
      case InPlace(field) => Encode(field, table[f.name].address, f.addend, (base + f.offset) % TWO_64)
  }

  predicate Fillable(table: map<string, Linked>, base: address, size: nat, f: Fixup) {
    FixupBytes(table, base, f).Some? && f.offset + FixupWidth(f) <= size
  }

  function Filling(table: map<string, Linked>, base: address, f: Fixup): Effect {
    if FixupBytes(table, base, f).Some? then Store(f.offset, FixupBytes(table, base, f).value) else Reject
  }

  function Fillings(table: map<string, Linked>, base: address, fixups: seq<Fixup>): (r: seq<Effect>)
    ensures |r| == |fixups|
  {
    seq(|fixups|, k requires 0 <= k < |fixups| => Filling(table, base, fixups[k]))
  }

  /** The field can be filled, and the operating system lets the `k`-th write happen. */
  predicate Passes(image: CodeImage, table: map<string, Linked>, granted: nat -> bool, fixups: seq<Fixup>, k: nat) {
    k < |fixups| && Fillable(table, image.base, image.code.Length, fixups[k]) && granted(k)
  }

  ghost predicate AllPass(image: CodeImage, table: map<string, Linked>, granted: nat -> bool, fixups: seq<Fixup>, n: nat) {
    forall k :: 0 <= k < n ==> Passes(image, table, granted, fixups, k)
  }

  /** The first `n` fields of the image are filled, and none behind them. */
  ghost predicate FilledTo(image: CodeImage, table: map<string, Linked>, fixups: seq<Fixup>, was: seq<byte>, n: nat)
    requires n <= |fixups|
    reads image.code
  {
    image.code[..] == Applied(Fillings(table, image.base, fixups), was, n)
  }

  /** The image is linked, or its first field that does not pass ended the work. */
  ghost predicate LinkedUntil(image: CodeImage, table: map<string, Linked>, granted: nat -> bool, fixups: seq<Fixup>, was: seq<byte>, ok: bool)
    reads image, image.code
  {
    if ok then AllPass(image, table, granted, fixups, |fixups|) && image.pending == [] && FilledTo(image, table, fixups, was, |fixups|)
    else
      && image.pending == fixups
      && exists k :: 0 <= k < |fixups| && !Passes(image, table, granted, fixups, k)
                     && AllPass(image, table, granted, fixups, k) && FilledTo(image, table, fixups, was, k)
  }

  /** Fill one image. `granted` tells which of its writes the operating system lets happen. */
  method LinkImage(image: CodeImage, table: map<string, Linked>, granted: nat -> bool) returns (ok: bool)
    modifies image`pending, image.code
    ensures LinkedUntil(image, table, granted, old(image.pending), old(image.code[..]), ok)
  {
    hide Fillable, Fillings, Applied, Overwrite, Effect.Start, Effect.Bytes;
    var fixups := image.pending;
    ghost var effects := Fillings(table, image.base, fixups);
    NothingFilled(image, table, fixups);
    for k := 0 to |fixups|
      invariant image.pending == fixups
      invariant AllPass(image, table, granted, fixups, k) && FilledTo(image, table, fixups, old(image.code[..]), k)
    {
      if !Fillable(table, image.base, image.code.Length, fixups[k]) || !granted(k) {
        assert !Passes(image, table, granted, fixups, k);
        return false;
      }
      ghost var _ := FillingFits(table, image.base, image.code.Length, fixups, k);
      WriteField(image.code, Filling(table, image.base, fixups[k]));
      AppliedMore(effects, old(image.code[..]), k);
    }
    image.pending := [];
    ok := true;
  }

  lemma NothingFilled(image: CodeImage, table: map<string, Linked>, fixups: seq<Fixup>)
    ensures FilledTo(image, table, fixups, image.code[..], 0)
  {
  }

  lemma FillingFits(table: map<string, Linked>, base: address, size: nat, fixups: seq<Fixup>, k: nat) returns (e: Effect)
    requires k < |fixups| && Fillable(table, base, size, fixups[k])
    ensures e == Filling(table, base, fixups[k]) == Fillings(table, base, fixups)[k]
    ensures e.Store? && e.at + |e.bytes| <= size
  {
    hide FixupBytes;
    e := Filling(table, base, fixups[k]);
  }

  lemma AppliedMore(effects: seq<Effect>, was: seq<byte>, k: nat)
    requires k < |effects|
    ensures Applied(effects, was, k + 1) == Overwrite(Applied(effects, was, k), effects[k].Start(), effects[k].Bytes())
  {
  }

  function FixupField(code: seq<byte>, f: Fixup): seq<byte> {
    if f.offset + FixupWidth(f) <= |code| then code[f.offset..f.offset + FixupWidth(f)] else []
  }

  /** The processor, running over the filled field, reaches the exported address. */
  predicate Reaches(code: seq<byte>, base: address, f: Fixup, target: address) {
    match f.kind
    case ThroughStub => StubTarget(FixupField(code, f)) == Some(target)
    case InPlace(field) =>
      Decode(field, FixupField(code, f), (base + f.offset) % TWO_64) == (target + f.addend) % TWO_64
      <==> (field == Absolute32 ==> Signed64(target) + f.addend >= 0)
  }

  lemma FilledReaches(table: map<string, Linked>, base: address, fixups: seq<Fixup>, code: seq<byte>, k: nat)
    requires k < |fixups| && FixupsApart(fixups)
    requires forall j :: 0 <= j < |fixups| ==> Fillable(table, base, |code|, fixups[j])
    ensures fixups[k].name in table && table[fixups[k].name].role == fixups[k].role
    ensures Reaches(Applied(Fillings(table, base, fixups), code, |fixups|), base, fixups[k], table[fixups[k].name].address)
  {
    hide StubTarget, Stub, Decode, Encode, Applied, Reaches;
    var effects, f := Fillings(table, base, fixups), fixups[k];
    assert FieldsApart(effects, |code|) by {
      FillingsApart(table, base, fixups, |code|);
    }
    AppliedField(effects, code, k);
    assert Fillable(table, base, |code|, f);
    BytesReach(table, base, Applied(effects, code, |fixups|), f);
  }

  lemma BytesReach(table: map<string, Linked>, base: address, code: seq<byte>, f: Fixup)
    requires FixupBytes(table, base, f).Some? && FixupField(code, f) == FixupBytes(table, base, f).value
    ensures Reaches(code, base, f, table[f.name].address)
  {
    hide StubTarget, Stub, Decode, Encode, FixupField;
    match f.kind
    case ThroughStub =>
      StubJumps(table[f.name].address);
    case InPlace(field) =>
      EncodeDecodes(field, table[f.name].address, f.addend, (base + f.offset) % TWO_64);
  }

  lemma FillingsApart(table: map<string, Linked>, base: address, fixups: seq<Fixup>, size: nat)
    requires FixupsApart(fixups)
    requires forall j :: 0 <= j < |fixups| ==> Fillable(table, base, size, fixups[j])
    ensures FieldsApart(Fillings(table, base, fixups), size)
  {
    hide FixupBytes;
    var effects := Fillings(table, base, fixups);
    forall k, l, i | 0 <= k < l < |effects| && Touches(effects[k], i)
      ensures !Touches(effects[l], i)
    {
      assert FixupsSeparate(fixups[k], fixups[l]);
      assert Fillable(table, base, size, fixups[k]) && Fillable(table, base, size, fixups[l]);
    }
  }

  // ---- the generation ----

  ghost predicate Distinct(images: seq<CodeImage>) {
    forall i, j :: 0 <= i < j < |images| ==> images[i] != images[j] && images[i].code != images[j].code
  }

  ghost function Codes(images: seq<CodeImage>): set<array<byte>> {
    set i | 0 <= i < |images| :: images[i].code
  }

  ghost function Pendings(images: seq<CodeImage>): (r: seq<seq<Fixup>>)
    reads images
    ensures |r| == |images|
  {
    seq(|images|, i requires 0 <= i < |images| reads images => images[i].pending)
  }

  ghost function Contents(images: seq<CodeImage>): (r: seq<seq<byte>>)
    reads Codes(images)
    ensures |r| == |images| && forall i :: 0 <= i < |images| ==> |r[i]| == images[i].code.Length
  {
    seq(|images|, i requires 0 <= i < |images| reads Codes(images) => images[i].code[..])
  }

  ghost predicate Untouched(image: CodeImage, fixups: seq<Fixup>, was: seq<byte>)
    reads image, image.code
  {
    image.pending == fixups && image.code[..] == was
  }

  /** The first `n` images are linked, and those from `m` on are as they were. */
  ghost predicate LinkedBelow(images: seq<CodeImage>, table: map<string, Linked>, granted: nat -> nat -> bool,
                              fixups: seq<seq<Fixup>>, was: seq<seq<byte>>, n: nat, m: nat)
    requires |images| == |fixups| == |was|
    reads images, Codes(images)
  {
    && (forall i :: 0 <= i < n <= |images| ==> LinkedUntil(images[i], table, granted(i), fixups[i], was[i], true))
    && (forall i :: m <= i < |images| ==> Untouched(images[i], fixups[i], was[i]))
  }

  /** Image `i` is the first one with a field that does not pass. */
  ghost predicate StoppedAt(images: seq<CodeImage>, table: map<string, Linked>, granted: nat -> nat -> bool,
                            fixups: seq<seq<Fixup>>, was: seq<seq<byte>>, i: nat)
    requires |images| == |fixups| == |was|
    reads images, Codes(images)
  {
    && i < |images|
    && LinkedUntil(images[i], table, granted(i), fixups[i], was[i], false)
    && LinkedBelow(images, table, granted, fixups, was, i, i + 1)
  }

  method CollectExports(images: seq<CodeImage>) returns (all: seq<Export>)
    ensures all == AllExports(images)
  {
    all := [];
    for i := 0 to |images|
      invariant all == AllExports(images[..i])
    {
      assert images[..i + 1][..i] == images[..i];
      all := all + images[i].exports;
    }
    assert images[..|images|] == images;
  }

  lemma NothingLinked(images: seq<CodeImage>, table: map<string, Linked>, granted: nat -> nat -> bool)
    ensures LinkedBelow(images, table, granted, Pendings(images), Contents(images), 0, 0)
  {
  }

  method LinkNext(images: seq<CodeImage>, table: map<string, Linked>, granted: nat -> nat -> bool,
                  ghost fixups: seq<seq<Fixup>>, ghost was: seq<seq<byte>>, i: nat)
    returns (ok: bool)
    requires Distinct(images) && i < |images| == |fixups| == |was|
    requires LinkedBelow(images, table, granted, fixups, was, i, i)
    modifies {images[i]}, {images[i].code}
    ensures if ok then LinkedBelow(images, table, granted, fixups, was, i + 1, i + 1)
            else StoppedAt(images, table, granted, fixups, was, i)
  {
    hide LinkedUntil;
    assert Untouched(images[i], fixups[i], was[i]);
    ok := LinkImage(images[i], table, granted(i));
  }

  /** Fill every pending field of every image from one table of the generation's definitions. After success nothing is
      pending; otherwise two definitions clash and nothing was written, or the first field that cannot be filled, or whose
      write the operating system refused, ended the work. */
  method LinkGeneration(images: seq<CodeImage>, granted: nat -> nat -> bool) returns (ok: bool, ghost table: map<string, Linked>)
    requires Distinct(images)
    modifies images, Codes(images)
    ensures var all := AllExports(images); Clash(all, |all|) || Tabulates(table, all, |all|)
    ensures ok ==> !Clash(AllExports(images), |AllExports(images)|)
    ensures ok ==> LinkedBelow(images, table, granted, old(Pendings(images)), old(Contents(images)), |images|, |images|)
    ensures !ok && Clash(AllExports(images), |AllExports(images)|) ==>
              Pendings(images) == old(Pendings(images)) && Contents(images) == old(Contents(images))
    ensures !ok && !Clash(AllExports(images), |AllExports(images)|) ==>
              exists i :: 0 <= i < |images| && StoppedAt(images, table, granted, old(Pendings(images)), old(Contents(images)), i)
  {
    hide Clash, Tabulates, LinkedUntil, LinkedBelow, StoppedAt;
    table := map[];
    var all := CollectExports(images);
    var linked := Tabulate(all);
    if linked.None? {
      return false, table;
    }
    table := linked.value;
    ghost var fixups, was := Pendings(images), Contents(images);
    NothingLinked(images, table, granted);
    for i := 0 to |images|
      invariant LinkedBelow(images, table, granted, fixups, was, i, i)
    {
      ok := LinkNext(images, linked.value, granted, fixups, was, i);
      if !ok {
        assert StoppedAt(images, table, granted, fixups, was, i);
        return;
      }
    }
    ok := true;
  }

  /** The address meets the field: from its place it can be written in the field's width, as it is or sign-extended. */
  predicate InReach(f: Fixup, base: address, s: address) {
    match f.kind
    case ThroughStub => f.role == Code
    case InPlace(Absolute64) => true
    case InPlace(Relative32) => -0x8000_0000 <= Signed64(s) + f.addend - Signed64((base + f.offset) % TWO_64) <= 0x7FFF_FFFF
    case InPlace(_) => -0x8000_0000 <= Signed64(s) + f.addend <= 0x7FFF_FFFF
  }

  /** A field can be filled exactly when it lies in the image and the first definition of its name has the role it asks for
      and an address within its reach. */
  lemma FillableJustWhen(table: map<string, Linked>, all: seq<Export>, base: address, size: nat, f: Fixup)
    requires Tabulates(table, all, |all|)
    ensures Fillable(table, base, size, f)
            <==> f.offset + FixupWidth(f) <= size
                 && exists d: nat :: IsFirst(all, d) && all[d].name == f.name && all[d].role == f.role && InReach(f, base, all[d].address)
  {
    hide Stub, LittleEndian, Signed64;
    if d: nat :| IsFirst(all, d) && all[d].name == f.name {
      assert table[f.name] == Linked(all[d].role, all[d].address);
    }
    if f.name in table {
      var d := FirstOf(table, all, |all|, f.name);
    }
  }

  predicate Satisfies(e: Export, f: Fixup, code: seq<byte>, base: address) {
    e.name == f.name && e.role == f.role && e.address != 0 && Reaches(code, base, f, e.address)
  }

  /** After a successful link every reference to one name, in whatever image, reaches one and the same address:
      the first definition of that name in the generation, and of the role the reference asks for. */
  lemma EveryReferenceReaches(
    table: map<string, Linked>, all: seq<Export>, image: CodeImage, fixups: seq<Fixup>, was: seq<byte>, now: seq<byte>, k: nat)
    requires Tabulates(table, all, |all|) && FixupsApart(fixups) && k < |fixups|
    requires |was| == image.code.Length && forall j :: 0 <= j < |fixups| ==> Fillable(table, image.base, |was|, fixups[j])
    requires now == Applied(Fillings(table, image.base, fixups), was, |fixups|)
    ensures exists d: nat :: IsFirst(all, d) && Satisfies(all[d], fixups[k], now, image.base)
  {
    hide Reaches, Applied, Fillings, Fillable, Tabulates, IsFirst, FixupsApart;
    FilledReaches(table, image.base, fixups, was, k);
    var d := FirstOf(table, all, |all|, fixups[k].name);
  }
}
