/** The section that carries embedded descriptors: length-framed payloads, padded with zero bytes. */
module DescriptorSection {
  import opened Wrappers
  import opened Words
  import opened Wire
  import opened GroupDescriptor

  datatype Record = Record(descriptor: Descriptor, offset: nat)

  datatype SectionError = Truncated(offset: nat) | ZeroLength(offset: nat) | BadDescriptor(offset: nat, error: WireError)

  // ---- text as bytes ----

  /** Every character is one byte. */
  predicate OneByte(s: string) {
    forall i :: 0 <= i < |s| ==> s[i] < 256 as char
  }

  function Bytes(s: string): (r: seq<byte>)
    ensures |r| == |s|
  {
    seq(|s|, i requires 0 <= i < |s| => s[i] as int % 256)
  }

  function Chars(b: seq<byte>): (r: string)
    ensures |r| == |b|
  {
    seq(|b|, i requires 0 <= i < |b| => b[i] as char)
  }

  lemma CharsOfBytes(s: string)
    requires OneByte(s)
    ensures Chars(Bytes(s)) == s
  {
  }

  // ---- writing ----

  /** The length, cut to 32 bits, then the payload. */
  function Frame(payload: string): (r: seq<byte>)
    ensures |r| == 4 + |payload|
  {
    LittleEndian(|payload|, 4) + Bytes(payload)
  }

  predicate Prints(d: Descriptor) {
    Serialized(d).Ok?
  }

  function Text(d: Descriptor): string
    requires Prints(d)
  {
    Serialized(d).value
  }

  /** The frames of the first `n` descriptors. */
  function Frames(ds: seq<Descriptor>, n: nat): seq<byte>
    requires n <= |ds| && forall i :: 0 <= i < n ==> Prints(ds[i])
  {
    if n == 0 then [] else Frames(ds, n - 1) + Frame(Text(ds[n - 1]))
  }

  /** The frames of all descriptors in order, or the error of the first one that cannot be printed. */
  method SerializeSection(ds: seq<Descriptor>) returns (r: Result<seq<byte>, WireError>)
    ensures r.Ok? <==> forall i :: 0 <= i < |ds| ==> Prints(ds[i])
    ensures r.Ok? ==> r.value == Frames(ds, |ds|)
    ensures r.Error? ==> exists i :: 0 <= i < |ds| && Serialized(ds[i]) == Error(r.error) && forall j :: 0 <= j < i ==> Prints(ds[j])
  {
    hide Serialized, Bytes, LittleEndian;
    var bytes: seq<byte> := [];
    for i := 0 to |ds|
      invariant forall j :: 0 <= j < i ==> Prints(ds[j])
      invariant bytes == Frames(ds, i)
    {
      var payload := Serialized(ds[i]);
      if payload.Error? {
        return Error(payload.error);
      }
      FramesMore(ds, i, bytes);
      bytes := bytes + LittleEndian(|payload.value|, 4);
      bytes := bytes + Bytes(payload.value);
    }
    r := Ok(bytes);
  }

  lemma FramesMore(ds: seq<Descriptor>, i: nat, bytes: seq<byte>)
    requires i < |ds| && (forall j :: 0 <= j <= i ==> Prints(ds[j])) && bytes == Frames(ds, i)
    ensures bytes + LittleEndian(|Text(ds[i])|, 4) + Bytes(Text(ds[i])) == Frames(ds, i + 1)
  {
    hide Serialized, Bytes, LittleEndian;
  }

  lemma {:induction false} FramesGrow(ds: seq<Descriptor>, i: nat, n: nat)
    requires i <= n <= |ds| && forall j :: 0 <= j < n ==> Prints(ds[j])
    ensures Frames(ds, i) <= Frames(ds, n)
  {
    hide Serialized, Frame;
    if i < n {
      FramesGrow(ds, i, n - 1);
    }
  }

  // ---- reading ----

  predicate ZerosFrom(bytes: seq<byte>, offset: nat) {
    forall i :: offset <= i < |bytes| ==> bytes[i] == 0
  }

  function ReadLength(bytes: seq<byte>, offset: nat): (r: nat)
    requires offset + 4 <= |bytes|
  {
    FromLittleEndian(bytes[offset..offset + 4])
  }

  /** The records from `offset` on. Zero bytes behind the last record are padding. */
  function ParsedFrom(bytes: seq<byte>, offset: nat): Result<seq<Record>, SectionError>
    decreases |bytes| - offset
  {
    if offset >= |bytes| then Ok([])
    else if |bytes| - offset < 4 then
      if ZerosFrom(bytes, offset) then Ok([]) else Error(Truncated(offset))
    else
      var length := ReadLength(bytes, offset);
      if length == 0 then
        if ZerosFrom(bytes, offset) then Ok([]) else Error(ZeroLength(offset))
      else if length > |bytes| - (offset + 4) then Error(Truncated(offset))
      else
        var d := Parsed(Chars(bytes[offset + 4..offset + 4 + length]));
        if d.Error? then Error(BadDescriptor(offset, d.error))
        else
          var more := ParsedFrom(bytes, offset + 4 + length);
          if more.Ok? then Ok([Record(d.value, offset)] + more.value) else more
  }

  method ParseSection(bytes: seq<byte>) returns (r: Result<seq<Record>, SectionError>)
    ensures r == ParsedFrom(bytes, 0)
  {
    hide Parsed, Chars, FromLittleEndian, Prepend;
    var records: seq<Record> := [];
    PrependNone(ParsedFrom(bytes, 0));
    var offset := 0;
    while offset < |bytes|
      invariant ParsedFrom(bytes, 0) == Prepend(records, ParsedFrom(bytes, offset))
      decreases |bytes| - offset
    {
      PrependStops(records);
      if |bytes| - offset < 4 {
        if ZerosFrom(bytes, offset) {
          break;
        }
        return Error(Truncated(offset));
      }
      var length := ReadLength(bytes, offset);
      if length == 0 {
        if ZerosFrom(bytes, offset) {
          break;
        }
        return Error(ZeroLength(offset));
      }
      if length > |bytes| - (offset + 4) {
        return Error(Truncated(offset));
      }
      var d := GroupDescriptor.Parse(Chars(bytes[offset + 4..offset + 4 + length]));
      if d.Error? {
        return Error(BadDescriptor(offset, d.error));
      }
      PrependOne(records, Record(d.value, offset), ParsedFrom(bytes, offset + 4 + length));
      PrependMore(Record(d.value, offset), ParsedFrom(bytes, offset + 4 + length));
      records := records + [Record(d.value, offset)];
      offset := offset + 4 + length;
    }
    PrependStops(records);
    r := Ok(records);
  }

  lemma PrependNone(r: Result<seq<Record>, SectionError>)
    ensures Prepend([], r) == r
  {
    if r.Ok? {
      assert [] + r.value == r.value;
    }
  }

  lemma PrependStops(front: seq<Record>)
    ensures Prepend(front, Ok([])) == Ok(front)
    ensures forall e :: Prepend(front, Error(e)) == Error(e)
  {
    assert front + [] == front;
  }

  function Prepend(front: seq<Record>, r: Result<seq<Record>, SectionError>): Result<seq<Record>, SectionError> {
    if r.Ok? then Ok(front + r.value) else r
  }

  lemma PrependMore(record: Record, r: Result<seq<Record>, SectionError>)
    ensures Prepend([record], r) == if r.Ok? then Ok([record] + r.value) else r
  {
  }

  lemma PrependOne(front: seq<Record>, record: Record, r: Result<seq<Record>, SectionError>)
    ensures Prepend(front, Prepend([record], r)) == Prepend(front + [record], r)
  {
    if r.Ok? {
      assert front + ([record] + r.value) == front + [record] + r.value;
    }
  }

  // ---- the round trip ----

  function Zeros(n: nat): (r: seq<byte>)
    ensures |r| == n && forall i :: 0 <= i < n ==> r[i] == 0
  {
    seq(n, _ => 0)
  }

  /** A descriptor that reads back: valid, of one-byte characters, and under 4 GiB. */
  predicate Carries(d: Descriptor) {
    Valid(d) && Prints(d) && OneByte(Text(d)) && |Text(d)| < TWO_32
  }

  predicate AllCarried(ds: seq<Descriptor>) {
    forall i :: 0 <= i < |ds| ==> Carries(ds[i])
  }

  /** The first `n` descriptors with the offsets of their frames. */
  function RecordsOf(ds: seq<Descriptor>, n: nat): seq<Record>
    requires n <= |ds| && forall i :: 0 <= i < n ==> Prints(ds[i])
  {
    if n == 0 then [] else RecordsOf(ds, n - 1) + [Record(ds[n - 1], |Frames(ds, n - 1)|)]
  }

  /** A serialized list, with any number of zero bytes behind it, reads back as the list with its offsets. */
  lemma FramingRoundTrip(ds: seq<Descriptor>, padding: nat)
    requires AllCarried(ds)
    ensures ParsedFrom(Frames(ds, |ds|) + Zeros(padding), 0) == Ok(RecordsOf(ds, |ds|))
  {
    hide ParsedFrom, RecordsOf, Frames, Serialized, OneByte, Valid;
    var bytes := Frames(ds, |ds|) + Zeros(padding);
    FramingFrom(ds, bytes, |ds|);
    PaddingEnds(bytes, |Frames(ds, |ds|)|);
    PrependStops(RecordsOf(ds, |ds|));
  }

  lemma {:induction false} FramingFrom(ds: seq<Descriptor>, bytes: seq<byte>, n: nat)
    requires n <= |ds| && AllCarried(ds) && (forall i :: 0 <= i < |ds| ==> Prints(ds[i])) && Frames(ds, |ds|) <= bytes
    ensures ParsedFrom(bytes, 0) == Prepend(RecordsOf(ds, n), ParsedFrom(bytes, |Frames(ds, n)|))
  {
    hide ParsedFrom, Carries, Prints, Prepend, Frame;
    if n == 0 {
      PrependNone(ParsedFrom(bytes, 0));
    } else {
      FramingFrom(ds, bytes, n - 1);
      FramesGrow(ds, n, |ds|);
      FrameParses(ds[n - 1], bytes, Frames(ds, n - 1));
      PrependOne(RecordsOf(ds, n - 1), Record(ds[n - 1], |Frames(ds, n - 1)|), ParsedFrom(bytes, |Frames(ds, n)|));
    }
  }

  lemma TextNotEmpty(d: Descriptor)
    requires Prints(d)
    ensures |Text(d)| > 0
  {
  }

  /** One frame behind `front`. */
  lemma FrameParses(d: Descriptor, bytes: seq<byte>, front: seq<byte>)
    requires Carries(d) && front + Frame(Text(d)) <= bytes
    ensures ParsedFrom(bytes, |front|)
         == Prepend([Record(d, |front|)], ParsedFrom(bytes, |front| + |Frame(Text(d))|))
  {
    hide Parsed, Serialized, Valid, LittleEndian, FromLittleEndian, OneByte, Chars, Bytes, ReadLength;
    var payload := Text(d);
    RoundTrip(d);
    TextNotEmpty(d);
    FrameReads(bytes, front, payload);
    PrependMore(Record(d, |front|), ParsedFrom(bytes, |front| + |Frame(payload)|));
  }

  lemma FrameReads(bytes: seq<byte>, front: seq<byte>, payload: string)
    requires OneByte(payload) && 0 < |payload| < TWO_32 && front + Frame(payload) <= bytes
    ensures ReadLength(bytes, |front|) == |payload|
    ensures Chars(bytes[|front| + 4..|front| + 4 + |payload|]) == payload
  {
    hide LittleEndian, FromLittleEndian;
    assert bytes[|front|..|front| + 4] == LittleEndian(|payload|, 4);
    assert bytes[|front| + 4..|front| + 4 + |payload|] == Bytes(payload);
    LittleEndianRoundTrip(|payload|, 4);
    PowValues();
    CharsOfBytes(payload);
  }

  lemma PaddingEnds(bytes: seq<byte>, offset: nat)
    requires offset <= |bytes| && ZerosFrom(bytes, offset)
    ensures ParsedFrom(bytes, offset) == Ok([])
  {
    if offset + 4 <= |bytes| {
      assert bytes[offset..offset + 4] == [0, 0, 0, 0];
      assert FromLittleEndian([0, 0, 0, 0]) == 0 by {
        assert [0, 0, 0, 0][1..] == [0, 0, 0] && [0, 0, 0][1..] == [0, 0] && [0, 0][1..] == [0] && [0][1..] == [];
        assert FromLittleEndian([0]) == 0 && FromLittleEndian([0, 0]) == 0;
      }
    }
  }

  // ---- resolving ----

  predicate Conflict(a: Record, b: Record) {
    a.descriptor.group == b.descriptor.group && a.descriptor != b.descriptor
  }

  predicate FirstOfGroup(records: seq<Record>, k: nat) {
    k < |records| && forall j :: 0 <= j < k ==> records[j].descriptor.group != records[k].descriptor.group
  }

  /** The first record of every group among the first `n`, in order. */
  function Firsts(records: seq<Record>, n: nat): seq<Record>
    requires n <= |records|
  {
    if n == 0 then [] else Firsts(records, n - 1) + if FirstOfGroup(records, n - 1) then [records[n - 1]] else []
  }

  /** One descriptor for every group, or the offsets of two records that disagree: the second of them is the
      first record to disagree with an earlier one, and the first of them is its group's first. */
  method Resolve(records: seq<Record>) returns (r: Result<seq<Record>, (nat, nat)>)
    ensures r.Ok? <==> forall i, j :: 0 <= i < j < |records| ==> !Conflict(records[i], records[j])
    ensures r.Ok? ==> r.value == Firsts(records, |records|)
    ensures r.Error? ==> exists i: nat, j: nat :: i < j < |records| && FirstOfGroup(records, i) && Conflict(records[i], records[j])
                                             && r.error == (records[i].offset, records[j].offset)
  {
    hide Conflict, FirstOfGroup;
    var resolved: seq<Record> := [];
    for n := 0 to |records|
      invariant resolved == Firsts(records, n)
      invariant forall i, j :: 0 <= i < j < n ==> !Conflict(records[i], records[j])
    {
      var found := FindGroup(resolved, records[n].descriptor.group);
      FirstsExact(records, n);
      if found == |resolved| {
        NewGroup(records, n, resolved);
        NoConflict(records, n);
        resolved := resolved + [records[n]];
      } else {
        assert resolved[found] in resolved;
        var i :| 0 <= i < n && FirstOfGroup(records, i) && records[i] == resolved[found];
        ConflictRule(records[i], records[n]);
        if resolved[found].descriptor != records[n].descriptor {
          return Error((resolved[found].offset, records[n].offset));
        }
        Agrees(records, n, i);
      }
    }
    r := Ok(resolved);
  }

  lemma ConflictRule(a: Record, b: Record)
    ensures Conflict(a, b) <==> a.descriptor.group == b.descriptor.group && a.descriptor != b.descriptor
  {
  }

  lemma NoConflict(records: seq<Record>, n: nat)
    requires FirstOfGroup(records, n)
    ensures forall i :: 0 <= i < n ==> !Conflict(records[i], records[n])
  {
  }

  method FindGroup(resolved: seq<Record>, group: string) returns (found: nat)
    ensures found <= |resolved| && forall i :: 0 <= i < found ==> resolved[i].descriptor.group != group
    ensures found < |resolved| ==> resolved[found].descriptor.group == group
  {
    found := 0;
    while found < |resolved| && resolved[found].descriptor.group != group
      invariant found <= |resolved| && forall i :: 0 <= i < found ==> resolved[i].descriptor.group != group
    {
      found := found + 1;
    }
  }

  lemma {:induction false} FirstsExact(records: seq<Record>, n: nat)
    requires n <= |records|
    ensures forall r :: r in Firsts(records, n) <==> exists k :: 0 <= k < n && FirstOfGroup(records, k) && records[k] == r
  {
    hide FirstOfGroup;
    if n > 0 {
      FirstsExact(records, n - 1);
    }
  }

  lemma {:induction false} GroupHasFirst(records: seq<Record>, k: nat) returns (f: nat)
    requires k < |records|
    ensures f <= k && FirstOfGroup(records, f) && records[f].descriptor.group == records[k].descriptor.group
  {
    if FirstOfGroup(records, k) {
      f := k;
    } else {
      var j :| 0 <= j < k && records[j].descriptor.group == records[k].descriptor.group;
      f := GroupHasFirst(records, j);
    }
  }

  lemma NewGroup(records: seq<Record>, n: nat, resolved: seq<Record>)
    requires n < |records| && resolved == Firsts(records, n)
    requires forall i :: 0 <= i < |resolved| ==> resolved[i].descriptor.group != records[n].descriptor.group
    ensures FirstOfGroup(records, n)
  {
    forall j | 0 <= j < n
      ensures records[j].descriptor.group != records[n].descriptor.group
    {
      var f := GroupHasFirst(records, j);
      FirstsExact(records, n);
      assert records[f] in resolved;
    }
  }

  lemma Agrees(records: seq<Record>, n: nat, i: nat)
    requires i < n < |records| && records[i].descriptor == records[n].descriptor
    requires forall a, b :: 0 <= a < b < n ==> !Conflict(records[a], records[b])
    ensures !FirstOfGroup(records, n)
    ensures forall a :: 0 <= a < n ==> !Conflict(records[a], records[n])
  {
    forall a | 0 <= a < n
      ensures !Conflict(records[a], records[n])
    {
      assert a < i ==> !Conflict(records[a], records[i]);
      assert i < a ==> !Conflict(records[i], records[a]);
    }
  }

  /** A resolved list has unique groups in the order of their first records, and covers every record. */
  lemma ResolvedCovers(records: seq<Record>, k: nat)
    requires k < |records|
    requires forall i, j :: 0 <= i < j < |records| ==> !Conflict(records[i], records[j])
    ensures exists i :: 0 <= i < |Firsts(records, |records|)| && Firsts(records, |records|)[i].descriptor == records[k].descriptor
  {
    hide Firsts, FirstOfGroup, Conflict;
    var f := GroupHasFirst(records, k);
    FirstsExact(records, |records|);
    ConflictRule(records[f], records[k]);
    assert f < k ==> !Conflict(records[f], records[k]);
    assert records[f] in Firsts(records, |records|);
  }

  predicate UniqueGroups(s: seq<Record>) {
    forall i, j :: 0 <= i < j < |s| ==> s[i].descriptor.group != s[j].descriptor.group
  }

  lemma {:induction false} ResolvedUnique(records: seq<Record>, n: nat)
    requires n <= |records|
    ensures UniqueGroups(Firsts(records, n))
  {
    if n > 0 {
      ResolvedUnique(records, n - 1);
      FirstsExact(records, n - 1);
      var s := Firsts(records, n - 1);
      if FirstOfGroup(records, n - 1) {
        assert forall i :: 0 <= i < |s| ==> s[i] in s;
      } else {
        assert Firsts(records, n) == s;
      }
    }
  }
}
