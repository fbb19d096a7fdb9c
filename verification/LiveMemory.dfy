/** The mapped bytes of the running process. An address is mapped when it is a key. */
module LiveMemory {
  import opened Wrappers
  import opened Words

  type Bytes = map<nat, byte>

  ghost predicate Mapped(m: Bytes, at: nat, n: nat) {
    forall a :: at <= a < at + n ==> a in m
  }

  ghost predicate MappedRange(m: Bytes, begin: nat, end: nat) {
    forall a :: begin <= a < end ==> a in m
  }

  /** The `n` bytes at `at`. */
  function Read(m: Bytes, at: nat, n: nat): (s: seq<byte>)
    requires Mapped(m, at, n)
    ensures |s| == n && forall i :: 0 <= i < n ==> s[i] == m[at + i]
  {
    seq(n, i requires 0 <= i < n => m[at + i])
  }

  /** `m` after the bytes `s` are written at `at`. */
  function Write(m: Bytes, at: nat, s: seq<byte>): (w: Bytes)
    ensures w.Keys == m.Keys
    ensures forall a :: a in m ==> w[a] == if at <= a < at + |s| then s[a - at] else m[a]
  {
    map a | a in m :: if at <= a < at + |s| then s[a - at] else m[a]
  }

  /** `n` zero bytes from `at` on. */
  function Zeros(at: nat, n: nat): (z: Bytes)
    ensures forall a :: a in z <==> at <= a < at + n
    ensures forall a :: a in z ==> z[a] == 0
  {
    if n == 0 then map[] else Zeros(at, n - 1)[at + n - 1 := 0]
  }

  /** Two memories hold the same bytes at `[at, at + n)`. */
  ghost predicate SameAt(m: Bytes, m': Bytes, at: nat, n: nat) {
    forall a :: at <= a < at + n ==> (a in m <==> a in m') && (a in m ==> m[a] == m'[a])
  }

  lemma ReadSame(m: Bytes, m': Bytes, at: nat, n: nat)
    requires Mapped(m, at, n) && SameAt(m, m', at, n)
    ensures Mapped(m', at, n) && Read(m', at, n) == Read(m, at, n)
  {
    assert forall i :: 0 <= i < n ==> Read(m', at, n)[i] == Read(m, at, n)[i];
  }

  datatype Range = Range(begin: nat, end: nat)

  /** A table of ranges, from below. */
  predicate Table(table: seq<Range>) {
    && (forall i, j :: 0 <= i < j < |table| ==> table[i].begin <= table[j].begin)
    && (forall i :: 0 <= i < |table| ==> table[i].begin < table[i].end <= MAX_64)
  }

  /** The table lists just the mapped memory. */
  ghost predicate Lists(table: seq<Range>, m: Bytes) {
    && (forall a :: a in m ==> exists i :: 0 <= i < |table| && table[i].begin <= a < table[i].end)
    && (forall i :: 0 <= i < |table| ==> forall a :: table[i].begin <= a < table[i].end ==> a in m)
  }

  /** The address space of the process. Whether the kernel grants a request is not determined; it is counted. */
  class Memory {
    var bytes: Bytes
    /** How many requests the kernel has refused, and how many changes of protection it has granted. */
    ghost var refused: nat
    ghost var granted: nat
    /** The code that is open for writing now. */
    ghost var unlocked: Option<Range>

    /** One protection change: it succeeds or fails, and moves no byte. */
    method Protect() returns (ok: bool)
      modifies this`refused, this`granted
      ensures refused == old(refused) + if ok then 0 else 1
      ensures granted == old(granted) + if ok then 1 else 0
    {
      ok := *;
      refused := refused + if ok then 0 else 1;
      granted := granted + if ok then 1 else 0;
    }

    /** Open executable pages for writing. The range begins at a page. */
    method Unlock(page: nat, begin: nat, end: nat) returns (ok: bool)
      requires 0 < page && begin % page == 0 && begin < end
      modifies this`refused, this`unlocked
      ensures refused == old(refused) + if ok then 0 else 1
      ensures unlocked == if ok then Some(Range(begin, end)) else old(unlocked)
    {
      ok := *;
      refused := refused + if ok then 0 else 1;
      unlocked := if ok then Some(Range(begin, end)) else unlocked;
    }

    /** Close them again. The kernel may refuse that too; the pages then stay writable, but nothing relies on it. */
    method Lock()
      modifies this`unlocked
      ensures unlocked == None
    {
      unlocked := None;
    }

    /** Write over code in the open pages. */
    method CopyOver(at: nat, s: seq<byte>)
      requires Mapped(bytes, at, |s|)
      requires unlocked.Some? && unlocked.value.begin <= at && at + |s| <= unlocked.value.end
      modifies this`bytes
      ensures bytes == Write(old(bytes), at, s)
    {
      bytes := Write(bytes, at, s);
    }

    /** A fixed mapping that replaces nothing, zero-filled: only fresh addresses are ever granted. */
    method MapFixed(begin: nat, size: nat) returns (ok: bool)
      modifies this
      ensures ok ==> forall a :: begin <= a < begin + size ==> a !in old(bytes)
      ensures bytes == if ok then old(bytes) + Zeros(begin, size) else old(bytes)
      ensures refused == old(refused) + if ok then 0 else 1
    {
      ok := *;
      if exists a :: begin <= a < begin + size && a in bytes {
        ok := false;
      }
      if ok {
        bytes := bytes + Zeros(begin, size);
      }
      refused := refused + if ok then 0 else 1;
    }

    /** The table of all mappings, sorted. It may be unreadable, and then empty, or miss some. */
    method Mappings() returns (table: seq<Range>)
      modifies this`refused
      ensures Table(table)
      ensures refused == old(refused) + if Lists(table, bytes) then 0 else 1
    {
      table := *;
      if !Table(table) {
        table := [];
      }
      refused := refused + if Lists(table, bytes) then 0 else 1;
    }

    method Unmap(begin: nat, end: nat)
      modifies this`bytes
      ensures bytes == map a | a in old(bytes) && !(begin <= a < end) :: old(bytes)[a]
    {
      bytes := map a | a in bytes && !(begin <= a < end) :: bytes[a];
    }

    /** Advice that a range is not needed: its bytes may read as zero afterwards, or stay. */
    method Discard(begin: nat, end: nat)
      modifies this`bytes
      ensures bytes.Keys == old(bytes.Keys)
      ensures forall a :: a in bytes && !(begin <= a < end) ==> bytes[a] == old(bytes)[a]
    {
      var ok: bool := *;
      if ok {
        bytes := map a | a in bytes :: if begin <= a < end then 0 else bytes[a];
      }
    }

    /** Write into reserved memory, which is writable until it is made executable. */
    method Copy(at: nat, s: seq<byte>)
      requires Mapped(bytes, at, |s|)
      modifies this`bytes
      ensures bytes == Write(old(bytes), at, s)
    {
      bytes := Write(bytes, at, s);
    }
  }
}
