/** One browser module on its way from a manifest to activation. */
module WasmCandidate {
  import opened Wrappers
  import opened Wire

  const INTERFACE_VERSION: nat := 1

  /** The size of the module descriptor on wasm32. */
  const DESCRIPTOR_SIZE: nat := 20

  datatype Status = Loading | Ready | Rejected | Cancelled | Activated

  datatype Reason = NoReason | InvalidContract | LoadFailed | Integrity | MissingDescriptor | Incompatible | InvalidDescriptor

  /** What a module must provide: an exact ordered entry set. */
  datatype Contract = Contract(abi: string, entries: seq<string>, sha256: string)

  /** An entry as the module describes it; an address of zero is null. */
  datatype DescriptorEntry = DescriptorEntry(name: Option<string>, address: nat)

  datatype Descriptor = Descriptor(version: nat, size: nat, abi: Option<string>, count: nat, entries: Option<seq<DescriptorEntry>>)

  datatype LoadResult = Image(descriptor: Option<Descriptor>) | NoImage(mismatch: bool)

  /** An owned entry set. */
  datatype Module = Module(entries: seq<(string, nat)>)

  /** The module provides the entries in order, all with an address. */
  predicate Provides(m: Module, entries: seq<string>) {
    |m.entries| == |entries| && forall i :: 0 <= i < |entries| ==> m.entries[i].0 == entries[i] && m.entries[i].1 != 0
  }

  /** The address of an entry, zero when the module has none of that name. */
  function AddressOf(m: Module, name: string): nat
    decreases |m.entries|
  {
    if m.entries == [] then 0
    else if m.entries[0].0 == name then m.entries[0].1
    else AddressOf(Module(m.entries[1..]), name)
  }

  lemma {:induction false} ProvidedAddress(m: Module, entries: seq<string>, name: string)
    requires Provides(m, entries)
    ensures name in entries <==> AddressOf(m, name) != 0
    ensures name in entries ==> (name, AddressOf(m, name)) in m.entries
    decreases |entries|
  {
    if entries != [] {
      var rest := Module(m.entries[1..]);
      assert Provides(rest, entries[1..]) by {
        assert forall i :: 0 <= i < |entries| - 1 ==> rest.entries[i] == m.entries[i + 1] && entries[1..][i] == entries[i + 1];
      }
      ProvidedAddress(rest, entries[1..], name);
      assert entries == [entries[0]] + entries[1..] && m.entries == [m.entries[0]] + m.entries[1..];
    }
  }

  predicate Plain(s: string) {
    s != "" && 0 as char !in s
  }

  predicate ContractOk(path: string, c: Contract) {
    && Plain(path) && Plain(c.abi) && c.entries != [] && Sha256(c.sha256)
    && (forall i :: 0 <= i < |c.entries| ==> Plain(c.entries[i]))
    && forall i, j :: 0 <= i < j < |c.entries| ==> c.entries[i] != c.entries[j]
  }

  /** A contract is sound when it names its artifact and its ABI, states a digest, and lists at least one entry and none
      twice; names are nonempty and contain no terminator. */
  lemma ContractSound(path: string, c: Contract)
    ensures ContractOk(path, c)
       <==> 0 < |path| && 0 < |c.abi| && 0 < |c.entries| && |c.sha256| == 64
            && (forall x :: x in path || x in c.abi ==> x as int != 0)
            && (forall x :: x in c.sha256 ==> x in "0123456789abcdef")
            && (forall e :: e in c.entries ==> 0 < |e| && forall x :: x in e ==> x as int != 0)
            && (forall i: nat, j: nat :: i != j && i < |c.entries| && j < |c.entries| ==> c.entries[i] != c.entries[j])
  {
    DigestText(c.sha256);
  }

  predicate EntriesFit(c: Contract, entries: seq<DescriptorEntry>) {
    |entries| == |c.entries|
    && forall i :: 0 <= i < |entries| ==> entries[i].address != 0 && entries[i].name == Some(c.entries[i])
  }

  /** What a completed load means for a candidate that is still loading. */
  function Judge(c: Contract, result: LoadResult): Result<Module, Reason> {
    match result
    case NoImage(mismatch) => Error(if mismatch then Integrity else LoadFailed)
    case Image(descriptor) =>
      if descriptor.None? then Error(MissingDescriptor)
      else
        var d := descriptor.value;
        if d.version != INTERFACE_VERSION || d.size != DESCRIPTOR_SIZE then Error(Incompatible)
        else if d.abi != Some(c.abi) then Error(Incompatible)
        else if d.count != |c.entries| || d.entries.None? || |d.entries.value| != d.count then Error(InvalidDescriptor)
        else if !EntriesFit(c, d.entries.value) then Error(InvalidDescriptor)
        else Ok(Owned(d.entries.value))
  }

  function Owned(entries: seq<DescriptorEntry>): Module
    requires forall i :: 0 <= i < |entries| ==> entries[i].name.Some?
  {
    Module(seq(|entries|, i requires 0 <= i < |entries| => (entries[i].name.value, entries[i].address)))
  }

  /** Only a module that provides exactly the contract's entries is prepared. */
  lemma JudgedProvides(c: Contract, result: LoadResult)
    ensures Judge(c, result).Ok? ==> Provides(Judge(c, result).value, c.entries)
  {
  }

  /** The module describes itself in this layout, for this ABI, with the contract's entries in order and an address for each. */
  predicate Suits(c: Contract, d: Descriptor) {
    && d.version == 1 && d.size == 20 && d.abi.Some? && d.abi.value == c.abi
    && d.count == |c.entries| && d.entries.Some? && |d.entries.value| == |c.entries|
    && forall i :: 0 <= i < |c.entries| ==>
         d.entries.value[i].name.Some? && d.entries.value[i].name.value == c.entries[i] && d.entries.value[i].address > 0
  }

  /** A loaded module is prepared exactly when its descriptor suits the contract, with the addresses it states; every other
      answer is refused for the reason that comes first. */
  lemma JudgedExact(c: Contract, result: LoadResult)
    ensures Judge(c, result).Ok? <==> result.Image? && result.descriptor.Some? && Suits(c, result.descriptor.value)
    ensures Judge(c, result).Ok? ==>
              forall i :: 0 <= i < |c.entries| ==>
                i < |Judge(c, result).value.entries| && Judge(c, result).value.entries[i] == (c.entries[i], result.descriptor.value.entries.value[i].address)
    ensures result.NoImage? ==> Judge(c, result) == Error(if result.mismatch then Integrity else LoadFailed)
    ensures result == Image(None) <==> Judge(c, result) == Error(MissingDescriptor)
    ensures Judge(c, result) == Error(Incompatible)
            <==> result.Image? && result.descriptor.Some?
                 && var d := result.descriptor.value; !(d.version == 1 && d.size == 20 && d.abi.Some? && d.abi.value == c.abi)
  {
  }

  /** The only ways a status moves. */
  predicate Moves(a: Status, b: Status) {
    match a
    case Loading => b == Ready || b == Rejected || b == Cancelled
    case Ready => b == Activated || b == Cancelled
    case _ => false
  }

  class Candidate {
    const contract: Contract
    var status: Status
    var reason: Reason
    var prepared: Option<Module>

    /** Every status so far. */
    ghost var history: seq<Status>

    ghost predicate Valid()
      reads this
    {
      && history != [] && history[|history| - 1] == status && (history[0] == Loading || history[0] == Rejected)
      && (forall i :: 0 < i < |history| ==> Moves(history[i - 1], history[i]))
      && (prepared.Some? <==> status == Ready)
      && (prepared.Some? ==> Provides(prepared.value, contract.entries))
      && (reason != NoReason <==> status == Rejected)
    }

    /** Ready with the module, or rejected with the reason. */
    ghost predicate Decided(judged: Result<Module, Reason>)
      reads this
    {
      match judged
      case Ok(m) => status == Ready && prepared == Some(m)
      case Error(e) => status == Rejected && reason == e
    }

    constructor Refused(reason: Reason)
      requires reason != NoReason
      ensures Valid() && status == Rejected && this.reason == reason && contract == Contract("", [], "")
    {
      contract := Contract("", [], "");
      status, this.reason, prepared, history := Rejected, reason, None, [Rejected];
    }

    /** A contract that is not sound is rejected at once; otherwise the loader is asked for the module. */
    constructor Load(path: string, contract: Contract)
      ensures Valid() && this.contract == contract
      ensures if ContractOk(path, contract) then status == Loading else status == Rejected && reason == InvalidContract
    {
      this.contract := contract;
      var ok := ContractOk(path, contract);
      status := if ok then Loading else Rejected;
      reason := if ok then NoReason else InvalidContract;
      prepared := None;
      history := [if ok then Loading else Rejected];
    }

    /** The loader's answer. It comes to nothing unless the candidate is still loading. */
    method Complete(result: LoadResult)
      requires Valid()
      modifies this
      ensures Valid() && old(history) <= history
      ensures old(status) != Loading ==> unchanged(this)
      ensures old(status) == Loading ==> Decided(Judge(contract, result))
    {
      if status != Loading {
        return;
      }
      JudgedProvides(contract, result);
      var judged := Judge(contract, result);
      if judged.Ok? {
        prepared, status := Some(judged.value), Ready;
      } else {
        reason, status := judged.error, Rejected;
      }
      history := history + [status];
    }

    method Cancel()
      requires Valid()
      modifies this
      ensures Valid() && old(history) <= history
      ensures status == if old(status) == Loading || old(status) == Ready then Cancelled else old(status)
      ensures old(status) != Loading && old(status) != Ready ==> unchanged(this)
    {
      if status == Loading || status == Ready {
        prepared, status := None, Cancelled;
        history := history + [Cancelled];
      }
    }

    /** Activation takes the module of a ready candidate, once. */
    method Take() returns (m: Option<Module>)
      requires Valid()
      modifies this
      ensures Valid() && old(history) <= history
      ensures m == if old(status) == Ready then old(prepared) else None
      ensures if old(status) == Ready then status == Activated else unchanged(this)
    {
      if status != Ready {
        return None;
      }
      m := prepared;
      prepared, status := None, Activated;
      history := history + [Activated];
    }
  }
}
