/** The transaction builder of clob/onchain.go: a list of operations that only grows, and an error that sticks. */
module TxBuilder {
  import opened Crypto
  import opened Encoding

  const MAX_UINT256 := 0xffffffffffffffffffffffffffffffffffffffffffffffffffffffffffffffff
  const CALL_TYPE_CALL := 1

  /** The addresses an OnChainClient works with. */
  datatype Client = Client(collateral: Address, ctf: Address, adapter: Address, negRiskAdapter: Address)

  /** What is handed to the ABI packer; the fixed arguments of a method are left to it. */
  datatype Call =
    | SplitPosition(collateralToken: Address, conditionId: Word, amount: int)
    | MergePositions(collateralToken: Address, conditionId: Word, amount: int)
    | ConvertPositions(marketId: Word, indexSet: int, amount: int)
    | RedeemPositions(collateralToken: Address, conditionId: Word)
    | ApproveSpender(spender: Address, value: int)
    | SetApprovalForAll(operator: Address)

  datatype Packed = Calldata(data: Bytes) | Refused(error: string)

  type Packer = Call -> Packed

  datatype Op = Op(target: Address, calldata: Bytes)

  datatype ProxyCall = ProxyCall(typeCode: nat, to: Address, value: int, data: Bytes)

  /** What a builder is asked for; ids are the bytes of the hex string, and more than 32 of them make the code panic. */
  type Id = b: Bytes | |b| <= 32

  datatype Request =
    | Split(conditionId: Id, amount: int, negRisk: bool)
    | Merge(conditionId: Id, amount: int, negRisk: bool)
    | Convert(marketId: Id, indexSet: int, amount: int)
    | Redeem(conditionId: Id)
    | Approve(negRisk: bool)

  /** copy(id[32-len(b):], b) */
  function PadLeft(id: Id): Word {
    Zeros(32 - |id|) + id
  }

  lemma PaddingKeepsNumber(id: Id)
    ensures ToNat(PadLeft(id)) == ToNat(id)
  {
    ZerosKeepValue(32 - |id|, id);
  }

  /** Padding keeps the number an id stands for, and so confuses only ids that are the same number. */
  lemma PaddingBinds(a: Id, b: Id)
    ensures ToNat(PadLeft(a)) == ToNat(a)
    ensures PadLeft(a) == PadLeft(b) <==> ToNat(a) == ToNat(b)
  {
    PaddingKeepsNumber(a);
    PaddingKeepsNumber(b);
    SameNumberSameWord(PadLeft(a), PadLeft(b));
  }

  lemma SameNumberSameWord(v: Word, w: Word)
    ensures v == w <==> ToNat(v) == ToNat(w)
  {
    if ToNat(v) == ToNat(w) {
      ToNatInjective(v, w);
    }
  }

  // ----- The specification -----

  datatype Target = Target(address: Address, call: Call)

  function AdapterFor(c: Client, negRisk: bool): Address {
    if negRisk then c.negRiskAdapter else c.adapter
  }

  /** The contract calls a request stands for. */
  function TargetsOf(c: Client, r: Request): seq<Target> {
    match r
    case Split(id, amount, negRisk) =>
      [Target(AdapterFor(c, negRisk), SplitPosition(c.collateral, PadLeft(id), amount))]
    case Merge(id, amount, negRisk) =>
      [Target(AdapterFor(c, negRisk), MergePositions(c.collateral, PadLeft(id), amount))]
    case Convert(id, indexSet, amount) => [Target(c.negRiskAdapter, ConvertPositions(PadLeft(id), indexSet, amount))]
    case Redeem(id) => [Target(c.adapter, RedeemPositions(c.collateral, PadLeft(id)))]
    case Approve(negRisk) =>
      [Target(c.collateral, ApproveSpender(AdapterFor(c, negRisk), MAX_UINT256)),
       Target(c.ctf, SetApprovalForAll(AdapterFor(c, negRisk)))]
  }

  function AllTargets(c: Client, requests: seq<Request>): seq<Target> {
    if requests == [] then [] else AllTargets(c, requests[..|requests| - 1]) + TargetsOf(c, requests[|requests| - 1])
  }

  datatype State = State(ops: seq<Op>, err: Option<string>)

  const EMPTY := State([], None)

  function Add(pack: Packer, s: State, t: Target): State {
    if s.err.Some? then s
    else
      match pack(t.call)
      case Calldata(data) => s.(ops := s.ops + [Op(t.address, data)])
      case Refused(error) => s.(err := Some(error))
  }

  function AddAll(pack: Packer, s: State, ts: seq<Target>): State {
    if ts == [] then s else Add(pack, AddAll(pack, s, ts[..|ts| - 1]), ts[|ts| - 1])
  }

  /** A builder after a list of requests. */
  function After(c: Client, pack: Packer, requests: seq<Request>): State {
    if requests == [] then EMPTY
    else AddAll(pack, After(c, pack, requests[..|requests| - 1]), TargetsOf(c, requests[|requests| - 1]))
  }

  lemma MaxInBytes()
    ensures MAX_UINT256 == Pow256(32) - 1
  {
    assert Pow256(8) == 0x1_0000_0000_0000_0000;
    Pow256Adds(8, 8);
    Pow256Adds(16, 16);
  }

  datatype Calls = Calls(calls: seq<ProxyCall>) | PackingFailed(error: string) | EmptyTransaction

  /** One call is packed for one address: an operation more, or its error; nothing after an error. */
  predicate Appends(pack: Packer, before: State, after: State, target: Address, call: Call) {
    if before.err.Some? then after == before
    else
      match pack(call)
      case Calldata(data) => after == State(before.ops + [Op(target, data)], None)
      case Refused(error) => after == State(before.ops, Some(error))
  }

  /** The same for two calls; the first operation stays when the second call is refused. */
  predicate AppendsBoth(pack: Packer, before: State, after: State, target: Address, call: Call, target': Address,
                        call': Call) {
    if before.err.Some? then after == before
    else
      match pack(call)
      case Refused(error) => after == State(before.ops, Some(error))
      case Calldata(data) =>
        match pack(call')
        case Refused(error) => after == State(before.ops + [Op(target, data)], Some(error))
        case Calldata(data') => after == State(before.ops + [Op(target, data), Op(target', data')], None)
  }

  // ----- The class -----

  class TxBuilder {
    const oc: Client
    const pack: Packer
    var ops: seq<Op>
    var err: Option<string>

    ghost function Value(): State
      reads this
    {
      State(ops, err)
    }

    constructor (oc: Client, pack: Packer)
      ensures this.oc == oc && this.pack == pack && Value() == EMPTY
    {
      this.oc, this.pack, ops, err := oc, pack, [], None;
    }

    method Split(conditionId: Id, amount: int, negRisk: bool)
      modifies this
      ensures Value() == AddAll(pack, old(Value()), TargetsOf(oc, Request.Split(conditionId, amount, negRisk)))
      ensures Appends(pack, old(Value()), Value(), if negRisk then oc.negRiskAdapter else oc.adapter,
                      SplitPosition(oc.collateral, Zeros(32 - |conditionId|) + conditionId, amount))
    {
      AddSingle(pack, Value(),
                Target(AdapterFor(oc, negRisk), SplitPosition(oc.collateral, PadLeft(conditionId), amount)));
      if err.Some? {
        return;
      }
      var target := if negRisk then oc.negRiskAdapter else oc.adapter;
      match pack(SplitPosition(oc.collateral, PadLeft(conditionId), amount)) {
        case Refused(error) => err := Some(error);
        case Calldata(data) => ops := ops + [Op(target, data)];
      }
    }

    method Merge(conditionId: Id, amount: int, negRisk: bool)
      modifies this
      ensures Value() == AddAll(pack, old(Value()), TargetsOf(oc, Request.Merge(conditionId, amount, negRisk)))
      ensures Appends(pack, old(Value()), Value(), if negRisk then oc.negRiskAdapter else oc.adapter,
                      MergePositions(oc.collateral, Zeros(32 - |conditionId|) + conditionId, amount))
    {
      AddSingle(pack, Value(),
                Target(AdapterFor(oc, negRisk), MergePositions(oc.collateral, PadLeft(conditionId), amount)));
      if err.Some? {
        return;
      }
      var target := if negRisk then oc.negRiskAdapter else oc.adapter;
      match pack(MergePositions(oc.collateral, PadLeft(conditionId), amount)) {
        case Refused(error) => err := Some(error);
        case Calldata(data) => ops := ops + [Op(target, data)];
      }
    }

    method Convert(marketId: Id, indexSet: int, amount: int)
      modifies this
      ensures Value() == AddAll(pack, old(Value()), TargetsOf(oc, Request.Convert(marketId, indexSet, amount)))
      ensures Appends(pack, old(Value()), Value(), oc.negRiskAdapter,
                      ConvertPositions(Zeros(32 - |marketId|) + marketId, indexSet, amount))
    {
      AddSingle(pack, Value(), Target(oc.negRiskAdapter, ConvertPositions(PadLeft(marketId), indexSet, amount)));
      if err.Some? {
        return;
      }
      match pack(ConvertPositions(PadLeft(marketId), indexSet, amount)) {
        case Refused(error) => err := Some(error);
        case Calldata(data) => ops := ops + [Op(oc.negRiskAdapter, data)];
      }
    }

    method Redeem(conditionId: Id)
      modifies this
      ensures Value() == AddAll(pack, old(Value()), TargetsOf(oc, Request.Redeem(conditionId)))
      ensures Appends(pack, old(Value()), Value(), oc.adapter,
                      RedeemPositions(oc.collateral, Zeros(32 - |conditionId|) + conditionId))
    {
      AddSingle(pack, Value(), Target(oc.adapter, RedeemPositions(oc.collateral, PadLeft(conditionId))));
      if err.Some? {
        return;
      }
      match pack(RedeemPositions(oc.collateral, PadLeft(conditionId))) {
        case Refused(error) => err := Some(error);
        case Calldata(data) => ops := ops + [Op(oc.adapter, data)];
      }
    }

    /** Two operations; when the second cannot be packed, the first one stays. */
    method Approve(negRisk: bool)
      modifies this
      ensures Value() == AddAll(pack, old(Value()), TargetsOf(oc, Request.Approve(negRisk)))
      ensures var adapter := if negRisk then oc.negRiskAdapter else oc.adapter;
              AppendsBoth(pack, old(Value()), Value(), oc.collateral, ApproveSpender(adapter, Pow256(32) - 1),
                          oc.ctf, SetApprovalForAll(adapter))
    {
      ghost var before := Value();
      MaxInBytes();
      ghost var ts := TargetsOf(oc, Request.Approve(negRisk));
      AddSingle(pack, before, ts[0]);
      assert ts[..1] == [ts[0]];
      if err.Some? {
        return;
      }
      var spender := if negRisk then oc.negRiskAdapter else oc.adapter;
      match pack(ApproveSpender(spender, MAX_UINT256)) {
        case Refused(error) => err := Some(error); return;
        case Calldata(data) => ops := ops + [Op(oc.collateral, data)];
      }
      var operator := if negRisk then oc.negRiskAdapter else oc.adapter;
      match pack(SetApprovalForAll(operator)) {
        case Refused(error) => err := Some(error); return;
        case Calldata(cd) => ops := ops + [Op(oc.ctf, cd)];
      }
    }

    /** proxyCalls */
    method ProxyCalls() returns (result: Calls)
      ensures result == CallsOf(Value())
      ensures err.Some? ==> result == PackingFailed(err.value)
      ensures err.None? && ops == [] ==> result == EmptyTransaction
      ensures err.None? && ops != [] ==> result.Calls? && |result.calls| == |ops|
      ensures err.None? && ops != [] ==>
                forall k | 0 <= k < |ops| :: result.calls[k] == ProxyCall(1, ops[k].target, 0, ops[k].calldata)
    {
      if err.Some? {
        return PackingFailed(err.value);
      }
      if |ops| == 0 {
        return EmptyTransaction;
      }
      var calls := new ProxyCall[|ops|](_ => ProxyCall(0, oc.collateral, 0, []));
      for i := 0 to |ops|
        invariant forall k | 0 <= k < i :: calls[k] == ProxyCall(CALL_TYPE_CALL, ops[k].target, 0, ops[k].calldata)
      {
        calls[i] := ProxyCall(CALL_TYPE_CALL, ops[i].target, 0, ops[i].calldata);
      }
      result := Calls(calls[..]);
      assert calls[..] == CallsOf(Value()).calls;
    }
  }

  function CallsOf(s: State): Calls {
    if s.err.Some? then PackingFailed(s.err.value)
    else if s.ops == [] then EmptyTransaction
    else
      Calls(seq(|s.ops|, k requires 0 <= k < |s.ops| =>
        ProxyCall(CALL_TYPE_CALL, s.ops[k].target, 0, s.ops[k].calldata)))
  }

  lemma AddSingle(pack: Packer, s: State, t: Target)
    ensures AddAll(pack, s, [t]) == Add(pack, s, t)
  {
    assert [t][..0] == [];
  }

  /** The contract calls of each request, and where they go. */
  lemma RequestsInCalls(c: Client, r: Request)
    ensures var ts := TargetsOf(c, r);
            match r
            case Split(id, amount, negRisk) =>
              ts == [Target(if negRisk then c.negRiskAdapter else c.adapter,
                            SplitPosition(c.collateral, Zeros(32 - |id|) + id, amount))]
            case Merge(id, amount, negRisk) =>
              ts == [Target(if negRisk then c.negRiskAdapter else c.adapter,
                            MergePositions(c.collateral, Zeros(32 - |id|) + id, amount))]
            case Convert(id, indexSet, amount) =>
              ts == [Target(c.negRiskAdapter, ConvertPositions(Zeros(32 - |id|) + id, indexSet, amount))]
            case Redeem(id) => ts == [Target(c.adapter, RedeemPositions(c.collateral, Zeros(32 - |id|) + id))]
            case Approve(negRisk) =>
              var adapter := if negRisk then c.negRiskAdapter else c.adapter;
              ts == [Target(c.collateral, ApproveSpender(adapter, Pow256(32) - 1)),
                     Target(c.ctf, SetApprovalForAll(adapter))]
  {
    MaxInBytes();
  }

  // ----- Every list of requests -----

  lemma {:induction false} AddConcat(pack: Packer, s: State, a: seq<Target>, b: seq<Target>)
    ensures AddAll(pack, s, a + b) == AddAll(pack, AddAll(pack, s, a), b)
  {
    if b == [] {
      assert a + b == a;
    } else {
      assert (a + b)[..|a + b| - 1] == a + b[..|b| - 1];
      AddConcat(pack, s, a, b[..|b| - 1]);
    }
  }

  /** The requests amount to one flat list of contract calls, packed in order. */
  lemma {:induction false} AfterIsFlat(c: Client, pack: Packer, requests: seq<Request>)
    ensures After(c, pack, requests) == AddAll(pack, EMPTY, AllTargets(c, requests))
  {
    if requests != [] {
      var before, last := requests[..|requests| - 1], requests[|requests| - 1];
      AfterIsFlat(c, pack, before);
      AddConcat(pack, EMPTY, AllTargets(c, before), TargetsOf(c, last));
    }
  }

  /** The first n calls of a flat list are in ops, and the error, if there is one, is that of call n. */
  ghost predicate PackedUpTo(pack: Packer, ts: seq<Target>, n: nat, s: State) {
    && n <= |ts| && |s.ops| == n
    && (forall i | 0 <= i < n :: pack(ts[i].call) == Calldata(s.ops[i].calldata) && s.ops[i].target == ts[i].address)
    && match s.err
       case None => n == |ts|
       case Some(error) => n < |ts| && pack(ts[n].call) == Refused(error)
  }

  lemma {:induction false} PackedUpToFirstError(pack: Packer, ts: seq<Target>)
    ensures PackedUpTo(pack, ts, |AddAll(pack, EMPTY, ts).ops|, AddAll(pack, EMPTY, ts))
  {
    if ts != [] {
      PackedUpToFirstError(pack, ts[..|ts| - 1]);
    }
  }

  /**
   * After any list of requests, the operations are the contract calls of the requests in order, up to the first one
   * that cannot be packed; its error is the builder's error, and nothing that comes later changes either.
   */
  lemma OpsAreRequestsUpToFirstError(c: Client, pack: Packer, requests: seq<Request>)
    ensures PackedUpTo(pack, AllTargets(c, requests), |After(c, pack, requests).ops|, After(c, pack, requests))
  {
    AfterIsFlat(c, pack, requests);
    PackedUpToFirstError(pack, AllTargets(c, requests));
  }

  lemma {:induction false} ErrorSticks(c: Client, pack: Packer, requests: seq<Request>, more: seq<Request>)
    requires After(c, pack, requests).err.Some?
    ensures After(c, pack, requests + more) == After(c, pack, requests)
  {
    if more == [] {
      assert requests + more == requests;
    } else {
      var last := more[|more| - 1];
      assert (requests + more)[..|requests + more| - 1] == requests + more[..|more| - 1];
      ErrorSticks(c, pack, requests, more[..|more| - 1]);
      AddToError(pack, After(c, pack, requests), TargetsOf(c, last));
    }
  }

  lemma {:induction false} AddToError(pack: Packer, s: State, ts: seq<Target>)
    requires s.err.Some?
    ensures AddAll(pack, s, ts) == s
  {
    if ts != [] {
      AddToError(pack, s, ts[..|ts| - 1]);
    }
  }

  /**
   * All or nothing: a call list comes out exactly when there are requests and every one of their calls can be packed.
   */
  lemma CallsAreAllOrNothing(c: Client, pack: Packer, requests: seq<Request>)
    ensures CallsOf(After(c, pack, requests)).Calls?
            <==> requests != [] && forall t | t in AllTargets(c, requests) :: pack(t.call).Calldata?
    ensures CallsOf(After(c, pack, requests)).Calls? ==>
              var ts, calls := AllTargets(c, requests), CallsOf(After(c, pack, requests)).calls;
              && |calls| == |ts|
              && forall i | 0 <= i < |ts| ::
                   && pack(ts[i].call) == Calldata(calls[i].data)
                   && calls[i] == ProxyCall(1, ts[i].address, 0, calls[i].data)
    ensures CallsOf(After(c, pack, requests)).EmptyTransaction? <==> requests == []
  {
    var ts, s := AllTargets(c, requests), After(c, pack, requests);
    OpsAreRequestsUpToFirstError(c, pack, requests);
    assert s.err.Some? ==> ts[|s.ops|] in ts;
    TargetsExist(c, requests);
  }

  lemma TargetsExist(c: Client, requests: seq<Request>)
    ensures AllTargets(c, requests) == [] <==> requests == []
  {
  }

  /** Approve leaves its first operation behind when the second cannot be packed, but no call list comes out of it. */
  lemma HalfApprove(c: Client, pack: Packer, negRisk: bool, data: Bytes, error: string)
    requires pack(ApproveSpender(AdapterFor(c, negRisk), MAX_UINT256)) == Calldata(data)
    requires pack(SetApprovalForAll(AdapterFor(c, negRisk))) == Refused(error)
    ensures After(c, pack, [Approve(negRisk)]) == State([Op(c.collateral, data)], Some(error))
    ensures CallsOf(After(c, pack, [Approve(negRisk)])) == PackingFailed(error)
  {
    var ts := TargetsOf(c, Approve(negRisk));
    assert [Approve(negRisk)][..0] == [];
    AddSingle(pack, EMPTY, ts[0]);
    assert ts[..1] == [ts[0]];
  }
}
