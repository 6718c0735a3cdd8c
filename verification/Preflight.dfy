/** The gas accounting of preflightProxyTxBatch in clob/relayer.go. */
module Preflight {
  import opened Encoding
  import opened Crypto
  import opened GoInts
  import opened RelayCall
  import opened GasGuard
  import opened GuardSearch
  import Confirmation

  const RELAYER_GAS_MARGIN_MIN := 50_000
  const RELAYER_GAS_MARGIN_BPS := 1_500

  /** relayerGasMargin: a share of the estimate, in uint64 arithmetic, but never less than the minimum. */
  function GasMargin(estimate: uint64): (margin: uint64)
    ensures margin >= RELAYER_GAS_MARGIN_MIN
  {
    var pct := estimate * RELAYER_GAS_MARGIN_BPS % TWO_TO_64 / 10_000;
    if pct < RELAYER_GAS_MARGIN_MIN then RELAYER_GAS_MARGIN_MIN else pct
  }

  function Max(a: int, b: int): int {
    if a < b then b else a
  }

  /** The margin is 15 percent with a floor of 50000 exactly when the product does not wrap; otherwise it is less. */
  lemma MarginIsFifteenPercent(estimate: uint64)
    ensures GasMargin(estimate) == Max(50_000, estimate * 15 / 100) <==> estimate * 1_500 < TWO_TO_64
    ensures estimate * 1_500 >= TWO_TO_64 ==> GasMargin(estimate) < estimate * 15 / 100
  {
    var p := estimate * 1_500;
    assert p / 10_000 == estimate * 15 / 100;
    if p >= TWO_TO_64 {
      assert p % TWO_TO_64 <= p - TWO_TO_64;
    }
  }

  datatype Report = Report(
    ops: nat, outerGasLimit: uint64, encodedFunctionBytes: nat, innerGasEstimate: uint64, gasMargin: uint64,
    signedGasLimit: uint64, relayCallBytes: nat, relayCallIntrinsicGas: uint64, approxMaxSignedGas: uint64,
    approxGuardHeadroom: int64, relayHubSimulationOK: bool)

  /** The node's answer to simulating the relayed call. */
  datatype Simulation = Succeeds | OutOfGas | Reverts

  /** simulateRelayHubGuard: an error is about gas when its text says so. */
  function SimulationOf(error: Option<string>): Simulation {
    match error
    case None => Succeeds
    case Some(text) =>
      var msg := Confirmation.Lower(text);
      if Confirmation.Contains(msg, "not enough gasleft") || Confirmation.Contains(msg, "out of gas") then OutOfGas
      else Reverts
  }

  ghost predicate SaysOutOfGas(text: string) {
    Confirmation.Mentions(text, "not enough gasleft") || Confirmation.Mentions(text, "out of gas")
  }

  /** Whatever the case of its letters. */
  lemma SimulationInWords(error: Option<string>)
    ensures SimulationOf(error) == Succeeds <==> error == None
    ensures SimulationOf(error) == OutOfGas <==> error.Some? && SaysOutOfGas(error.value)
  {
    if error.Some? {
      Confirmation.ContainsIsMentions(error.value, "not enough gasleft");
      Confirmation.ContainsIsMentions(error.value, "out of gas");
    }
  }

  /** The node's answers to the calls it may be asked to simulate. */
  function SimulationsOf(node: Bytes -> Option<string>): Bytes -> Simulation {
    (data: Bytes) => SimulationOf(node(data))
  }

  datatype Outcome =
    | Accepted(report: Report, sig: Signature, relayCallData: Bytes)
    | EstimateReverted(report: Report)
    | SignFailure
    | BatchTooLarge(report: Report)
    | InnerCallFailed(report: Report)

  /** The limit that gets signed: estimate and margin, in uint64 arithmetic. */
  function SignedLimit(estimate: uint64): uint64 {
    (estimate + GasMargin(estimate)) % TWO_TO_64
  }

  /** The report as far as it is filled in before the guard is evaluated. */
  function SignedReport(r: Relay, ops: nat, outer: uint64, estimate: uint64): Report {
    Report(ops, outer, |r.encodedFunction|, estimate, GasMargin(estimate), SignedLimit(estimate), 0, 0, 0, 0, false)
  }

  /** The report once the guard has been evaluated. */
  function GuardedReport(signed: Report, callBytes: nat, guard: Guard): Report {
    var max := if guard.TooLarge? then 0 else guard.max;
    signed.(relayCallBytes := callBytes, relayCallIntrinsicGas := guard.intrinsic, approxMaxSignedGas := max,
            approxGuardHeadroom := ToInt64(ToInt64(max) - ToInt64(signed.signedGasLimit)))
  }

  /** A call signed for one gas limit, packed, and measured against the guard. */
  datatype Signing = Unsigned | Signed(sig: Signature, data: Bytes, guard: Guard)

  function SigningOf(r: Relay, outer: uint64, gas: uint64): Signing {
    match SignRelay(r, gas)
    case None => Unsigned
    case Some(sig) => Signed(sig, Calldata(r, gas, sig), GuardOf(Calldata(r, gas, sig), outer))
  }

  function Decide(signed: Report, s: Signing, simulate: Bytes -> Simulation): Outcome {
    match s
    case Unsigned => SignFailure
    case Signed(sig, data, guard) =>
      var report := GuardedReport(signed, |data|, guard);
      if guard.TooLarge? || signed.signedGasLimit > guard.max then BatchTooLarge(report) else
        match simulate(data)
        case Succeeds => Accepted(report.(relayHubSimulationOK := true), sig, data)
        case OutOfGas => BatchTooLarge(report)
        case Reverts => InnerCallFailed(report)
  }

  function OutcomeOf(r: Relay, ops: nat, outer: uint64, estimate: Option<uint64>,
                     simulate: Bytes -> Simulation): Outcome {
    match estimate
    case None => EstimateReverted(Report(ops, outer, |r.encodedFunction|, 0, 0, 0, 0, 0, 0, 0, false))
    case Some(e) =>
      var signed := SignedReport(r, ops, outer, e);
      Decide(signed, SigningOf(r, outer, signed.signedGasLimit), simulate)
  }

  /** preflightProxyTxBatch, from the estimate to the simulation: the report is filled in field by field. */
  method PreflightProxyTxBatch(r: Relay, ops: nat, configuredOuter: uint64, estimate: Option<uint64>,
                               node: Bytes -> Option<string>) returns (res: Outcome)
    ensures res == OutcomeOf(r, ops, OuterGasLimit(configuredOuter), estimate, SimulationsOf(node))
    ensures r.Valid() ==>
      IsOutcome(r, ops, if configuredOuter == 0 then 10_000_000 else configuredOuter, estimate, SimulationsOf(node),
                res)
    ensures r.Valid() && res.Accepted? ==> HubAccepts(r, res.relayCallData)
  {
    if r.Valid() {
      OutcomeMeetsSpecification(r, ops, OuterGasLimit(configuredOuter), estimate, SimulationsOf(node));
      if estimate.Some? {
        AcceptedIsAccepted(r, ops, OuterGasLimit(configuredOuter), estimate.value, SimulationsOf(node));
      }
    }
    var report := Report(ops, OuterGasLimit(configuredOuter), |r.encodedFunction|, 0, 0, 0, 0, 0, 0, 0, false);
    if estimate.None? {
      return EstimateReverted(report);
    }
    report := FillEstimate(report, estimate.value);
    assert report == SignedReport(r, ops, OuterGasLimit(configuredOuter), estimate.value);
    var signing := SignAndMeasure(r, report.outerGasLimit, report.signedGasLimit);
    res := FinishReport(report, signing, SimulationsOf(node));
  }

  /** The fields that follow from the estimate. */
  method FillEstimate(start: Report, estimate: uint64) returns (report: Report)
    ensures report == start.(innerGasEstimate := estimate, gasMargin := GasMargin(estimate),
                             signedGasLimit := (estimate + GasMargin(estimate)) % TWO_TO_64)
  {
    var margin := GasMargin(estimate);
    var gasLimit: uint64 := (estimate + margin) % TWO_TO_64;
    report := start.(innerGasEstimate := estimate);
    report := report.(gasMargin := margin);
    report := report.(signedGasLimit := gasLimit);
  }

  /** The second half: the call's size and cost, what the guard leaves, the verdict, the simulation. */
  method FinishReport(signed: Report, signing: Signing, simulate: Bytes -> Simulation) returns (res: Outcome)
    ensures res == Decide(signed, signing, simulate)
    ensures signing.Unsigned? <==> res.SignFailure?
    ensures signing.Signed? ==>
      var fits := signing.guard.Limit? && signed.signedGasLimit <= signing.guard.max;
      && (res.InnerCallFailed? <==> fits && simulate(signing.data) == Reverts)
      && (res.BatchTooLarge? <==> !fits || simulate(signing.data) == OutOfGas)
      && (res.Accepted? <==> fits && simulate(signing.data) == Succeeds)
  {
    if signing.Unsigned? {
      return SignFailure;
    }
    var Signed(sig, data, guard) := signing;
    var report := signed;
    var maxGas: uint64 := if guard.TooLarge? then 0 else guard.max;
    report := report.(relayCallBytes := |data|);
    report := report.(relayCallIntrinsicGas := guard.intrinsic);
    report := report.(approxMaxSignedGas := maxGas);
    report := report.(approxGuardHeadroom := ToInt64(ToInt64(maxGas) - ToInt64(report.signedGasLimit)));
    if guard.TooLarge? {
      return BatchTooLarge(report);
    }
    if report.signedGasLimit > maxGas {
      return BatchTooLarge(report);
    }
    match simulate(data) {
      case Succeeds => res := Accepted(report.(relayHubSimulationOK := true), sig, data);
      case OutOfGas => res := BatchTooLarge(report);
      case Reverts => res := InnerCallFailed(report);
    }
  }

  /** signProxyRelay, packRelayCall and maxGuardRelayGasLimit in a row. */
  method SignAndMeasure(r: Relay, outer: uint64, gas: uint64) returns (s: Signing)
    ensures s == SigningOf(r, outer, gas)
  {
    var sig := SignProxyRelay(r, gas);
    if sig.None? {
      return Unsigned;
    }
    var data := Calldata(r, gas, sig.value);
    var guard := MaxGuardRelayGasLimit(data, outer);
    s := Signed(sig.value, data, guard);
  }

  // ----- What the accounting means -----

  lemma Int64Difference(max: uint64, gas: uint64)
    ensures var d := ToInt64(ToInt64(max) - ToInt64(gas));
            && d == ToInt64(max - gas)
            && (d == max - gas <==> -TWO_TO_63 <= max - gas < TWO_TO_63)
            && (max - gas >= TWO_TO_63 ==> d == max - gas - TWO_TO_64)
            && (max - gas < -TWO_TO_63 ==> d == max - gas + TWO_TO_64)
  {
    var d: int := max - gas;
    var y: int64 := if d >= TWO_TO_63 then d - TWO_TO_64 else if d < -TWO_TO_63 then d + TWO_TO_64 else d;
    WrapsTo(max, if max < TWO_TO_63 then max else max - TWO_TO_64);
    WrapsTo(gas, if gas < TWO_TO_63 then gas else gas - TWO_TO_64);
    WrapsTo(d, y);
    WrapsTo(ToInt64(max) - ToInt64(gas), y);
  }

  lemma WrapsTo(x: int, y: int64)
    requires x - y in {-TWO_TO_64, 0, TWO_TO_64}
    ensures ToInt64(x) == y
  {
  }

  /** The accounts of a report whose call has been measured against the guard. */
  ghost predicate Accounts(report: Report, outer: uint64, estimate: uint64, guard: Guard) {
    && report.innerGasEstimate == estimate && report.gasMargin == GasMargin(estimate)
    && report.signedGasLimit == SignedLimit(estimate) && report.outerGasLimit == outer
    && report.relayCallIntrinsicGas == guard.intrinsic
    && report.approxMaxSignedGas == (if guard.TooLarge? then 0 else guard.max)
    && report.approxGuardHeadroom == ToInt64(ToInt64(report.approxMaxSignedGas) - ToInt64(report.signedGasLimit))
  }

  /** The guard kept its promise: what it leaves and what the call costs add up to the outer limit. */
  ghost predicate Balanced(guard: Guard, outer: uint64) {
    guard.Limit? ==> guard.max + guard.intrinsic + 375_000 == outer
  }

  lemma DecideAccounts(r: Relay, ops: nat, outer: uint64, estimate: uint64, s: Signing, simulate: Bytes -> Simulation)
    requires s.Signed?
    ensures var signed := SignedReport(r, ops, outer, estimate);
            var res := Decide(signed, s, simulate);
            && !res.SignFailure? && !res.EstimateReverted? && Accounts(res.report, outer, estimate, s.guard)
            && res.report.relayCallBytes == |s.data|
            && (res.Accepted? ==> res.sig == s.sig && res.relayCallData == s.data && simulate(s.data).Succeeds?)
            && (res.Accepted? || res.InnerCallFailed? ==> s.guard.Limit? && signed.signedGasLimit <= s.guard.max)
            && (s.guard.TooLarge? || signed.signedGasLimit > s.guard.max ==> res.BatchTooLarge?)
  {
  }

  /** The guard maximum for the signed limit, known from the inputs up to the zero bytes of the signature. */
  function MaxFor(r: Relay, outer: uint64, estimate: uint64, zeros: nat): int {
    PlainMax(r, outer, SignedLimit(estimate)) + 12 * zeros
  }

  lemma SigningIsBalanced(r: Relay, outer: uint64, gas: uint64)
    requires r.Valid() && SigningOf(r, outer, gas).Signed?
    ensures var s := SigningOf(r, outer, gas);
            var m := PlainMax(r, outer, gas) + 12 * ZeroCount(s.sig);
            && SignRelay(r, gas) == Some(s.sig)
            && s.data == Calldata(r, gas, s.sig) && s.guard == GuardOf(s.data, outer)
            && Balanced(s.guard, outer) && s.guard.intrinsic == 21_000 + DataGas(s.data)
            && (s.guard.Limit? <==> m > 0) && (s.guard.Limit? ==> s.guard.max == m)
            && m + 396_000 + DataGas(s.data) == outer
  {
    var sig := SignRelay(r, gas).value;
    CalldataGas(r, outer, gas, sig);
    GuardIsExact(Calldata(r, gas, sig), outer);
  }

  /** Given the guard maximum, this decides from the inputs whether the accounts add up without wrapping around. */
  predicate KeepsGas(estimate: uint64, max: int) {
    if estimate + GasMargin(estimate) < TWO_TO_64 then -TWO_TO_63 <= max - SignedLimit(estimate) < TWO_TO_63
    else max - SignedLimit(estimate) >= TWO_TO_63
  }

  /** What estimate, margin, intrinsic cost, reserve and headroom add up to. */
  function AccountedGas(report: Report): int {
    report.innerGasEstimate + report.gasMargin + report.relayCallIntrinsicGas + 375_000 + report.approxGuardHeadroom
  }

  /**
   * Gas is conserved: estimate, margin, intrinsic cost, reserve and headroom add up to the outer limit in uint64
   * arithmetic always, and as integers exactly when the signed limit and the headroom both fit, or both wrap.
   */
  lemma GasIsConserved(report: Report, outer: uint64, estimate: uint64, guard: Guard)
    requires Accounts(report, outer, estimate, guard) && Balanced(guard, outer) && guard.Limit?
    ensures AccountedGas(report) % TWO_TO_64 == outer
    ensures AccountedGas(report) == outer <==> KeepsGas(estimate, guard.max)
  {
    Int64Difference(guard.max, report.signedGasLimit);
    AccountsAddUp(estimate, guard.max, guard.intrinsic, report.approxGuardHeadroom, outer);
  }

  lemma AccountsAddUp(estimate: uint64, max: int, intrinsic: int, headroom: int, outer: uint64)
    requires max + intrinsic + 375_000 == outer
    requires var d := max - SignedLimit(estimate);
             headroom == if d >= TWO_TO_63 then d - TWO_TO_64 else if d < -TWO_TO_63 then d + TWO_TO_64 else d
    ensures var sum := estimate + GasMargin(estimate) + intrinsic + 375_000 + headroom;
            sum % TWO_TO_64 == outer && (sum == outer <==> KeepsGas(estimate, max))
  {
    var sum := estimate + GasMargin(estimate) + intrinsic + 375_000 + headroom;
    SignedLimitWraps(estimate);
    OuterModulo(sum, outer);
  }

  lemma SignedLimitWraps(estimate: uint64)
    ensures SignedLimit(estimate) == estimate + GasMargin(estimate)
                                     - if estimate + GasMargin(estimate) < TWO_TO_64 then 0 else TWO_TO_64
  {
  }

  /**
   * So it is in every report of a signed call that has a guard maximum, accepted or not; there is one, and it is known,
   * from the inputs and the zero bytes of the signature.
   */
  lemma PreflightConservesGas(r: Relay, ops: nat, outer: uint64, estimate: uint64, simulate: Bytes -> Simulation,
                              sig: Signature)
    requires r.Valid() && SignRelay(r, SignedLimit(estimate)) == Some(sig)
    ensures var res := OutcomeOf(r, ops, outer, Some(estimate), simulate);
            var max := MaxFor(r, outer, estimate, ZeroCount(sig));
            && !res.SignFailure? && res.report.approxMaxSignedGas == (if max > 0 then max else 0)
            && (max > 0 ==> AccountedGas(res.report) % TWO_TO_64 == outer)
            && (max > 0 ==> (AccountedGas(res.report) == outer <==> KeepsGas(estimate, max)))
  {
    var s := SigningOf(r, outer, SignedLimit(estimate));
    DecideAccounts(r, ops, outer, estimate, s, simulate);
    SigningIsBalanced(r, outer, SignedLimit(estimate));
    if s.guard.Limit? {
      GasIsConserved(Decide(SignedReport(r, ops, outer, estimate), s, simulate).report, outer, estimate, s.guard);
    }
  }

  lemma OuterModulo(sum: int, outer: uint64)
    requires sum in {outer - TWO_TO_64, outer, outer + TWO_TO_64, outer + 2 * TWO_TO_64}
    ensures sum % TWO_TO_64 == outer
  {
  }

  /**
   * A batch is accepted exactly when it is signed, its limit and its cost fit the outer limit, and simulation
   * succeeds.
   */
  lemma AcceptedExactly(r: Relay, ops: nat, outer: uint64, estimate: uint64, simulate: Bytes -> Simulation)
    requires r.Valid()
    ensures OutcomeOf(r, ops, outer, Some(estimate), simulate).Accepted? <==>
            && SignRelay(r, SignedLimit(estimate)).Some?
            && var data := Calldata(r, SignedLimit(estimate), SignRelay(r, SignedLimit(estimate)).value);
               Max(SignedLimit(estimate), 1) + 21_000 + DataGas(data) + 375_000 <= outer && simulate(data).Succeeds?
  {
    var s := SigningOf(r, outer, SignedLimit(estimate));
    if s.Signed? {
      DecideAccounts(r, ops, outer, estimate, s, simulate);
      SigningIsBalanced(r, outer, SignedLimit(estimate));
    }
  }

  /** An accepted batch was signed for the reported limit, simulated, and passes the guard. */
  lemma AcceptedPassesGuard(r: Relay, ops: nat, outer: uint64, estimate: uint64,
                            simulate: Bytes -> Simulation) returns (guard: Guard)
    requires r.Valid() && OutcomeOf(r, ops, outer, Some(estimate), simulate).Accepted?
    ensures var res := OutcomeOf(r, ops, outer, Some(estimate), simulate);
            && Accounts(res.report, outer, estimate, guard) && Balanced(guard, outer)
            && guard == GuardOf(res.relayCallData, outer) && guard.Limit? && res.report.signedGasLimit <= guard.max
            && SignRelay(r, res.report.signedGasLimit) == Some(res.sig)
            && res.relayCallData == Calldata(r, res.report.signedGasLimit, res.sig)
            && simulate(res.relayCallData).Succeeds?
            && guard.max == MaxFor(r, outer, estimate, ZeroCount(res.sig))
  {
    var s := SigningOf(r, outer, SignedLimit(estimate));
    guard := s.guard;
    DecideAccounts(r, ops, outer, estimate, s, simulate);
    SigningIsBalanced(r, outer, SignedLimit(estimate));
  }

  /** What the numbers of an accepted report mean, in terms of the inputs and the zero bytes of the signature. */
  lemma AcceptedNumbers(r: Relay, ops: nat, outer: uint64, estimate: uint64, simulate: Bytes -> Simulation)
    requires r.Valid() && OutcomeOf(r, ops, outer, Some(estimate), simulate).Accepted?
    ensures var res := OutcomeOf(r, ops, outer, Some(estimate), simulate);
            var p := res.report;
            && p.signedGasLimit + p.relayCallIntrinsicGas + 375_000 <= outer
            && p.gasMargin >= 50_000
            && (p.signedGasLimit >= estimate <==> estimate + p.gasMargin < TWO_TO_64)
            && (p.approxGuardHeadroom >= 0 <==>
                MaxFor(r, outer, estimate, ZeroCount(res.sig)) - SignedLimit(estimate) < TWO_TO_63)
            && AccountedGas(p) == outer + (if estimate + GasMargin(estimate) < TWO_TO_64 then 0 else TWO_TO_64)
                                  - (if p.approxGuardHeadroom >= 0 then 0 else TWO_TO_64)
  {
    var guard := AcceptedPassesGuard(r, ops, outer, estimate, simulate);
    NumbersOfAccepted(OutcomeOf(r, ops, outer, Some(estimate), simulate).report, outer, estimate, guard);
  }

  lemma NumbersOfAccepted(p: Report, outer: uint64, estimate: uint64, guard: Guard)
    requires Accounts(p, outer, estimate, guard) && Balanced(guard, outer)
    requires guard.Limit? && p.signedGasLimit <= guard.max
    ensures p.signedGasLimit + p.relayCallIntrinsicGas + 375_000 <= outer && p.gasMargin >= 50_000
    ensures p.signedGasLimit >= estimate <==> estimate + p.gasMargin < TWO_TO_64
    ensures p.approxGuardHeadroom >= 0 <==> guard.max - SignedLimit(estimate) < TWO_TO_63
    ensures AccountedGas(p) == outer + (if estimate + GasMargin(estimate) < TWO_TO_64 then 0 else TWO_TO_64)
                               - (if p.approxGuardHeadroom >= 0 then 0 else TWO_TO_64)
  {
    Int64Difference(guard.max, p.signedGasLimit);
    SignedLimitWraps(estimate);
  }

  /** The hub accepts the signature of an accepted batch. */
  lemma AcceptedIsAccepted(r: Relay, ops: nat, outer: uint64, estimate: uint64, simulate: Bytes -> Simulation)
    requires r.Valid()
    ensures var res := OutcomeOf(r, ops, outer, Some(estimate), simulate);
            res.Accepted? ==> HubAccepts(r, res.relayCallData)
  {
    if OutcomeOf(r, ops, outer, Some(estimate), simulate).Accepted? {
      var guard := AcceptedPassesGuard(r, ops, outer, estimate, simulate);
      SignedIsAccepted(r, SignedLimit(estimate));
    }
  }

  // ----- Every outcome -----

  /** What a report says from the start. */
  predicate IsReportOf(p: Report, r: Relay, ops: nat, outer: uint64) {
    p.ops == ops && p.outerGasLimit == outer && p.encodedFunctionBytes == |r.encodedFunction|
  }

  /** What a report says of the estimate. */
  predicate Estimates(p: Report, estimate: uint64, gas: uint64) {
    && p.innerGasEstimate == estimate && p.gasMargin == Max(50_000, estimate * 1_500 % TWO_TO_64 / 10_000)
    && p.signedGasLimit == gas
  }

  /** What a report says of the packed call: its size, its cost, and what that leaves of the outer limit. */
  predicate Measures(p: Report, data: Bytes, outer: uint64, gas: uint64) {
    var cost, max := 21_000 + DataGas(data), outer - 396_000 - DataGas(data);
    && p.relayCallBytes == |data| && p.relayCallIntrinsicGas == cost
    && p.approxMaxSignedGas == (if max > 0 then max else 0)
    && AgreesModulo64(p.approxGuardHeadroom, p.approxMaxSignedGas - gas)
  }

  predicate AgreesModulo64(x: int, y: int) {
    (x - y) % TWO_TO_64 == 0
  }

  /** The verdict on a packed call: what fits the outer limit is up to the node. */
  predicate Judges(res: Outcome, fits: bool, answer: Simulation) {
    && (res.Accepted? <==> fits && answer == Succeeds)
    && (res.InnerCallFailed? <==> fits && answer == Reverts)
    && (res.BatchTooLarge? <==> !fits || answer == OutOfGas)
    && !res.SignFailure? && !res.EstimateReverted? && (res.report.relayHubSimulationOK <==> res.Accepted?)
  }

  /** What preflight must answer, exit by exit and field by field. */
  predicate IsOutcome(r: Relay, ops: nat, outer: uint64, estimate: Option<uint64>, simulate: Bytes -> Simulation,
                      res: Outcome) {
    match estimate
    case None => res == EstimateReverted(Report(ops, outer, |r.encodedFunction|, 0, 0, 0, 0, 0, 0, 0, false))
    case Some(e) =>
      IsSigned(r, ops, outer, e, (e + Max(50_000, e * 1_500 % TWO_TO_64 / 10_000)) % TWO_TO_64, simulate, res)
  }

  predicate IsSigned(r: Relay, ops: nat, outer: uint64, estimate: uint64, gas: uint64, simulate: Bytes -> Simulation,
                     res: Outcome) {
    match SignRelay(r, gas)
    case None => res == SignFailure
    case Some(sig) => IsMeasured(r, ops, outer, estimate, gas, sig, Calldata(r, gas, sig), simulate, res)
  }

  predicate IsMeasured(r: Relay, ops: nat, outer: uint64, estimate: uint64, gas: uint64, sig: Signature, data: Bytes,
                       simulate: Bytes -> Simulation, res: Outcome) {
    && Judges(res, Max(gas, 1) + 396_000 + DataGas(data) <= outer, simulate(data))
    && IsReportOf(res.report, r, ops, outer) && Estimates(res.report, estimate, gas)
    && Measures(res.report, data, outer, gas)
    && (res.Accepted? ==> res.sig == sig && res.relayCallData == data)
  }

  lemma HeadroomModulo(max: uint64, gas: uint64)
    ensures AgreesModulo64(ToInt64(ToInt64(max) - ToInt64(gas)), max - gas)
  {
    Int64Difference(max, gas);
    ToInt64Agrees(max - gas, ToInt64(max - gas));
    NegatedMultiple(max - gas - ToInt64(max - gas));
  }

  lemma NegatedMultiple(x: int)
    requires x % TWO_TO_64 == 0
    ensures -x % TWO_TO_64 == 0
  {
    RemainderIsUnique(-x, TWO_TO_64, -(x / TWO_TO_64), 0);
  }

  lemma OutcomeMeetsSpecification(r: Relay, ops: nat, outer: uint64, estimate: Option<uint64>,
                                  simulate: Bytes -> Simulation)
    requires r.Valid()
    ensures IsOutcome(r, ops, outer, estimate, simulate, OutcomeOf(r, ops, outer, estimate, simulate))
  {
    match estimate {
      case None =>
      case Some(e) =>
        SignedMeetsSpecification(r, ops, outer, e, simulate);
        LimitMeetsSpecification(r, ops, outer, e, SignedLimit(e), simulate,
                                OutcomeOf(r, ops, outer, Some(e), simulate));
    }
  }

  lemma LimitMeetsSpecification(r: Relay, ops: nat, outer: uint64, e: uint64, gas: uint64,
                                simulate: Bytes -> Simulation, res: Outcome)
    requires IsSigned(r, ops, outer, e, gas, simulate, res) && gas == SignedLimit(e)
    ensures IsOutcome(r, ops, outer, Some(e), simulate, res)
  {
    LimitInNumbers(e);
  }

  lemma LimitInNumbers(e: uint64)
    ensures (e + Max(50_000, e * 1_500 % TWO_TO_64 / 10_000)) % TWO_TO_64 == SignedLimit(e)
  {
  }

  lemma SignedMeetsSpecification(r: Relay, ops: nat, outer: uint64, e: uint64, simulate: Bytes -> Simulation)
    requires r.Valid()
    ensures IsSigned(r, ops, outer, e, SignedLimit(e), simulate, OutcomeOf(r, ops, outer, Some(e), simulate))
  {
    if SignRelay(r, SignedLimit(e)).Some? {
      MeasuredMeetsSpecification(r, ops, outer, e, simulate);
    }
  }

  lemma MeasuredMeetsSpecification(r: Relay, ops: nat, outer: uint64, e: uint64, simulate: Bytes -> Simulation)
    requires r.Valid() && SignRelay(r, SignedLimit(e)).Some?
    ensures var gas := SignedLimit(e);
            var sig := SignRelay(r, gas).value;
            IsMeasured(r, ops, outer, e, gas, sig, Calldata(r, gas, sig), simulate,
                       OutcomeOf(r, ops, outer, Some(e), simulate))
  {
    var gas := SignedLimit(e);
    SigningIsBalanced(r, outer, gas);
    DecisionIsMeasured(r, ops, outer, e, SigningOf(r, outer, gas), simulate);
  }

  lemma DecisionIsMeasured(r: Relay, ops: nat, outer: uint64, e: uint64, s: Signing, simulate: Bytes -> Simulation)
    requires s.Signed? && s.guard.intrinsic == 21_000 + DataGas(s.data)
    requires s.guard.Limit? <==> outer - 396_000 - DataGas(s.data) > 0
    requires s.guard.Limit? ==> s.guard.max == outer - 396_000 - DataGas(s.data)
    ensures IsMeasured(r, ops, outer, e, SignedLimit(e), s.sig, s.data, simulate,
                       Decide(SignedReport(r, ops, outer, e), s, simulate))
  {
    HeadroomModulo(if s.guard.TooLarge? then 0 else s.guard.max, SignedLimit(e));
    DecisionMeetsSpecification(SignedReport(r, ops, outer, e), s, outer, simulate);
  }

  lemma DecisionMeetsSpecification(signed: Report, s: Signing, outer: uint64, simulate: Bytes -> Simulation)
    requires s.Signed? && !signed.relayHubSimulationOK
    requires s.guard.intrinsic == 21_000 + DataGas(s.data)
    requires s.guard.Limit? <==> outer - 396_000 - DataGas(s.data) > 0
    requires s.guard.Limit? ==> s.guard.max == outer - 396_000 - DataGas(s.data)
    requires AgreesModulo64(ToInt64(ToInt64(if s.guard.TooLarge? then 0 else s.guard.max)
                                    - ToInt64(signed.signedGasLimit)),
                            (if s.guard.TooLarge? then 0 else s.guard.max) - signed.signedGasLimit)
    ensures var res := Decide(signed, s, simulate);
            && Judges(res, Max(signed.signedGasLimit, 1) + 396_000 + DataGas(s.data) <= outer, simulate(s.data))
            && Measures(res.report, s.data, outer, signed.signedGasLimit)
            && res.report.ops == signed.ops && res.report.outerGasLimit == signed.outerGasLimit
            && res.report.encodedFunctionBytes == signed.encodedFunctionBytes
            && res.report.innerGasEstimate == signed.innerGasEstimate && res.report.gasMargin == signed.gasMargin
            && res.report.signedGasLimit == signed.signedGasLimit
            && (res.Accepted? ==> res.sig == s.sig && res.relayCallData == s.data)
  {
  }

  /** That leaves nothing open: two outcomes that meet it are the same. */
  lemma OutcomeIsUnique(r: Relay, ops: nat, outer: uint64, estimate: Option<uint64>, simulate: Bytes -> Simulation,
                        a: Outcome, b: Outcome)
    requires IsOutcome(r, ops, outer, estimate, simulate, a) && IsOutcome(r, ops, outer, estimate, simulate, b)
    ensures a == b
  {
    if estimate.Some? {
      var gas: uint64 := (estimate.value + Max(50_000, estimate.value * 1_500 % TWO_TO_64 / 10_000)) % TWO_TO_64;
      if SignRelay(r, gas).Some? {
        var sig := SignRelay(r, gas).value;
        MeasuredIsUnique(r, ops, outer, estimate.value, gas, sig, Calldata(r, gas, sig), simulate, a, b);
      }
    }
  }

  lemma MeasuredIsUnique(r: Relay, ops: nat, outer: uint64, e: uint64, gas: uint64, sig: Signature, data: Bytes,
                         simulate: Bytes -> Simulation, a: Outcome, b: Outcome)
    requires IsMeasured(r, ops, outer, e, gas, sig, data, simulate, a)
    requires IsMeasured(r, ops, outer, e, gas, sig, data, simulate, b)
    ensures a == b
  {
    HeadroomIsUnique(a.report.approxGuardHeadroom, b.report.approxGuardHeadroom, a.report.approxMaxSignedGas - gas);
    assert a.report == b.report;
  }

  lemma HeadroomIsUnique(x: int64, y: int64, z: int)
    requires AgreesModulo64(x, z) && AgreesModulo64(y, z)
    ensures x == y
  {
    var a, b := (x - z) / TWO_TO_64, (y - z) / TWO_TO_64;
    assert x - y == TWO_TO_64 * (a - b);
  }

  // ----- What can be said before anything is signed -----

  /** Whoever signs and whatever the node answers, acceptance comes with a headroom that is not negative. */
  ghost predicate HeadroomIsSafe(r: Relay, ops: nat, outer: uint64, estimate: uint64) {
    forall sign: Signer, simulate: Bytes -> Simulation ::
      var res := OutcomeOf(r.(sign := sign), ops, outer, Some(estimate), simulate);
      res.Accepted? ==> res.report.approxGuardHeadroom >= 0
  }

  /** Whoever signs and whatever the node answers, a report with a guard maximum adds up to the outer limit. */
  ghost predicate GasIsSafe(r: Relay, ops: nat, outer: uint64, estimate: uint64) {
    forall sign: Signer, simulate: Bytes -> Simulation ::
      var res := OutcomeOf(r.(sign := sign), ops, outer, Some(estimate), simulate);
      !res.SignFailure? && res.report.approxMaxSignedGas > 0 ==> AccountedGas(res.report) == outer
  }

  /** A signer with a fixed number of zero bytes. */
  function SignWithZeros(zeros: nat): Signer
    requires zeros <= 64
  {
    (h: Word) => Some(RawWithZeros(zeros))
  }

  lemma MaxIsSignerFree(r: Relay, sign: Signer, outer: uint64, estimate: uint64, zeros: nat)
    ensures MaxFor(r.(sign := sign), outer, estimate, zeros) == MaxFor(r, outer, estimate, zeros)
  {
    BaseIsSignerFree(r, sign, outer);
  }

  /** Whoever signs, the numbers of zero bytes run from 0 to 64, and all of them occur. */
  lemma SignedWithZeros(r: Relay, outer: uint64, estimate: uint64, zeros: nat)
    requires zeros <= 64
    ensures var r' := r.(sign := SignWithZeros(zeros));
            var sig := EthereumSignature(RawWithZeros(zeros));
            && SignRelay(r', SignedLimit(estimate)) == Some(sig) && ZeroCount(sig) == zeros
            && MaxFor(r', outer, estimate, zeros) == MaxFor(r, outer, estimate, zeros)
  {
    ZerosOfRaw(zeros);
    MaxIsSignerFree(r, SignWithZeros(zeros), outer, estimate, zeros);
  }

  /**
   * The headroom is safe exactly when the signed limit is less than 2^63 below the maximum of a signature with 64 zero
   * bytes: a condition on the call, the outer limit and the estimate.
   */
  lemma HeadroomIsSafeExactly(r: Relay, ops: nat, outer: uint64, estimate: uint64)
    requires r.Valid()
    ensures HeadroomIsSafe(r, ops, outer, estimate)
        <==> MaxFor(r, outer, estimate, 64) - SignedLimit(estimate) < TWO_TO_63
  {
    if MaxFor(r, outer, estimate, 64) - SignedLimit(estimate) < TWO_TO_63 {
      forall sign: Signer, simulate: Bytes -> Simulation
        ensures var res := OutcomeOf(r.(sign := sign), ops, outer, Some(estimate), simulate);
                res.Accepted? ==> res.report.approxGuardHeadroom >= 0
      {
        HeadroomOfSigner(r, sign, ops, outer, estimate, simulate);
      }
    } else {
      NegativeHeadroom(r, ops, outer, estimate);
    }
  }

  lemma NegativeHeadroom(r: Relay, ops: nat, outer: uint64, estimate: uint64)
    requires r.Valid() && MaxFor(r, outer, estimate, 64) - SignedLimit(estimate) >= TWO_TO_63
    ensures var res := OutcomeOf(r.(sign := SignWithZeros(64)), ops, outer, Some(estimate), (d: Bytes) => Succeeds);
            res.Accepted? && res.report.approxGuardHeadroom < 0
    ensures !HeadroomIsSafe(r, ops, outer, estimate)
  {
    var r', simulate := r.(sign := SignWithZeros(64)), (d: Bytes) => Succeeds;
    SignedWithZeros(r, outer, estimate, 64);
    AcceptedWhen(r', ops, outer, estimate, simulate);
    AcceptedNumbers(r', ops, outer, estimate, simulate);
  }

  lemma HeadroomOfSigner(r: Relay, sign: Signer, ops: nat, outer: uint64, estimate: uint64,
                         simulate: Bytes -> Simulation)
    requires r.Valid() && MaxFor(r, outer, estimate, 64) - SignedLimit(estimate) < TWO_TO_63
    ensures var res := OutcomeOf(r.(sign := sign), ops, outer, Some(estimate), simulate);
            res.Accepted? ==> res.report.approxGuardHeadroom >= 0
  {
    var r' := r.(sign := sign);
    if OutcomeOf(r', ops, outer, Some(estimate), simulate).Accepted? {
      AcceptedNumbers(r', ops, outer, estimate, simulate);
      var sig := OutcomeOf(r', ops, outer, Some(estimate), simulate).sig;
      CalldataGas(r', outer, SignedLimit(estimate), sig);
      MaxIsSignerFree(r, sign, outer, estimate, ZeroCount(sig));
    }
  }

  lemma AcceptedWhen(r: Relay, ops: nat, outer: uint64, estimate: uint64, simulate: Bytes -> Simulation)
    requires r.Valid() && SignRelay(r, SignedLimit(estimate)).Some? && forall d :: simulate(d) == Succeeds
    requires var max := MaxFor(r, outer, estimate, ZeroCount(SignRelay(r, SignedLimit(estimate)).value));
             0 < max && SignedLimit(estimate) <= max
    ensures OutcomeOf(r, ops, outer, Some(estimate), simulate).Accepted?
  {
    SigningIsBalanced(r, outer, SignedLimit(estimate));
  }

  /** Gas is safe exactly when it is kept for each of the 65 numbers of zero bytes a signature can have. */
  lemma GasIsSafeExactly(r: Relay, ops: nat, outer: uint64, estimate: uint64)
    requires r.Valid()
    ensures GasIsSafe(r, ops, outer, estimate) <==>
            forall zeros: nat | zeros <= 64 && MaxFor(r, outer, estimate, zeros) > 0 ::
              KeepsGas(estimate, MaxFor(r, outer, estimate, zeros))
  {
    if forall zeros: nat | zeros <= 64 && MaxFor(r, outer, estimate, zeros) > 0 ::
         KeepsGas(estimate, MaxFor(r, outer, estimate, zeros)) {
      forall sign: Signer, simulate: Bytes -> Simulation
        ensures var res := OutcomeOf(r.(sign := sign), ops, outer, Some(estimate), simulate);
                !res.SignFailure? && res.report.approxMaxSignedGas > 0 ==> AccountedGas(res.report) == outer
      {
        GasOfSigner(r, sign, ops, outer, estimate, simulate);
      }
    } else {
      var zeros: nat :| zeros <= 64 && MaxFor(r, outer, estimate, zeros) > 0
                        && !KeepsGas(estimate, MaxFor(r, outer, estimate, zeros));
      GasGoesMissing(r, ops, outer, estimate, zeros);
    }
  }

  lemma GasGoesMissing(r: Relay, ops: nat, outer: uint64, estimate: uint64, zeros: nat)
    requires r.Valid() && zeros <= 64 && MaxFor(r, outer, estimate, zeros) > 0
    requires !KeepsGas(estimate, MaxFor(r, outer, estimate, zeros))
    ensures var res := OutcomeOf(r.(sign := SignWithZeros(zeros)), ops, outer, Some(estimate), (d: Bytes) => Succeeds);
            !res.SignFailure? && res.report.approxMaxSignedGas > 0 && AccountedGas(res.report) != outer
    ensures !GasIsSafe(r, ops, outer, estimate)
  {
    var r', simulate := r.(sign := SignWithZeros(zeros)), (d: Bytes) => Succeeds;
    SignedWithZeros(r, outer, estimate, zeros);
    PreflightConservesGas(r', ops, outer, estimate, simulate, EthereumSignature(RawWithZeros(zeros)));
  }

  lemma GasOfSigner(r: Relay, sign: Signer, ops: nat, outer: uint64, estimate: uint64, simulate: Bytes -> Simulation)
    requires r.Valid()
    requires forall zeros: nat | zeros <= 64 && MaxFor(r, outer, estimate, zeros) > 0 ::
               KeepsGas(estimate, MaxFor(r, outer, estimate, zeros))
    ensures var res := OutcomeOf(r.(sign := sign), ops, outer, Some(estimate), simulate);
            !res.SignFailure? && res.report.approxMaxSignedGas > 0 ==> AccountedGas(res.report) == outer
  {
    var r' := r.(sign := sign);
    if SignRelay(r', SignedLimit(estimate)).Some? {
      var sig := SignRelay(r', SignedLimit(estimate)).value;
      PreflightConservesGas(r', ops, outer, estimate, simulate, sig);
      CalldataGas(r', outer, SignedLimit(estimate), sig);
      MaxIsSignerFree(r, sign, outer, estimate, ZeroCount(sig));
    }
  }

  lemma OrdinaryMax(r: Relay, outer: uint64, estimate: uint64, zeros: nat)
    requires r.Valid() && zeros <= 64 && outer <= TWO_TO_63 && estimate + GasMargin(estimate) <= TWO_TO_63
    ensures MaxFor(r, outer, estimate, zeros) < TWO_TO_63
    ensures MaxFor(r, outer, estimate, zeros) > 0 ==> KeepsGas(estimate, MaxFor(r, outer, estimate, zeros))
    ensures MaxFor(r, outer, estimate, zeros) - SignedLimit(estimate) < TWO_TO_63
  {
    ZerosOfRaw(zeros);
    CalldataGas(r, outer, SignedLimit(estimate), EthereumSignature(RawWithZeros(zeros)));
    SignedLimitWraps(estimate);
  }

  /** For outer limits up to 2^63 and estimates whose sum with the margin is, both are safe. */
  lemma OrdinaryLimitsAreSafe(r: Relay, ops: nat, outer: uint64, estimate: uint64)
    requires r.Valid() && outer <= TWO_TO_63 && estimate + GasMargin(estimate) <= TWO_TO_63
    ensures HeadroomIsSafe(r, ops, outer, estimate) && GasIsSafe(r, ops, outer, estimate)
  {
    forall zeros: nat | zeros <= 64 && MaxFor(r, outer, estimate, zeros) > 0
      ensures KeepsGas(estimate, MaxFor(r, outer, estimate, zeros))
    {
      OrdinaryMax(r, outer, estimate, zeros);
    }
    OrdinaryMax(r, outer, estimate, 64);
    HeadroomIsSafeExactly(r, ops, outer, estimate);
    GasIsSafeExactly(r, ops, outer, estimate);
  }

  /** No calldata costs more than 2^53. */
  lemma MaxIsLarge(r: Relay, outer: uint64, estimate: uint64, zeros: nat)
    ensures MaxFor(r, outer, estimate, zeros) >= outer - 0x20_0000_0000_0000
  {
  }

  lemma LargeMaxTurnsNegative(r: Relay, ops: nat, outer: uint64, estimate: uint64, simulate: Bytes -> Simulation)
    requires r.Valid() && SignRelay(r, SignedLimit(estimate)).Some? && forall d :: simulate(d) == Succeeds
    requires estimate + GasMargin(estimate) < TWO_TO_64
    requires MaxFor(r, outer, estimate, ZeroCount(SignRelay(r, SignedLimit(estimate)).value)) - SignedLimit(estimate)
          >= TWO_TO_63
    ensures var res := OutcomeOf(r, ops, outer, Some(estimate), simulate);
            res.Accepted? && res.report.approxGuardHeadroom < 0 && AccountedGas(res.report) == outer - TWO_TO_64
  {
    AcceptedWhen(r, ops, outer, estimate, simulate);
    var guard := AcceptedPassesGuard(r, ops, outer, estimate, simulate);
    AcceptedNumbers(r, ops, outer, estimate, simulate);
  }

  /**
   * Whoever signs, a batch whose outer limit exceeds estimate and margin by 2^63 and the dearest calldata is accepted
   * with a negative headroom and accounts that are 2^64 short.
   */
  lemma HeadroomCanTurnNegative(r: Relay, ops: nat, outer: uint64, estimate: uint64, simulate: Bytes -> Simulation)
    requires r.Valid() && SignRelay(r, SignedLimit(estimate)).Some? && forall d :: simulate(d) == Succeeds
    requires estimate + GasMargin(estimate) + TWO_TO_63 + 0x20_0000_0000_0000 <= outer
    ensures var res := OutcomeOf(r, ops, outer, Some(estimate), simulate);
            res.Accepted? && res.report.approxGuardHeadroom < 0 && AccountedGas(res.report) == outer - TWO_TO_64
  {
    SignedLimitWraps(estimate);
    MaxIsLarge(r, outer, estimate, ZeroCount(SignRelay(r, SignedLimit(estimate)).value));
    LargeMaxTurnsNegative(r, ops, outer, estimate, simulate);
  }

  /** The search's answer is at most 852 gas below anything preflight accepts. */
  lemma SearchCoversPreflight(r: Relay, ops: nat, outer: uint64, estimate: uint64,
                              simulate: Bytes -> Simulation, found: Search)
    requires r.Valid() && OutcomeOf(r, ops, outer, Some(estimate), simulate).Accepted?
    requires IsSearch(RoundsOf(r, outer), Start(outer), found) && found.Found?
    ensures OutcomeOf(r, ops, outer, Some(estimate), simulate).report.signedGasLimit <= found.gas + 852
  {
    var gas := OutcomeOf(r, ops, outer, Some(estimate), simulate).report.signedGasLimit;
    var guard := AcceptedPassesGuard(r, ops, outer, estimate, simulate);
    assert RoundAt(r, outer, gas).Checked? && RoundAt(r, outer, gas).max == guard.max;
    FoundIsNearlyBest(r, outer, found, gas);
  }
}
