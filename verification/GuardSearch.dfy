/** The twelve-round search of signMaxGuardRelay, over any way of evaluating one round. */
module GuardSearch {
  import opened Crypto
  import opened Encoding
  import opened GoInts
  import opened RelayCall
  import opened GasGuard

  const MAX_ROUNDS := 12

  type Rounds = uint64 -> Round

  /** Candidate k: each round proposes the maximum that the previous one allowed. */
  function Candidate(step: Rounds, start: uint64, k: nat): Option<uint64> {
    if k == 0 then Some(start) else
      match Candidate(step, start, k - 1)
      case None => None
      case Some(gas) => if step(gas).Checked? then Some(step(gas).max) else None
  }

  /** Candidate k exists, was checked, and was not yet equal to the maximum it allows. */
  ghost predicate Moves(step: Rounds, start: uint64, k: nat) {
    match Candidate(step, start, k)
    case None => false
    case Some(gas) => step(gas).Checked? && step(gas).max != gas
  }

  ghost predicate AllMove(step: Rounds, start: uint64, n: nat) {
    forall j: nat | j < n :: Moves(step, start, j)
  }

  ghost predicate Passes(step: Rounds, start: uint64, k: nat) {
    Moves(step, start, k) && Candidate(step, start, k).value <= step(Candidate(step, start, k).value).max
  }

  datatype Search =
    | Found(gas: uint64, sig: Signature, intrinsic: uint64)
    | SignError
    | SizeError
    | NoLimit

  function Triple(gas: uint64, round: Round): Search {
    match round
    case SignFailed => SignError
    case Oversized => SizeError
    case Checked(sig, intrinsic, _) => Found(gas, sig, intrinsic)
  }

  /** Round k is the first that fails or reaches a fixed point, and res is what it reports. */
  ghost predicate EndsAt(step: Rounds, start: uint64, k: nat, res: Search) {
    && AllMove(step, start, k) && !Moves(step, start, k)
    && Candidate(step, start, k).Some?
    && res == Triple(Candidate(step, start, k).value, step(Candidate(step, start, k).value))
  }

  /** Round k has the largest passing candidate of the first n rounds, and res is its triple. */
  ghost predicate BestAt(step: Rounds, start: uint64, k: nat, n: nat, res: Search) {
    && k < n && Passes(step, start, k)
    && res == Triple(Candidate(step, start, k).value, step(Candidate(step, start, k).value))
    && forall j: nat | j < n && Passes(step, start, j) ::
         Candidate(step, start, j).value <= Candidate(step, start, k).value
  }

  /** What twelve rounds must answer: the first stop, or else the largest passing candidate, or else nothing. */
  ghost predicate IsSearch(step: Rounds, start: uint64, res: Search) {
    || (exists k: nat | k < MAX_ROUNDS :: EndsAt(step, start, k, res))
    || (&& AllMove(step, start, MAX_ROUNDS)
        && if res.NoLimit? then forall j: nat | j < MAX_ROUNDS :: !Passes(step, start, j)
           else exists k: nat :: BestAt(step, start, k, MAX_ROUNDS, res))
  }

  /** The answer is determined: two results that both fit are the same. */
  lemma SearchIsUnique(step: Rounds, start: uint64, a: Search, b: Search)
    requires IsSearch(step, start, a) && IsSearch(step, start, b)
    ensures a == b
  {
    if k: nat :| k < MAX_ROUNDS && EndsAt(step, start, k, a) {
      var k': nat :| k' < MAX_ROUNDS && EndsAt(step, start, k', b);
      assert k == k';
    } else if !a.NoLimit? {
      var k: nat :| BestAt(step, start, k, MAX_ROUNDS, a);
      var k': nat :| BestAt(step, start, k', MAX_ROUNDS, b);
    }
  }

  /** Maxima are positive and the first candidate is above its own: both hold of every relayed call. */
  ghost predicate Regular(step: Rounds, start: uint64) {
    && (forall gas :: step(gas).Checked? ==> step(gas).max > 0)
    && (step(start).Checked? ==> start > step(start).max)
  }

  /** The running best, where 0 stands for none. */
  ghost predicate BestSoFar(step: Rounds, start: uint64, n: nat, gas: uint64, sig: Signature, intrinsic: uint64) {
    if gas == 0 then forall j: nat | j < n :: !Passes(step, start, j)
    else exists k: nat :: BestAt(step, start, k, n, Found(gas, sig, intrinsic))
  }

  lemma BestAfterRound(step: Rounds, start: uint64, n: nat, best: Search)
    requires Regular(step, start) && Moves(step, start, n)
    requires best.Found? && BestSoFar(step, start, n, best.gas, best.sig, best.intrinsic)
    ensures var gas := Candidate(step, start, n).value;
            var c := step(gas);
            if gas <= c.max && gas > best.gas then BestSoFar(step, start, n + 1, gas, c.sig, c.intrinsic)
            else BestSoFar(step, start, n + 1, best.gas, best.sig, best.intrinsic)
  {
    var gas := Candidate(step, start, n).value;
    var c := step(gas);
    if gas <= c.max && gas > best.gas {
      assert BestAt(step, start, n, n + 1, Found(gas, c.sig, c.intrinsic));
    } else if best.gas != 0 {
      var k: nat :| BestAt(step, start, k, n, best);
      assert BestAt(step, start, k, n + 1, best);
    }
  }

  lemma NextCandidate(step: Rounds, start: uint64, k: nat, gas: uint64)
    requires Candidate(step, start, k) == Some(gas) && AllMove(step, start, k)
    ensures step(gas).Checked? ==> Candidate(step, start, k + 1) == Some(step(gas).max)
    ensures step(gas).Checked? && step(gas).max != gas <==> Moves(step, start, k)
    ensures Moves(step, start, k) ==> AllMove(step, start, k + 1)
    ensures k < MAX_ROUNDS && !Moves(step, start, k) ==> IsSearch(step, start, Triple(gas, step(gas)))
  {
    if k < MAX_ROUNDS && !Moves(step, start, k) {
      assert EndsAt(step, start, k, Triple(gas, step(gas)));
    }
  }

  /** Before round i: every earlier round moved on, gas is candidate i, best the running best. */
  ghost predicate Progress(step: Rounds, start: uint64, i: nat, gas: uint64, best: Search) {
    && Regular(step, start) && Candidate(step, start, i) == Some(gas) && AllMove(step, start, i)
    && best.Found? && BestSoFar(step, start, i, best.gas, best.sig, best.intrinsic)
  }

  lemma ProgressStep(step: Rounds, start: uint64, i: nat, gas: uint64, best: Search, c: Round)
    requires Progress(step, start, i, gas, best) && i < MAX_ROUNDS && c == step(gas)
    ensures c.Checked? && c.max != gas ==>
      Progress(step, start, i + 1, c.max,
               if gas <= c.max && gas > best.gas then Found(gas, c.sig, c.intrinsic) else best)
    ensures !(c.Checked? && c.max != gas) ==> IsSearch(step, start, Triple(gas, c))
  {
    NextCandidate(step, start, i, gas);
    if c.Checked? && c.max != gas {
      BestAfterRound(step, start, i, best);
    }
  }

  lemma ProgressEnd(step: Rounds, start: uint64, gas: uint64, best: Search)
    requires Progress(step, start, MAX_ROUNDS, gas, best)
    ensures IsSearch(step, start, if best.gas == 0 then NoLimit else best)
  {
  }

  function RoundsOf(r: Relay, outer: uint64): Rounds {
    (gas: uint64) => RoundAt(r, outer, gas)
  }

  lemma RelayIsRegular(r: Relay, outer: uint64)
    requires r.Valid()
    ensures Regular(RoundsOf(r, outer), Start(outer))
  {
    var step := RoundsOf(r, outer);
    forall gas | step(gas).Checked?
      ensures step(gas).max > 0
    {
      var z := MaximaOnGrid(r, outer, gas);
    }
    if step(Start(outer)).Checked? {
      StartFails(r, outer);
    }
  }

  /** The rounds of the search are what the code computes for this call. */
  ghost predicate Evaluates(r: Relay, outer: uint64, step: Rounds) {
    forall gas: uint64 {:trigger RoundAt(r, outer, gas)} :: step(gas) == RoundAt(r, outer, gas)
  }

  /** One iteration's work: the signing, packing and byte counting of one limit make the round of the search. */
  method NextRound(r: Relay, outer: uint64, ghost step: Rounds, gas: uint64) returns (c: Round)
    requires Evaluates(r, outer, step)
    ensures c == step(gas)
  {
    c := EvaluateRound(r, outer, gas);
  }

  /** The loop of signMaxGuardRelay. */
  method SearchRounds(r: Relay, outer: uint64, ghost step: Rounds, start: uint64) returns (res: Search)
    requires Evaluates(r, outer, step) && Regular(step, start)
    ensures IsSearch(step, start, res)
  {
    var gasLimit: uint64 := start;
    var bestGas: uint64 := 0;
    var bestSig: Signature := seq(65, _ => 27);
    var bestRelayCallGas: uint64 := 0;
    for i := 0 to MAX_ROUNDS
      invariant Progress(step, start, i, gasLimit, Found(bestGas, bestSig, bestRelayCallGas))
    {
      var round := NextRound(r, outer, step, gasLimit);
      ProgressStep(step, start, i, gasLimit, Found(bestGas, bestSig, bestRelayCallGas), round);
      if round.SignFailed? {
        return SignError;
      }
      if round.Oversized? {
        return SizeError;
      }
      if gasLimit <= round.max && gasLimit > bestGas {
        bestGas, bestSig, bestRelayCallGas := gasLimit, round.sig, round.intrinsic;
      }
      if gasLimit == round.max {
        return Found(gasLimit, round.sig, round.intrinsic);
      }
      gasLimit := round.max;
    }
    ProgressEnd(step, start, gasLimit, Found(bestGas, bestSig, bestRelayCallGas));
    if bestGas == 0 {
      return NoLimit;
    }
    return Found(bestGas, bestSig, bestRelayCallGas);
  }

  /** signMaxGuardRelay */
  method SignMaxGuardRelay(r: Relay, configuredOuter: uint64) returns (res: Search)
    requires r.Valid()
    ensures var outer := OuterGasLimit(configuredOuter); IsSearch(RoundsOf(r, outer), Start(outer), res)
    ensures FollowsTrail(r, if configuredOuter == 0 then 10_000_000 else configuredOuter, res)
  {
    var outer := OuterGasLimit(configuredOuter);
    RelayIsRegular(r, outer);
    res := SearchRounds(r, outer, RoundsOf(r, outer), Start(outer));
    SearchFollowsTrail(r, outer, res);
  }

  // ----- The limits tried, one after another -----

  /** Round k: the limit is signed and measured, and does not equal its maximum. */
  predicate GoesOn(step: Rounds, gas: uint64) {
    step(gas).Checked? && step(gas).max != gas
  }

  /** At most twelve limits: the outer limit less 396000, and each time the maximum of the one before. */
  ghost predicate IsTrail(step: Rounds, outer: uint64, gs: seq<uint64>) {
    && 1 <= |gs| <= 12 && gs[0] == (outer - 396_000) % TWO_TO_64
    && forall k | 0 <= k < |gs| - 1 :: GoesOn(step, gs[k]) && gs[k + 1] == step(gs[k]).max
  }

  /** What the last limit tried has to report, or the largest that passed when all twelve went on. */
  ghost predicate ReportsTrail(step: Rounds, gs: seq<uint64>, res: Search)
    requires gs != []
  {
    var last := gs[|gs| - 1];
    match step(last)
    case SignFailed => res == SignError
    case Oversized => res == SizeError
    case Checked(sig, intrinsic, max) =>
      if max == last then res == Found(last, sig, intrinsic)
      else |gs| == 12 && ReportsBest(step, gs, res)
  }

  predicate PassesGuard(step: Rounds, gas: uint64) {
    step(gas).Checked? && gas <= step(gas).max
  }

  ghost predicate ReportsBest(step: Rounds, gs: seq<uint64>, res: Search) {
    match res
    case NoLimit => forall k | 0 <= k < |gs| :: !PassesGuard(step, gs[k])
    case Found(gas, sig, intrinsic) =>
      && gas in gs && PassesGuard(step, gas) && step(gas).sig == sig && step(gas).intrinsic == intrinsic
      && forall k | 0 <= k < |gs| :: PassesGuard(step, gs[k]) ==> gs[k] <= gas
    case _ => false
  }

  ghost predicate FollowsTrail(r: Relay, outer: uint64, res: Search) {
    exists gs: seq<uint64> :: IsTrail(RoundsOf(r, outer), outer, gs) && ReportsTrail(RoundsOf(r, outer), gs, res)
  }

  /** The candidates up to number n. */
  lemma {:induction false} TrailOf(step: Rounds, outer: uint64, n: nat) returns (gs: seq<uint64>)
    requires n < 12 && AllMove(step, Start(outer), n) && Candidate(step, Start(outer), n).Some?
    ensures |gs| == n + 1 && IsTrail(step, outer, gs)
    ensures forall k: nat | k <= n :: Candidate(step, Start(outer), k) == Some(gs[k])
  {
    if n == 0 {
      gs := [Start(outer)];
    } else {
      var gas := CandidateIsMaximum(step, Start(outer), n);
      gs := TrailOf(step, outer, n - 1);
      assert Moves(step, Start(outer), n - 1);
      gs := gs + [step(gas).max];
    }
  }

  lemma TrailReports(step: Rounds, outer: uint64, res: Search) returns (gs: seq<uint64>)
    requires IsSearch(step, Start(outer), res)
    ensures IsTrail(step, outer, gs) && ReportsTrail(step, gs, res)
  {
    var start := Start(outer);
    if k: nat :| k < MAX_ROUNDS && EndsAt(step, start, k, res) {
      gs := TrailOf(step, outer, k);
    } else {
      assert Moves(step, start, 11);
      gs := TrailOf(step, outer, 11);
      TrailBest(step, start, gs, res);
    }
  }

  lemma TrailBest(step: Rounds, start: uint64, gs: seq<uint64>, res: Search)
    requires |gs| == 12 && forall k: nat | k < 12 :: Candidate(step, start, k) == Some(gs[k])
    requires AllMove(step, start, MAX_ROUNDS)
    requires if res.NoLimit? then forall j: nat | j < MAX_ROUNDS :: !Passes(step, start, j)
             else exists k: nat :: BestAt(step, start, k, MAX_ROUNDS, res)
    ensures step(gs[11]).Checked? && step(gs[11]).max != gs[11] && ReportsBest(step, gs, res)
  {
    assert forall k: nat | k < 12 :: Passes(step, start, k) <==> PassesGuard(step, gs[k]) by {
      assert forall k: nat | k < 12 :: Moves(step, start, k);
    }
    assert Moves(step, start, 11);
    if !res.NoLimit? {
      var k: nat :| BestAt(step, start, k, MAX_ROUNDS, res);
      assert gs[k] in gs;
      forall j | 0 <= j < 12 && PassesGuard(step, gs[j]) ensures gs[j] <= res.gas {
        assert Passes(step, start, j);
      }
    }
  }

  lemma SearchFollowsTrail(r: Relay, outer: uint64, res: Search)
    requires IsSearch(RoundsOf(r, outer), Start(outer), res)
    ensures FollowsTrail(r, outer, res)
  {
    var gs := TrailReports(RoundsOf(r, outer), outer, res);
  }

  // ----- What every answer guarantees -----

  /** From the second candidate on, every candidate is a guard maximum of the same call. */
  lemma CandidateIsMaximum(step: Rounds, start: uint64, k: nat) returns (gas: uint64)
    requires k > 0 && Candidate(step, start, k).Some?
    ensures step(gas).Checked? && step(gas).max == Candidate(step, start, k).value
    ensures Candidate(step, start, k - 1) == Some(gas)
  {
    gas := Candidate(step, start, k - 1).value;
  }

  /** An answer comes from a checked round whose limit passed, and never from the first round. */
  lemma FoundPassed(step: Rounds, start: uint64, res: Search) returns (k: nat)
    requires Regular(step, start) && IsSearch(step, start, res) && res.Found?
    ensures 0 < k < MAX_ROUNDS && Candidate(step, start, k) == Some(res.gas)
    ensures step(res.gas).Checked? && res == Triple(res.gas, step(res.gas)) && res.gas <= step(res.gas).max
    ensures EndsEarly(step, start, res) ==> res.gas == step(res.gas).max
  {
    if j: nat :| j < MAX_ROUNDS && EndsAt(step, start, j, res) {
      k := j;
    } else {
      k :| BestAt(step, start, k, MAX_ROUNDS, res);
    }
  }

  ghost predicate Banded(step: Rounds) {
    forall g: uint64, g': uint64 | step(g).Checked? && step(g').Checked? :: Near(step(g).max, step(g').max)
  }

  lemma RelayIsBanded(r: Relay, outer: uint64)
    requires r.Valid()
    ensures Banded(RoundsOf(r, outer))
  {
    var step := RoundsOf(r, outer);
    forall g: uint64, g': uint64 | step(g).Checked? && step(g').Checked?
      ensures Near(step(g).max, step(g').max)
    {
      GuardMaximaAgree(r, outer, g, g');
    }
  }

  /** Maxima lie between base and base + 864, and those of positive limits, which have a byte that is not 0, lower. */
  ghost predicate Topped(step: Rounds, base: int) {
    forall g: uint64 | step(g).Checked? :: base <= step(g).max <= if g == 0 then base + 864 else base + 852
  }

  lemma RelayIsTopped(r: Relay, outer: uint64)
    requires r.Valid()
    ensures Topped(RoundsOf(r, outer), BandBase(r, outer))
  {
    var step, base := RoundsOf(r, outer), BandBase(r, outer);
    forall g: uint64 | step(g).Checked? ensures base <= step(g).max <= if g == 0 then base + 864 else base + 852 {
      RoundIsTopped(r, outer, g);
    }
  }

  lemma RoundIsTopped(r: Relay, outer: uint64, gas: uint64)
    requires r.Valid() && RoundAt(r, outer, gas).Checked?
    ensures var max := RoundAt(r, outer, gas).max;
            BandBase(r, outer) <= max <= BandBase(r, outer) + if gas == 0 then 864 else 852
  {
    WhenMeasured(r, outer, gas);
    CalldataGas(r, outer, gas, SignRelay(r, gas).value);
    PositiveGasLimit(gas);
  }

  /** What an answer leaves unused. */
  predicate Leaves(step: Rounds, res: Search, headroom: nat) {
    && res.Found? && res.gas > 0 && step(res.gas).Checked? && res == Triple(res.gas, step(res.gas))
    && step(res.gas).max == res.gas + headroom && headroom <= 852 && headroom % 12 == 0
  }

  ghost predicate EndsEarly(step: Rounds, start: uint64, res: Search) {
    exists k: nat | k < MAX_ROUNDS :: EndsAt(step, start, k, res)
  }

  lemma FoundLeaves(step: Rounds, start: uint64, base: int, res: Search) returns (headroom: nat)
    requires Regular(step, start) && Banded(step) && Topped(step, base) && IsSearch(step, start, res) && res.Found?
    ensures Leaves(step, res, headroom) && (EndsEarly(step, start, res) ==> headroom == 0)
  {
    var k := FoundPassed(step, start, res);
    var gas := CandidateIsMaximum(step, start, k);
    assert Near(step(res.gas).max, step(gas).max);
    assert step(res.gas).max <= base + 852 && base <= step(gas).max;
    headroom := step(res.gas).max - res.gas;
  }

  /** The answer is itself a guard maximum of the same call, so what it leaves unused lies on the grid. */
  lemma HeadroomOnGrid(r: Relay, outer: uint64, res: Search) returns (headroom: nat)
    requires r.Valid() && IsSearch(RoundsOf(r, outer), Start(outer), res) && res.Found?
    ensures Leaves(RoundsOf(r, outer), res, headroom)
    ensures EndsEarly(RoundsOf(r, outer), Start(outer), res) ==> headroom == 0
  {
    RelayIsRegular(r, outer);
    RelayIsBanded(r, outer);
    RelayIsTopped(r, outer);
    headroom := FoundLeaves(RoundsOf(r, outer), Start(outer), BandBase(r, outer), res);
  }

  lemma FoundIsAccepted(r: Relay, outer: uint64, res: Search)
    requires r.Valid() && res.Found? && RoundAt(r, outer, res.gas).Checked?
    requires res == Triple(res.gas, RoundAt(r, outer, res.gas))
    ensures HubAccepts(r, Calldata(r, res.gas, res.sig))
  {
    RoundParts(r, outer, res.gas);
    SignedIsAccepted(r, res.gas);
  }

  /** Every answer is a consistent triple whose unused gas is one of 0, 12, ..., 852, and 0 on an early return. */
  lemma FoundIsConsistent(r: Relay, outer: uint64, res: Search) returns (headroom: nat)
    requires r.Valid() && IsSearch(RoundsOf(r, outer), Start(outer), res) && res.Found?
    ensures res.gas > 0 && SignRelay(r, res.gas) == Some(res.sig)
    ensures res.intrinsic == 21_000 + DataGas(Calldata(r, res.gas, res.sig))
    ensures res.gas + res.intrinsic + 375_000 + headroom == outer
    ensures headroom <= 852 && headroom % 12 == 0
    ensures EndsEarly(RoundsOf(r, outer), Start(outer), res) ==> headroom == 0
    ensures HubAccepts(r, Calldata(r, res.gas, res.sig))
  {
    headroom := HeadroomOnGrid(r, outer, res);
    FoundIsAccepted(r, outer, res);
    assert RoundsOf(r, outer)(res.gas) == RoundAt(r, outer, res.gas);
    RoundBudget(r, outer, res.gas);
  }

  /** No limit that passes its own guard exceeds the answer by more than 852 gas. */
  lemma FoundIsNearlyBest(r: Relay, outer: uint64, res: Search, other: uint64)
    requires r.Valid() && IsSearch(RoundsOf(r, outer), Start(outer), res) && res.Found?
    requires RoundAt(r, outer, other).Checked? && other <= RoundAt(r, outer, other).max
    ensures other <= res.gas + 852
  {
    RelayIsRegular(r, outer);
    RelayIsTopped(r, outer);
    assert RoundsOf(r, outer)(other) == RoundAt(r, outer, other);
    NearlyBest(RoundsOf(r, outer), Start(outer), BandBase(r, outer), res, other);
  }

  lemma NearlyBest(step: Rounds, start: uint64, base: int, res: Search, other: uint64)
    requires Regular(step, start) && Topped(step, base) && IsSearch(step, start, res) && res.Found?
    requires step(other).Checked? && other <= step(other).max
    ensures other <= res.gas + 852
  {
    var k := FoundPassed(step, start, res);
    var gas := CandidateIsMaximum(step, start, k);
    assert step(other).max <= if other == 0 then base + 864 else base + 852;
    assert base <= step(gas).max;
  }

  /** Without an answer every candidate was checked, and was above its maximum. */
  lemma AllDescend(step: Rounds, start: uint64, k: nat)
    requires IsSearch(step, start, NoLimit) && k < MAX_ROUNDS
    ensures Candidate(step, start, k).Some?
    ensures var here := Candidate(step, start, k).value;
            step(here).Checked? && step(here).max < here && Candidate(step, start, k + 1) == Some(step(here).max)
  {
    assert AllMove(step, start, MAX_ROUNDS);
    assert Moves(step, start, k) && !Passes(step, start, k);
  }

  /** Candidate k is above the next one: by at least 12, unless it is the first. */
  ghost predicate Descends(step: Rounds, start: uint64, k: nat) {
    && Candidate(step, start, k).Some? && Candidate(step, start, k + 1).Some?
    && Candidate(step, start, k).value >= Candidate(step, start, k + 1).value + if k > 0 then 12 else 1
  }

  lemma BandedDescends(step: Rounds, start: uint64, k: nat)
    requires Banded(step) && IsSearch(step, start, NoLimit) && k < MAX_ROUNDS
    ensures Descends(step, start, k)
  {
    AllDescend(step, start, k);
    if k > 0 {
      var gas := CandidateIsMaximum(step, start, k);
      assert Near(step(gas).max, step(step(gas).max).max);
    }
  }

  /** "could not find" means that all twelve candidates were above their maximum: each is at least 12 below the last. */
  lemma NoLimitDescends(r: Relay, outer: uint64, k: nat)
    requires r.Valid() && IsSearch(RoundsOf(r, outer), Start(outer), NoLimit) && k < MAX_ROUNDS
    ensures Descends(RoundsOf(r, outer), Start(outer), k)
  {
    RelayIsBanded(r, outer);
    BandedDescends(RoundsOf(r, outer), Start(outer), k);
  }

  /** Below 396000 the start wraps around 2^64, but then the very first round fails: no wrapped value gets out. */
  lemma SmallOuterLimitFails(r: Relay, outer: uint64, res: Search)
    requires r.Valid() && IsSearch(RoundsOf(r, outer), Start(outer), res) && outer < 396_000
    ensures Start(outer) == outer - 396_000 + TWO_TO_64
    ensures res == Triple(Start(outer), RoundsOf(r, outer)(Start(outer))) && (res.SignError? || res.SizeError?)
  {
    StartWraps(outer);
    WrappedStartFails(r, outer);
    FirstRoundEnds(RoundsOf(r, outer), Start(outer), res);
  }

  lemma StartWraps(outer: uint64)
    requires outer < 396_000
    ensures Start(outer) == outer - 396_000 + TWO_TO_64
  {
  }

  lemma WrappedStartFails(r: Relay, outer: uint64)
    requires r.Valid() && outer < 396_000
    ensures !RoundsOf(r, outer)(Start(outer)).Checked?
  {
    if RoundsOf(r, outer)(Start(outer)).Checked? {
      StartFails(r, outer);
    }
  }

  lemma FirstRoundEnds(step: Rounds, start: uint64, res: Search)
    requires IsSearch(step, start, res) && !step(start).Checked?
    ensures res == Triple(start, step(start))
  {
    assert !Moves(step, start, 0);
    if k: nat :| k < MAX_ROUNDS && EndsAt(step, start, k, res) {
      assert k == 0;
    }
  }

  // ----- When the search must succeed, and when it need not -----

  /** With room for the dearest calldata, the base of the band is a limit that passes its own guard. */
  lemma ALimitPasses(r: Relay, outer: uint64)
    requires r.Valid() && 0 < BandBase(r, outer)
    ensures BandBase(r, outer) < TWO_TO_64
    ensures SignRelay(r, BandBase(r, outer)).Some? ==>
              var c := RoundAt(r, outer, BandBase(r, outer)); c.Checked? && BandBase(r, outer) <= c.max
  {
    CalldataGas(r, outer, 0, EthereumSignature(RawWithZeros(0)));
    WhenMeasured(r, outer, BandBase(r, outer));
  }

  /**
   * When the outer limit covers the dearest calldata and signing works, the search ends with a limit or without one;
   * a limit that passes its own guard exists either way, so ending without one is always a miss.
   */
  lemma LargeOuterLimitSearches(r: Relay, outer: uint64, res: Search)
    requires r.Valid() && IsSearch(RoundsOf(r, outer), Start(outer), res)
    requires BandBase(r, outer) > 0 && forall gas: uint64 :: SignRelay(r, gas).Some?
    ensures res.Found? || res.NoLimit?
    ensures exists gas: uint64 :: Passing(r, outer, gas)
  {
    forall gas: uint64 ensures RoundsOf(r, outer)(gas).Checked? {
      WhenMeasured(r, outer, gas);
    }
    ChecksOnly(RoundsOf(r, outer), Start(outer), res);
    ALimitPasses(r, outer);
    assert Passing(r, outer, BandBase(r, outer));
  }

  /** A positive limit that passes the guard of its own calldata. */
  predicate Passing(r: Relay, outer: uint64, gas: uint64) {
    gas > 0 && RoundAt(r, outer, gas).Checked? && gas <= RoundAt(r, outer, gas).max
  }

  lemma ChecksOnly(step: Rounds, start: uint64, res: Search)
    requires IsSearch(step, start, res) && forall gas: uint64 :: step(gas).Checked?
    ensures res.Found? || res.NoLimit?
  {
  }
}
