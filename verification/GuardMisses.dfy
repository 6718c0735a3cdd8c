/** When signMaxGuardRelay of clob/relayer.go can miss every gas limit that passes the guard. */
module GuardMisses {
  import opened Encoding
  import opened Crypto
  import opened GoInts
  import opened RelayCall
  import opened GasGuard
  import opened GuardSearch

  /** The search ends without a limit although one passes the guard of its own calldata. */
  ghost predicate Misses(r: Relay, outer: uint64) {
    IsSearch(RoundsOf(r, outer), Start(outer), NoLimit) && exists gas: uint64 :: Passing(r, outer, gas)
  }

  ghost predicate CanMiss(r: Relay, outer: uint64) {
    exists sign: Signer :: Misses(r.(sign := sign), outer)
  }

  // ----- A miss needs room for twelve steps down -----

  lemma {:induction false} StepsDown(step: Rounds, start: uint64, k: nat)
    requires Regular(step, start) && Banded(step) && IsSearch(step, start, NoLimit) && 1 <= k <= MAX_ROUNDS
    ensures Candidate(step, start, 1).Some? && Candidate(step, start, k).Some?
    ensures Candidate(step, start, 1).value >= Candidate(step, start, k).value + 12 * (k - 1)
    ensures Candidate(step, start, k).value > 0
  {
    BandedDescends(step, start, k - 1);
    var gas := CandidateIsMaximum(step, start, k);
    if k > 1 {
      StepsDown(step, start, k - 1);
    }
  }

  lemma MissNeedsRoom(r: Relay, outer: uint64)
    requires r.Valid() && IsSearch(RoundsOf(r, outer), Start(outer), NoLimit)
    ensures PlainMax(r, outer, Start(outer)) + 636 > 0
  {
    var step, start := RoundsOf(r, outer), Start(outer);
    RelayIsRegular(r, outer);
    RelayIsBanded(r, outer);
    StepsDown(step, start, MAX_ROUNDS);
    var gas := CandidateIsMaximum(step, start, 1);
    FirstMaximum(r, outer);
  }

  lemma FirstMaximum(r: Relay, outer: uint64)
    requires r.Valid() && RoundAt(r, outer, Start(outer)).Checked?
    ensures RoundAt(r, outer, Start(outer)).max <= PlainMax(r, outer, Start(outer)) + 768
  {
    WhenMeasured(r, outer, Start(outer));
    CalldataGas(r, outer, Start(outer), SignRelay(r, Start(outer)).value);
  }

  // ----- And room for twelve steps is enough -----

  /** Candidate k when the zero bytes of gas limit and signature together start at first and dwindle by one a round. */
  function Nth(base: int, start: int, first: int, k: nat): int {
    if k == 0 then start else base + 12 * (first + 1 - k)
  }

  /** Round k goes from one candidate to the next. */
  predicate FollowsAt(step: Rounds, base: int, start: int, first: int, k: nat) {
    var here := Nth(base, start, first, k);
    0 <= here < TWO_TO_64 && step(here).Checked? && step(here).max == Nth(base, start, first, k + 1)
  }

  lemma {:induction false} FollowedCandidate(step: Rounds, base: int, start: uint64, first: int, k: nat)
    requires forall j: nat | j < k :: FollowsAt(step, base, start, first, j)
    requires start > Nth(base, start, first, 1)
    ensures k > 0 ==> 0 <= Nth(base, start, first, k) < TWO_TO_64
    ensures Candidate(step, start, k) == Some(Nth(base, start, first, k))
    ensures k > 0 ==> Moves(step, start, k - 1) && !Passes(step, start, k - 1)
  {
    if k > 0 {
      FollowedCandidate(step, base, start, first, k - 1);
      assert FollowsAt(step, base, start, first, k - 1);
    }
  }

  lemma FollowedMisses(step: Rounds, base: int, start: uint64, first: int)
    requires forall j: nat | j < MAX_ROUNDS :: FollowsAt(step, base, start, first, j)
    requires start > Nth(base, start, first, 1)
    ensures IsSearch(step, start, NoLimit)
  {
    forall k: nat | k < MAX_ROUNDS ensures Moves(step, start, k) && !Passes(step, start, k) {
      FollowedCandidate(step, base, start, first, k + 1);
    }
  }

  function Clamp(zeros: int): nat {
    if 0 <= zeros <= 64 then zeros else 0
  }

  /** The zero bytes of each signature; where the band is not positive, gas limit 1 gets as many as possible. */
  function Dwindling(base: int, start: int, first: int): nat -> nat {
    (gas: nat) =>
      if gas == start then Clamp(first - ZerosOf(gas))
      else if base <= 0 && gas == 1 then 64
      else Clamp((gas - base) / 12 - 1 - ZerosOf(gas))
  }

  /** The zero bytes of the first round: with a positive band the twelve rounds can stay clear of both extremes. */
  function FirstZeros(base: int, start: nat): int {
    if base > 0 then 40 else ZerosOf(start) + 64
  }

  /** The numbers of the witness: where it starts, and that all twelve candidates are positive gas limits below it. */
  predicate HasRoom(base: int, start: int, first: int) {
    && 0 < start < TWO_TO_64 && Nth(base, start, first, 1) < start && Nth(base, start, first, MAX_ROUNDS) > 0
    && first == FirstZeros(base, start)
  }

  lemma WitnessHasRoom(r: Relay, outer: uint64)
    requires r.Valid() && PlainMax(r, outer, Start(outer)) + 636 > 0
    ensures HasRoom(BandBase(r, outer), Start(outer), FirstZeros(BandBase(r, outer), Start(outer)))
  {
    var base, start := BandBase(r, outer), Start(outer);
    var first := FirstZeros(base, start);
    PositiveGasLimit(start);
    ZerosOfRaw(64);
    CalldataGas(r, outer, start, EthereumSignature(RawWithZeros(64)));
    CalldataSlots(r, start, EthereumSignature(RawWithZeros(64)));
    var sig := EthereumSignature(RawWithZeros(64));
    StartCovers(outer, PlainMax(r, outer, start) + 768, DataGas(Calldata(r, start, sig)));
  }

  /** The maximum left by calldata that costs something is below the start. */
  lemma StartCovers(outer: uint64, max: int, dataGas: nat)
    requires dataGas > 0 && dataGas + 396_000 + max == outer && max > 0
    ensures max < Start(outer)
  {
  }

  /** Each candidate gets the zero bytes its round needs. */
  lemma PlanFits(base: int, start: uint64, first: int, k: nat)
    requires HasRoom(base, start, first) && k < MAX_ROUNDS
    ensures var here := Nth(base, start, first, k);
            && 0 <= here < TWO_TO_64
            && ZerosOf(here) + Dwindling(base, start, first)(here) == first - k
            && Dwindling(base, start, first)(here) <= 64
  {
    var here: int := Nth(base, start, first, k);
    PositiveGasLimit(start);
    PositiveGasLimit(here);
    SmallGasLimit(here);
  }

  lemma PlanFollows(r: Relay, outer: uint64, k: nat)
    requires r.Valid() && HashSeparates(r) && k < MAX_ROUNDS
    requires HasRoom(BandBase(r, outer), Start(outer), FirstZeros(BandBase(r, outer), Start(outer)))
    ensures var base, start := BandBase(r, outer), Start(outer);
            var first := FirstZeros(base, start);
            FollowsAt(RoundsOf(Planned(r, Dwindling(base, start, first)), outer), base, start, first, k)
  {
    var base, start := BandBase(r, outer), Start(outer);
    var first := FirstZeros(base, start);
    PlanFits(base, start, first, k);
    PlannedRound(r, Dwindling(base, start, first), outer, Nth(base, start, first, k));
  }

  lemma PlannedPasses(r: Relay, plan: nat -> nat, outer: uint64, gas: uint64)
    requires r.Valid() && HashSeparates(r) && plan(gas) <= 64
    requires 0 < gas <= BandBase(r, outer) + 12 * ZerosOf(gas) + 12 * plan(gas)
    ensures Passing(Planned(r, plan), outer, gas)
  {
    PlannedRound(r, plan, outer, gas);
  }

  /** Whatever the band, the plan leaves a limit that passes: the base if it is positive, else 1. */
  lemma PlanLeavesOne(base: int, start: uint64, first: int) returns (gas: uint64)
    requires HasRoom(base, start, first) && base < TWO_TO_64
    ensures var plan := Dwindling(base, start, first);
            plan(gas) <= 64 && 0 < gas <= base + 12 * ZerosOf(gas) + 12 * plan(gas)
  {
    gas := if base > 0 then base else 1;
    PositiveGasLimit(start);
    SmallGasLimit(1);
  }

  lemma PlanPasses(r: Relay, outer: uint64)
    requires r.Valid() && HashSeparates(r)
    requires HasRoom(BandBase(r, outer), Start(outer), FirstZeros(BandBase(r, outer), Start(outer)))
    ensures var base, start := BandBase(r, outer), Start(outer);
            exists gas: uint64 :: Passing(Planned(r, Dwindling(base, start, FirstZeros(base, start))), outer, gas)
  {
    var base, start := BandBase(r, outer), Start(outer);
    var first := FirstZeros(base, start);
    BaseBelowOuter(r, outer);
    var gas := PlanLeavesOne(base, start, first);
    PlannedPasses(r, Dwindling(base, start, first), outer, gas);
  }

  /**
   * Exactly when the search can miss: for some signer it ends without a limit although one passes iff the first
   * candidate's maximum for a signature with 64 zero bytes leaves room for twelve steps of 12 down to a positive limit.
   * Everything in the condition is known before the search.
   */
  lemma MissesExactly(r: Relay, outer: uint64)
    requires r.Valid() && HashSeparates(r)
    ensures CanMiss(r, outer) <==> PlainMax(r, outer, Start(outer)) + 636 > 0
  {
    if CanMiss(r, outer) {
      var sign: Signer :| Misses(r.(sign := sign), outer);
      MissNeedsRoom(r.(sign := sign), outer);
      BaseIsSignerFree(r, sign, outer);
    }
    if PlainMax(r, outer, Start(outer)) + 636 > 0 {
      NoLimitHappens(r, outer);
    }
  }

  /** The signer that makes it miss. */
  lemma NoLimitHappens(r: Relay, outer: uint64)
    requires r.Valid() && HashSeparates(r) && PlainMax(r, outer, Start(outer)) + 636 > 0
    ensures var base, start := BandBase(r, outer), Start(outer);
            Misses(r.(sign := PlannedSigner(r, Dwindling(base, start, FirstZeros(base, start)))), outer)
    ensures CanMiss(r, outer)
  {
    var base, start := BandBase(r, outer), Start(outer);
    var first := FirstZeros(base, start);
    var step := RoundsOf(Planned(r, Dwindling(base, start, first)), outer);
    WitnessHasRoom(r, outer);
    forall k: nat | k < MAX_ROUNDS ensures FollowsAt(step, base, start, first, k) {
      PlanFollows(r, outer, k);
    }
    FollowedMisses(step, base, start, first);
    PlanPasses(r, outer);
  }
}
