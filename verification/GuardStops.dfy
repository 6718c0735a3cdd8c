/** When signMaxGuardRelay of clob/relayer.go can return early below a larger gas limit that passes, and how far. */
module GuardStops {
  import opened Encoding
  import opened Crypto
  import opened GoInts
  import opened RelayCall
  import opened GasGuard
  import opened GuardSearch

  /** The search ends at a fixed point although a larger limit passes the guard of its own calldata. */
  ghost predicate StopsBelow(r: Relay, outer: uint64, res: Search, other: uint64) {
    && IsSearch(RoundsOf(r, outer), Start(outer), res) && EndsEarly(RoundsOf(r, outer), Start(outer), res)
    && res.Found? && Passing(r, outer, other) && other > res.gas
  }

  ghost predicate CanStopBelow(r: Relay, outer: uint64) {
    exists sign: Signer, res: Search, other: uint64 :: StopsBelow(r.(sign := sign), outer, res, other)
  }

  /** The widest gap that any answer can leave. */
  ghost predicate CanStopFarBelow(r: Relay, outer: uint64) {
    exists sign: Signer, res: Search, other: uint64 ::
      StopsBelow(r.(sign := sign), outer, res, other) && other == res.gas + 852
  }

  // ----- What an early return below a passing limit takes -----

  lemma {:induction false} FirstIsChecked(step: Rounds, start: uint64, k: nat)
    requires k > 0 && Candidate(step, start, k).Some?
    ensures step(start).Checked?
  {
    if k > 1 {
      FirstIsChecked(step, start, k - 1);
    }
  }

  /** The start leaves something even at 64 zero bytes in the signature, and so does some limit of one byte at 63. */
  predicate HasRoomAbove(base: int, start: nat) {
    base + 12 * ZerosOf(start) + 768 > 0 && base + 840 > 0
  }

  lemma StopParts(step: Rounds, start: uint64, res: Search)
    requires Regular(step, start) && IsSearch(step, start, res) && EndsEarly(step, start, res) && res.Found?
    ensures step(start).Checked? && step(res.gas).Checked? && step(res.gas).max == res.gas
  {
    var k := FoundPassed(step, start, res);
    FirstIsChecked(step, start, k);
  }

  lemma MaximumOf(r: Relay, outer: uint64, gas: uint64) returns (zeros: nat)
    requires r.Valid() && RoundAt(r, outer, gas).Checked?
    ensures zeros <= 64 && RoundAt(r, outer, gas).max == BandBase(r, outer) + 12 * ZerosOf(gas) + 12 * zeros > 0
  {
    WhenMeasured(r, outer, gas);
    zeros := ZeroCount(SignRelay(r, gas).value);
    CalldataGas(r, outer, gas, SignRelay(r, gas).value);
  }

  /** An answer lies its zero bytes and those of its signature above the base: 70 at most if a larger one passes. */
  lemma StopNeedsRoom(r: Relay, outer: uint64, res: Search, other: uint64) returns (zeros: nat)
    requires r.Valid() && StopsBelow(r, outer, res, other)
    ensures HasRoomAbove(BandBase(r, outer), Start(outer))
    ensures res.gas == BandBase(r, outer) + 12 * ZerosOf(res.gas) + 12 * zeros
    ensures other <= BandBase(r, outer) + 12 * ZerosOf(other) + 768 && ZerosOf(other) <= 7
  {
    RelayIsRegular(r, outer);
    StopParts(RoundsOf(r, outer), Start(outer), res);
    var first := MaximumOf(r, outer, Start(outer));
    zeros := MaximumOf(r, outer, res.gas);
    var others := MaximumOf(r, outer, other);
    PositiveGasLimit(other);
    StepsBelow(BandBase(r, outer), res.gas, ZerosOf(res.gas) + zeros, other);
  }

  lemma StepsBelow(base: int, gas: nat, level: nat, other: int)
    requires 0 < gas == base + 12 * level < other <= base + 852
    ensures level <= 70 && base + 840 > 0
  {
  }

  // ----- Signers that stop the search early -----

  /** The search goes from the start to mid and from there to gas, where it stays. */
  lemma StopsAtThird(step: Rounds, start: uint64, mid: uint64, gas: uint64)
    requires step(start).Checked? && step(start).max == mid && step(mid).Checked? && step(mid).max == gas
    requires step(gas).Checked? && step(gas).max == gas && start != mid
    ensures IsSearch(step, start, Triple(gas, step(gas))) && EndsEarly(step, start, Triple(gas, step(gas)))
  {
    assert Candidate(step, start, 1) == Some(mid);
    assert Moves(step, start, 0);
    if mid == gas {
      assert EndsAt(step, start, 1, Triple(gas, step(gas)));
    } else {
      assert Candidate(step, start, 2) == Some(gas);
      assert Moves(step, start, 1);
      assert EndsAt(step, start, 2, Triple(gas, step(gas)));
    }
  }

  /** Calldata has 484 bytes and more, at 4 gas or more. */
  lemma CalldataCosts(r: Relay, outer: uint64, gas: uint64, zeros: nat)
    requires r.Valid() && zeros <= 64
    ensures PlainMax(r, outer, gas) + 12 * zeros + 396_000 + 1936 <= outer
  {
    var sig := EthereumSignature(RawWithZeros(zeros));
    ZerosOfRaw(zeros);
    CalldataGas(r, outer, gas, sig);
    CalldataSlots(r, gas, sig);
  }

  lemma StartIsFar(r: Relay, outer: uint64, zeros: nat)
    requires r.Valid() && zeros <= 64 && PlainMax(r, outer, Start(outer)) + 12 * zeros > 0
    ensures Start(outer) >= PlainMax(r, outer, Start(outer)) + 12 * zeros + 1936
  {
    CalldataCosts(r, outer, Start(outer), zeros);
    StartWithin(outer, PlainMax(r, outer, Start(outer)) + 12 * zeros);
  }

  lemma StartWithin(outer: uint64, max: nat)
    requires max + 396_000 + 1936 <= outer
    ensures Start(outer) >= max + 1936
  {
  }

  /** With the signatures planned, the start leads to mid, mid to gas and gas to itself, while other passes. */
  predicate StopsAt(base: int, start: nat, mid: int, gas: int, other: int, plan: nat -> nat) {
    && 0 < gas < other < TWO_TO_64 && other <= base + 12 * ZerosOf(other) + 12 * plan(other) && plan(other) <= 64
    && 0 < mid < TWO_TO_64
    && plan(start) <= 64 && base + 12 * ZerosOf(start) + 12 * plan(start) == mid
    && plan(mid) <= 64 && base + 12 * ZerosOf(mid) + 12 * plan(mid) == gas
    && plan(gas) <= 64 && base + 12 * ZerosOf(gas) + 12 * plan(gas) == gas
  }

  lemma PlannedMaximum(r: Relay, outer: uint64, gas: uint64, max: int, plan: nat -> nat)
    requires r.Valid() && HashSeparates(r) && plan(gas) <= 64
    requires BandBase(r, outer) + 12 * ZerosOf(gas) + 12 * plan(gas) == max > 0
    ensures var c := RoundAt(r.(sign := PlannedSigner(r, plan)), outer, gas); c.Checked? && c.max == max
  {
    PlannedRound(r, plan, outer, gas);
  }

  lemma PlanStops(r: Relay, outer: uint64, mid: uint64, gas: uint64, other: uint64, plan: nat -> nat)
    requires r.Valid() && HashSeparates(r)
    requires StopsAt(BandBase(r, outer), Start(outer), mid, gas, other, plan)
    ensures var r' := r.(sign := PlannedSigner(r, plan));
            RoundAt(r', outer, gas).Checked? && StopsBelow(r', outer, Triple(gas, RoundAt(r', outer, gas)), other)
  {
    var base, start := BandBase(r, outer), Start(outer);
    StartIsFar(r, outer, plan(start));
    PlannedMaximum(r, outer, start, mid, plan);
    PlannedMaximum(r, outer, mid, gas, plan);
    PlannedMaximum(r, outer, gas, gas, plan);
    PlannedMaximum(r, outer, other, base + 12 * ZerosOf(other) + 12 * plan(other), plan);
    RoundsStop(r.(sign := PlannedSigner(r, plan)), outer, mid, gas, other);
  }

  lemma RoundsStop(r: Relay, outer: uint64, mid: uint64, gas: uint64, other: uint64)
    requires RoundAt(r, outer, Start(outer)).Checked? && RoundAt(r, outer, Start(outer)).max == mid < Start(outer)
    requires RoundAt(r, outer, mid).Checked? && RoundAt(r, outer, mid).max == gas < other
    requires RoundAt(r, outer, gas).Checked? && RoundAt(r, outer, gas).max == gas && Passing(r, outer, other)
    ensures StopsBelow(r, outer, Triple(gas, RoundAt(r, outer, gas)), other)
  {
    StopsAtThird(RoundsOf(r, outer), Start(outer), mid, gas);
  }

  // ----- Exactly when some limit above passes -----

  /** A level that a signature can bring the start to and a small limit can keep. */
  function Level(base: int, start: nat): nat {
    if base > -756 then 63 else if ZerosOf(start) < 6 then ZerosOf(start) + 64 else 70
  }

  function StopPlan(start: nat, gas: nat, level: nat): nat -> nat {
    (g: nat) => if (g == start || g == gas) && ZerosOf(g) <= level <= ZerosOf(g) + 64 then level - ZerosOf(g) else 64
  }

  lemma LevelStops(base: int, start: uint64)
    requires HasRoomAbove(base, start) && start >= base + 12 * Level(base, start) + 1936
    ensures var level := Level(base, start);
            var gas := base + 12 * level;
            gas > 0 && StopsAt(base, start, gas, gas, gas + 1, StopPlan(start, gas, level))
  {
    var gas: int := base + 12 * Level(base, start);
    PositiveGasLimit(start);
    PositiveGasLimit(gas);
    PositiveGasLimit(gas + 1);
    SmallGasLimit(gas);
    SmallGasLimit(gas + 1);
  }

  lemma StopHappens(r: Relay, outer: uint64)
    requires r.Valid() && HashSeparates(r) && HasRoomAbove(BandBase(r, outer), Start(outer))
    ensures CanStopBelow(r, outer)
  {
    var base, start := BandBase(r, outer), Start(outer);
    var level := Level(base, start);
    PositiveGasLimit(start);
    StartIsFar(r, outer, level - ZerosOf(start));
    LevelStops(base, start);
    var gas := base + 12 * level;
    PlanStops(r, outer, gas, gas, gas + 1, StopPlan(start, gas, level));
  }

  /**
   * Exactly when the search can return early although a larger limit passes, over all signers: when the first candidate
   * leaves something to a signature of 64 zero bytes, and the base lies less than 840 below 0.
   */
  lemma StopsBelowExactly(r: Relay, outer: uint64)
    requires r.Valid() && HashSeparates(r)
    ensures CanStopBelow(r, outer) <==> PlainMax(r, outer, Start(outer)) + 768 > 0 && BandBase(r, outer) + 840 > 0
  {
    if sign: Signer, res: Search, other: uint64 :| StopsBelow(r.(sign := sign), outer, res, other) {
      var zeros := StopNeedsRoom(r.(sign := sign), outer, res, other);
      BaseIsSignerFree(r, sign, outer);
    }
    if HasRoomAbove(BandBase(r, outer), Start(outer)) {
      StopHappens(r, outer);
    }
  }

  // ----- Exactly when the limit above is 852 above -----

  /** The base as an answer has no zero byte, and the limit 852 above it has seven. */
  predicate IsWidest(base: int) {
    base > 0 && ZerosOf(base) == 0 && ZerosOf(base + 852) == 7
  }

  lemma WidestIsNeeded(r: Relay, outer: uint64, res: Search, other: uint64)
    requires r.Valid() && StopsBelow(r, outer, res, other) && other == res.gas + 852
    ensures IsWidest(BandBase(r, outer))
  {
    var zeros := StopNeedsRoom(r, outer, res, other);
    WidestNumbers(BandBase(r, outer), res.gas, other, ZerosOf(res.gas) + zeros, ZerosOf(other));
  }

  lemma WidestNumbers(base: int, gas: nat, other: nat, level: nat, otherZeros: nat)
    requires 0 < gas == base + 12 * level && other == gas + 852 <= base + 12 * otherZeros + 768 && otherZeros <= 7
    ensures gas == base && level == 0 && otherZeros == 7
  {
  }

  /** One byte more. */
  lemma ZerosOfAppended(v: nat, d: byte, n: nat)
    ensures ZeroCount(FromNat(256 * v + d, n + 1)) == ZeroCount(FromNat(v, n)) + if d == 0 then 1 else 0
  {
    FromNatSnoc(256 * v + d, n + 1);
  }

  /** A limit with seven zero bytes, 852 above one without any, ends in two of them: the others are too small. */
  lemma WidestEndsInZeros(base: uint64, v: nat, d: byte, e: byte)
    requires IsWidest(base) && base + 852 == 256 * (256 * v + d) + e < TWO_TO_64
    ensures d == 0 && e == 0 && v > 0
  {
    LowBytes(v, d, e);
    LeadingZeros(v);
    SmallGasLimit(base);
  }

  /** So the limit without any ends in 0xFCAC, and the one 96 above it, in 0xFD0C, has none either. */
  lemma WidestHasMiddle(base: uint64)
    requires IsWidest(base)
    ensures base + 948 < TWO_TO_64 && ZerosOf(base + 96) == 0
  {
    var other: nat := base + 852;
    WidestEndsInZeros(base, other / 256 / 256, other / 256 % 256, other % 256);
    AboveTail(base, other / 256 / 256);
  }

  lemma AboveTail(base: nat, v: nat)
    requires base + 852 == 0x1_0000 * v < TWO_TO_64 && v > 0
    ensures base + 948 < TWO_TO_64 && ZerosOf(base + 96) == ZerosOf(base)
  {
    SameAboveTail(v - 1, base, 0xFC, 0xAC, base + 96, 0xFD, 0x0C);
  }

  lemma SameAboveTail(v: nat, gas: nat, d: byte, e: byte, gas': nat, d': byte, e': byte)
    requires gas == 256 * (256 * v + d) + e < TWO_TO_64 && gas' == 256 * (256 * v + d') + e' < TWO_TO_64
    requires d != 0 && e != 0 && d' != 0 && e' != 0
    ensures ZerosOf(gas) == ZerosOf(gas')
  {
    LowBytes(v, d, e);
    LowBytes(v, d', e');
  }

  lemma LowBytes(v: nat, d: byte, e: byte)
    ensures ZeroCount(FromNat(256 * (256 * v + d) + e, 8))
         == ZeroCount(FromNat(v, 6)) + (if d == 0 then 1 else 0) + if e == 0 then 1 else 0
  {
    ZerosOfAppended(256 * v + d, e, 7);
    ZerosOfAppended(v, d, 6);
  }

  lemma LeadingZeros(v: nat)
    requires v < 0x1_0000_0000_0000
    ensures v > 0 ==> ZeroCount(FromNat(v, 6)) <= 5
  {
    assert Pow256(6) == 0x1_0000_0000_0000;
    FromNatExact(v, 6);
    AllZerosIsZero(FromNat(v, 6));
  }

  /** Level 8 on the way, so that the start can have any number of zero bytes; then the base, which stays. */
  function WidestPlan(start: nat, base: nat): nat -> nat {
    (g: nat) =>
      if g == start && ZerosOf(g) <= 8 then 8 - ZerosOf(g) else if g == base || g == base + 96 then 0 else 64
  }

  lemma WidestStops(base: uint64, start: uint64)
    requires IsWidest(base) && start >= base + 2032
    ensures StopsAt(base, start, base + 96, base, base + 852, WidestPlan(start, base))
  {
    WidestHasMiddle(base);
    PositiveGasLimit(start);
  }

  /**
   * Exactly when an early return can lie 852 below a limit that passes, the widest gap there is: when the base has no
   * zero byte and the limit 852 above it has seven.
   */
  lemma WidestGapExactly(r: Relay, outer: uint64)
    requires r.Valid() && HashSeparates(r)
    ensures CanStopFarBelow(r, outer) <==> IsWidest(BandBase(r, outer))
  {
    if sign: Signer, res: Search, other: uint64 :|
         StopsBelow(r.(sign := sign), outer, res, other) && other == res.gas + 852 {
      WidestIsNeeded(r.(sign := sign), outer, res, other);
      BaseIsSignerFree(r, sign, outer);
    }
    if IsWidest(BandBase(r, outer)) {
      WidestHappens(r, outer);
    }
  }

  lemma WidestHappens(r: Relay, outer: uint64)
    requires r.Valid() && HashSeparates(r) && IsWidest(BandBase(r, outer))
    ensures CanStopFarBelow(r, outer)
  {
    var base, start := BandBase(r, outer), Start(outer);
    var plan := WidestPlan(start, base);
    BaseBelowOuter(r, outer);
    PositiveGasLimit(start);
    StartIsFar(r, outer, 8 - ZerosOf(start));
    WidestStops(base, start);
    StopsFarBelow(r, outer, base + 96, base, base + 852, plan);
  }

  lemma StopsFarBelow(r: Relay, outer: uint64, mid: uint64, gas: uint64, other: uint64, plan: nat -> nat)
    requires r.Valid() && HashSeparates(r) && other == gas + 852
    requires StopsAt(BandBase(r, outer), Start(outer), mid, gas, other, plan)
    ensures CanStopFarBelow(r, outer)
  {
    PlanStops(r, outer, mid, gas, other, plan);
  }

  // ----- Every call has an outer limit for which it is -----

  lemma {:induction false} TwoAndZeros(n: nat)
    ensures ZeroCount(FromNat(2 * Pow256(n), n + 1)) == n
    ensures ZeroCount(FromNat(2 * Pow256(n) - 1, n + 1)) == 0
  {
    if n == 0 {
      ZerosOfAppended(0, 2, 0);
      ZerosOfAppended(0, 1, 0);
    } else {
      TwoAndZeros(n - 1);
      ZerosOfAppended(2 * Pow256(n - 1), 0, n);
      ZerosOfAppended(2 * Pow256(n - 1) - 1, 255, n);
    }
  }

  lemma WidestBase()
    ensures IsWidest(0x200_0000_0000_0000 - 852)
  {
    assert Pow256(5) == 0x100_0000_0000 && Pow256(7) == 0x100_0000_0000_0000;
    TwoAndZeros(5);
    TwoAndZeros(7);
    LowBytes(2 * Pow256(5) - 1, 0xFC, 0xAC);
  }

  /** Whatever the call, 852 is attained for some outer limit and some signer. */
  lemma WidestGapHappens(r: Relay) returns (outer: uint64)
    requires r.Valid() && HashSeparates(r)
    ensures CanStopFarBelow(r, outer)
  {
    var cost := -BandBase(r, 0);
    CalldataGas(r, 0, 0, EthereumSignature(RawWithZeros(0)));
    assert 0 <= cost < 0x1_0000_0000_0000_0000 - 0x200_0000_0000_0000;
    outer := 0x200_0000_0000_0000 - 852 + cost;
    WidestBase();
    WidestGapExactly(r, outer);
  }
}
