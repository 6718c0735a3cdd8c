/** The RelayHub gas guard of clob/relayer.go and the search for the largest gas limit that passes it. */
module GasGuard {
  import opened Encoding
  import opened Crypto
  import opened GoInts
  import opened RelayCall

  const RELAY_HUB_GUARD_RESERVE_GAS := 350_000
  const RELAY_HUB_PRE_GUARD_GAS := 25_000
  const TX_BASE_GAS := 21_000
  const DEFAULT_OUTER_GAS_LIMIT: uint64 := 10_000_000

  /** effectiveRelayerOuterGasLimit */
  function OuterGasLimit(configured: uint64): uint64 {
    if configured != 0 then configured else DEFAULT_OUTER_GAS_LIMIT
  }

  datatype Guard = TooLarge(intrinsic: uint64) | Limit(max: uint64, intrinsic: uint64)

  function GuardOf(data: Bytes, outer: uint64): Guard {
    var intrinsic := IntrinsicGas(data);
    var required := (intrinsic + RELAY_HUB_GUARD_RESERVE_GAS + RELAY_HUB_PRE_GUARD_GAS) % TWO_TO_64;
    if required >= outer then TooLarge(intrinsic) else Limit(outer - required, intrinsic)
  }

  /** maxGuardRelayGasLimit: whatever calldata leaves of the outer limit, unless nothing is left. */
  method MaxGuardRelayGasLimit(data: Bytes, outer: uint64) returns (g: Guard)
    ensures g == GuardOf(data, outer)
    ensures 16 * |data| + 396_000 < TWO_TO_64 ==>
      && g.intrinsic == TX_BASE_GAS + DataGas(data)
      && (g.TooLarge? <==> TX_BASE_GAS + DataGas(data) + 375_000 >= outer)
      && (g.Limit? ==> g.max + TX_BASE_GAS + DataGas(data) + 375_000 == outer)
  {
    var gas := RelayCallIntrinsicGas(data);
    var required := (gas + RELAY_HUB_GUARD_RESERVE_GAS + RELAY_HUB_PRE_GUARD_GAS) % TWO_TO_64;
    if required >= outer {
      g := TooLarge(gas);
    } else {
      g := Limit(outer - required, gas);
    }
  }

  // ----- One round of the search -----

  datatype Round = SignFailed | Oversized | Checked(sig: Signature, intrinsic: uint64, max: uint64)

  /** Sign the call for this gas limit, pack it, and see which limit its calldata would allow. */
  function RoundAt(r: Relay, outer: uint64, gas: uint64): Round {
    match SignRelay(r, gas)
    case None => SignFailed
    case Some(sig) =>
      match GuardOf(Calldata(r, gas, sig), outer)
      case TooLarge(_) => Oversized
      case Limit(max, intrinsic) => Checked(sig, intrinsic, max)
  }

  /** One iteration's work: sign, pack, check. */
  method EvaluateRound(r: Relay, outer: uint64, gas: uint64) returns (c: Round)
    ensures c == RoundAt(r, outer, gas)
  {
    var signed := SignProxyRelay(r, gas);
    if signed.None? {
      return SignFailed;
    }
    var guard := MaxGuardRelayGasLimit(Calldata(r, gas, signed.value), outer);
    c := if guard.TooLarge? then Oversized else Checked(signed.value, guard.intrinsic, guard.max);
  }

  /** The maximum left by calldata in which neither gas limit nor signature has a zero byte. */
  function BandBase(r: Relay, outer: uint64): int {
    outer - 396_000 - 16 * (484 + Padded(|r.encodedFunction|)) + 12 * FixedZeros(r)
  }

  /** The maximum for this gas limit when the signature has no zero byte: known before anything is signed. */
  function PlainMax(r: Relay, outer: uint64, gas: uint64): int {
    BandBase(r, outer) + 12 * ZeroCount(FromNat(gas, 8))
  }

  /** What calldata costs depends on gas limit and signature only through their zero bytes. */
  lemma CalldataGas(r: Relay, outer: uint64, gas: uint64, sig: Signature)
    requires r.Valid()
    ensures ZeroCount(FromNat(gas, 8)) <= 8 && ZeroCount(sig) <= 64
    ensures 16 * |Calldata(r, gas, sig)| + 396_000 < TWO_TO_64
    ensures DataGas(Calldata(r, gas, sig)) + 396_000 + PlainMax(r, outer, gas) + 12 * ZeroCount(sig) == outer
  {
    CalldataSlots(r, gas, sig);
    CalldataZeros(r, gas, sig);
  }

  lemma BaseBelowOuter(r: Relay, outer: uint64)
    requires r.Valid()
    ensures BandBase(r, outer) < TWO_TO_64
  {
    CalldataGas(r, outer, 0, EthereumSignature(RawWithZeros(0)));
  }

  lemma GuardIsExact(data: Bytes, outer: uint64)
    requires 16 * |data| + 396_000 < TWO_TO_64
    ensures GuardOf(data, outer).intrinsic == TX_BASE_GAS + DataGas(data)
    ensures GuardOf(data, outer).TooLarge? <==> TX_BASE_GAS + DataGas(data) + 375_000 >= outer
    ensures GuardOf(data, outer).Limit? ==> GuardOf(data, outer).max + TX_BASE_GAS + DataGas(data) + 375_000 == outer
  {
  }

  lemma RoundParts(r: Relay, outer: uint64, gas: uint64)
    requires RoundAt(r, outer, gas).Checked?
    ensures var c := RoundAt(r, outer, gas);
            SignRelay(r, gas) == Some(c.sig) && GuardOf(Calldata(r, gas, c.sig), outer) == Limit(c.max, c.intrinsic)
  {
  }

  /**
   * A round yields a maximum exactly when it is signed and its calldata leaves something of the outer limit; the
   * maximum is then known from the call, the gas limit and the number of zero bytes in the signature.
   */
  lemma WhenMeasured(r: Relay, outer: uint64, gas: uint64)
    requires r.Valid()
    ensures RoundAt(r, outer, gas).Checked? <==>
            SignRelay(r, gas).Some? && PlainMax(r, outer, gas) + 12 * ZeroCount(SignRelay(r, gas).value) > 0
    ensures RoundAt(r, outer, gas).SignFailed? <==> SignRelay(r, gas).None?
    ensures RoundAt(r, outer, gas).Checked? <==>
            SignRelay(r, gas).Some? && 396_000 + DataGas(Calldata(r, gas, SignRelay(r, gas).value)) < outer
    ensures var c := RoundAt(r, outer, gas);
            c.Checked? ==> SignRelay(r, gas) == Some(c.sig) && c.max == PlainMax(r, outer, gas) + 12 * ZeroCount(c.sig)
    ensures SignRelay(r, gas).Some? && BandBase(r, outer) > 0 ==> RoundAt(r, outer, gas).Checked?
  {
    if SignRelay(r, gas).Some? {
      var sig := SignRelay(r, gas).value;
      CalldataGas(r, outer, gas, sig);
      GuardIsExact(Calldata(r, gas, sig), outer);
    }
  }

  /** A guard maximum lies on one of 73 points, 12 gas apart, that depend on the call alone. */
  lemma MaximaOnGrid(r: Relay, outer: uint64, gas: uint64) returns (z: nat)
    requires r.Valid() && RoundAt(r, outer, gas).Checked?
    ensures var c := RoundAt(r, outer, gas);
            && z <= 72 && c.max == BandBase(r, outer) + 12 * z && c.max > 0
            && c.max + c.intrinsic + 375_000 == outer
            && c.intrinsic == 21_000 + DataGas(Calldata(r, gas, c.sig))
  {
    var c := RoundAt(r, outer, gas);
    RoundParts(r, outer, gas);
    z := GuardOnGrid(r, outer, gas, c.sig);
  }

  lemma GuardOnGrid(r: Relay, outer: uint64, gas: uint64, sig: Signature) returns (z: nat)
    requires r.Valid() && GuardOf(Calldata(r, gas, sig), outer).Limit?
    ensures var g := GuardOf(Calldata(r, gas, sig), outer);
            && z <= 72 && g.max == BandBase(r, outer) + 12 * z && g.max > 0
            && g.max + g.intrinsic + 375_000 == outer && g.intrinsic == 21_000 + DataGas(Calldata(r, gas, sig))
  {
    CalldataGas(r, outer, gas, sig);
    GuardIsExact(Calldata(r, gas, sig), outer);
    z := ZeroCount(FromNat(gas, 8)) + ZeroCount(sig);
  }

  /** A multiple of 12 apart, and at most 864. */
  predicate Near(m: int, m': int) {
    (m - m') % 12 == 0 && -864 <= m - m' <= 864
  }

  /** For one call, any two guard maxima differ by a multiple of 12 and by at most 864. */
  lemma GuardMaximaAgree(r: Relay, outer: uint64, gas: uint64, gas': uint64)
    requires r.Valid() && RoundAt(r, outer, gas).Checked? && RoundAt(r, outer, gas').Checked?
    ensures Near(RoundAt(r, outer, gas).max, RoundAt(r, outer, gas').max)
  {
    var z := MaximaOnGrid(r, outer, gas);
    var z' := MaximaOnGrid(r, outer, gas');
    GridDifference(RoundAt(r, outer, gas).max, RoundAt(r, outer, gas').max, BandBase(r, outer), z, z');
  }

  lemma GridDifference(m: int, m': int, base: int, z: nat, z': nat)
    requires m == base + 12 * z && m' == base + 12 * z' && z <= 72 && z' <= 72
    ensures Near(m, m')
  {
  }

  /** What a checked round says about gas, without the grid. */
  lemma RoundBudget(r: Relay, outer: uint64, gas: uint64)
    requires r.Valid() && RoundAt(r, outer, gas).Checked?
    ensures var c := RoundAt(r, outer, gas);
            && SignRelay(r, gas) == Some(c.sig) && c.max > 0
            && c.max + c.intrinsic + 375_000 == outer
            && c.intrinsic == 21_000 + DataGas(Calldata(r, gas, c.sig))
  {
    var z := MaximaOnGrid(r, outer, gas);
    RoundParts(r, outer, gas);
  }

  // ----- Zero bytes -----

  /** The zero bytes of a gas limit as calldata carries it. */
  function ZerosOf(gas: nat): nat {
    if gas < TWO_TO_64 then ZeroCount(FromNat(gas, 8)) else 0
  }

  lemma PositiveGasLimit(gas: uint64)
    ensures ZerosOf(gas) <= 8 && (gas > 0 ==> ZerosOf(gas) <= 7)
  {
    Uint64FitsWord(gas);
    FromNatExact(gas, 8);
    AllZerosIsZero(FromNat(gas, 8));
  }

  lemma SmallGasLimit(gas: uint64)
    ensures gas < 0x1_0000 ==> ZerosOf(gas) >= 6
    ensures gas < 256 ==> ZerosOf(gas) >= 7
  {
    if gas < 0x1_0000 {
      WideZeros(gas, 2);
    }
    if gas < 256 {
      WideZeros(gas, 1);
    }
  }

  lemma WideZeros(v: nat, k: nat)
    requires k <= 8 && v < Pow256(k)
    ensures ZeroCount(FromNat(v, 8)) >= 8 - k
  {
    FromNatWidens(v, k, 8);
    ZeroCountConcat(Zeros(8 - k), FromNat(v, k));
    ZeroCountZeros(8 - k);
  }

  lemma {:induction false} AllZerosIsZero(b: Bytes)
    ensures ZeroCount(b) == |b| ==> ToNat(b) == 0
  {
    if b != [] {
      AllZerosIsZero(b[..|b| - 1]);
    }
  }

  // ----- Signers of one's choosing -----

  /** A signature with n zero bytes, before its recovery id is raised. */
  function RawWithZeros(n: nat): RawSignature
    requires n <= 64
  {
    Zeros(n) + seq(64 - n, _ => 1) + [0]
  }

  lemma ZerosOfRaw(n: nat)
    requires n <= 64
    ensures ZeroCount(EthereumSignature(RawWithZeros(n))) == n
  {
    var ones := seq(64 - n, _ => 1) + [27];
    assert EthereumSignature(RawWithZeros(n)) == Zeros(n) + ones;
    ZeroCountConcat(Zeros(n), ones);
    ZeroCountZeros(n);
    NoZeroCount(ones);
  }

  /** Different gas limits of one call are signed under different hashes. */
  ghost predicate HashSeparates(r: Relay) {
    forall g: uint64, g': uint64 | SigningHash(r, g) == SigningHash(r, g') :: g == g'
  }

  /** The hash function gives one result for two inputs that occur when the call is signed for these gas limits. */
  ghost predicate HashesCollide(r: Relay, gas: uint64, gas': uint64) {
    var x, x' := Preimage(r, gas), Preimage(r, gas');
    var tag := Ascii("\U{19}Ethereum Signed Message:\n32");
    Collision(r.keccak, x, x') || Collision(r.keccak, tag + r.keccak(x), tag + r.keccak(x'))
  }

  lemma SharedHashSharesMessage(r: Relay, gas: uint64, gas': uint64)
    requires SigningHash(r, gas) == SigningHash(r, gas')
    ensures |Preimage(r, gas)| >= 212 && |Preimage(r, gas')| >= 212
    ensures ParseMessage(Preimage(r, gas)) == ParseMessage(Preimage(r, gas')) || HashesCollide(r, gas, gas')
  {
    SigningHashBinds(r, gas, r, gas');
  }

  lemma MessageNamesGas(r: Relay, gas: uint64)
    ensures |Preimage(r, gas)| >= 212 && ParseMessage(Preimage(r, gas)).gas == gas
  {
    PreimageRoundTrip(r, gas);
  }

  lemma SharedHashCollides(r: Relay, gas: uint64, gas': uint64)
    requires SigningHash(r, gas) == SigningHash(r, gas') && gas != gas'
    ensures HashesCollide(r, gas, gas')
  {
    SharedHashSharesMessage(r, gas, gas');
    MessageNamesGas(r, gas);
    MessageNamesGas(r, gas');
  }

  /** If they are not, two inputs of signing this very call collide. */
  lemma SeparatesOrCollides(r: Relay)
    ensures HashSeparates(r) || exists gas: uint64, gas': uint64 :: gas != gas' && HashesCollide(r, gas, gas')
  {
    if gas: uint64, gas': uint64 :| SigningHash(r, gas) == SigningHash(r, gas') && gas != gas' {
      SharedHashCollides(r, gas, gas');
    }
  }

  ghost function GasBehind(r: Relay, h: Word): nat {
    if exists g: uint64 :: SigningHash(r, g) == h then
      var g: uint64 :| SigningHash(r, g) == h; g
    else 0
  }

  /** A signer of call r that gives the signature for each gas limit as many zero bytes as planned, and at most 64. */
  ghost function PlannedSigner(r: Relay, plan: nat -> nat): Signer {
    (h: Word) => Some(RawWithZeros(if plan(GasBehind(r, h)) <= 64 then plan(GasBehind(r, h)) else 64))
  }

  ghost function Planned(r: Relay, plan: nat -> nat): Relay {
    r.(sign := PlannedSigner(r, plan))
  }

  lemma PlannedSigns(r: Relay, plan: nat -> nat, gas: uint64)
    requires HashSeparates(r) && plan(gas) <= 64
    ensures SignRelay(Planned(r, plan), gas) == Some(EthereumSignature(RawWithZeros(plan(gas))))
  {
    var h := SigningHash(r, gas);
    assert SigningHash(Planned(r, plan), gas) == h;
    assert GasBehind(r, h) == gas;
  }

  /** Signing does not enter the base of the band. */
  lemma BaseIsSignerFree(r: Relay, sign: Signer, outer: uint64)
    ensures BandBase(r.(sign := sign), outer) == BandBase(r, outer)
  {
    assert HeadWords(r.(sign := sign), 0) == HeadWords(r, 0);
  }

  /** So with a planned signer every maximum is as planned. */
  lemma PlannedRound(r: Relay, plan: nat -> nat, outer: uint64, gas: uint64)
    requires r.Valid() && HashSeparates(r) && plan(gas) <= 64
    ensures SignRelay(Planned(r, plan), gas).Some?
    ensures var c, m := RoundAt(Planned(r, plan), outer, gas), PlainMax(r, outer, gas) + 12 * plan(gas);
            (c.Checked? <==> m > 0) && (m > 0 ==> c.max == m)
  {
    PlannedSigns(r, plan, gas);
    ZerosOfRaw(plan(gas));
    BaseIsSignerFree(r, PlannedSigner(r, plan), outer);
    WhenMeasured(Planned(r, plan), outer, gas);
  }

  lemma {:induction false} DigitOfAllOnes(n: nat, k: nat)
    requires k < n
    ensures Digit(Pow256(n) - 1, k) == 255
  {
    assert (Pow256(n) - 1) / 256 == Pow256(n - 1) - 1;
    if k > 0 {
      DigitOfAllOnes(n - 1, k - 1);
    }
  }

  lemma ExtremeGasLimits()
    ensures ZeroCount(FromNat(0, 8)) == 8 && ZeroCount(FromNat(TWO_TO_64 - 1, 8)) == 0
  {
    FromNatWidens(0, 0, 8);
    assert FromNat(0, 8) == Zeros(8);
    ZeroCountZeros(8);
    var ones := FromNat(TWO_TO_64 - 1, 8);
    forall i | 0 <= i < 8
      ensures ones[i] != 0
    {
      DigitOfAllOnes(8, 7 - i);
    }
    NoZeroCount(ones);
  }

  predicate FarApart(r: Relay, outer: uint64, gas: uint64, gas': uint64) {
    var c, c' := RoundAt(r, outer, gas), RoundAt(r, outer, gas');
    c.Checked? && c'.Checked? && c.max - c'.max == 864
  }

  lemma FarApartNeedsRoom(r: Relay, outer: uint64, gas: uint64, gas': uint64)
    requires r.Valid() && FarApart(r, outer, gas, gas')
    ensures BandBase(r, outer) > 0
  {
    var z := MaximaOnGrid(r, outer, gas);
    var z' := MaximaOnGrid(r, outer, gas');
  }

  /** Gas limit 0 with a signature of zeros, against the largest one with a signature without any. */
  function Extremes(gas: nat): nat {
    if gas == 0 then 64 else 0
  }

  lemma FarApartHappens(r: Relay, outer: uint64)
    requires r.Valid() && HashSeparates(r) && BandBase(r, outer) > 0
    ensures FarApart(r.(sign := PlannedSigner(r, Extremes)), outer, 0, TWO_TO_64 - 1)
  {
    ExtremeGasLimits();
    ExtremesFarApart(r, outer, 0, TWO_TO_64 - 1);
  }

  lemma ExtremesFarApart(r: Relay, outer: uint64, low: uint64, high: uint64)
    requires r.Valid() && HashSeparates(r) && BandBase(r, outer) > 0
    requires low == 0 < high && ZeroCount(FromNat(low, 8)) == 8 && ZeroCount(FromNat(high, 8)) == 0
    ensures FarApart(r.(sign := PlannedSigner(r, Extremes)), outer, low, high)
  {
    PlannedRound(r, Extremes, outer, low);
    PlannedRound(r, Extremes, outer, high);
  }

  /** 864 is attained: a call has two maxima that far apart, for some signer, exactly when its band is positive. */
  lemma BandIsTight(r: Relay, outer: uint64)
    requires r.Valid() && HashSeparates(r)
    ensures (exists sign: Signer, gas: uint64, gas': uint64 :: FarApart(r.(sign := sign), outer, gas, gas'))
       <==> BandBase(r, outer) > 0
  {
    if sign: Signer, gas: uint64, gas': uint64 :| FarApart(r.(sign := sign), outer, gas, gas') {
      FarApartNeedsRoom(r.(sign := sign), outer, gas, gas');
      BaseIsSignerFree(r, sign, outer);
    }
    if BandBase(r, outer) > 0 {
      FarApartHappens(r, outer);
    }
  }

  /** The first candidate of the search, in uint64 arithmetic: it wraps when the outer limit is below 396000. */
  function Start(outer: uint64): uint64 {
    (outer - RELAY_HUB_GUARD_RESERVE_GAS - RELAY_HUB_PRE_GUARD_GAS - TX_BASE_GAS) % TWO_TO_64
  }

  /** The first candidate never passes: calldata always costs something, and a wrapped start never gets a maximum. */
  lemma StartFails(r: Relay, outer: uint64)
    requires r.Valid() && RoundAt(r, outer, Start(outer)).Checked?
    ensures outer >= 396_000 && Start(outer) > RoundAt(r, outer, Start(outer)).max
  {
    var c := RoundAt(r, outer, Start(outer));
    var z := MaximaOnGrid(r, outer, Start(outer));
    CalldataSlots(r, Start(outer), c.sig);
    StartExceeds(outer, c.max, DataGas(Calldata(r, Start(outer), c.sig)));
  }

  lemma StartExceeds(outer: uint64, max: uint64, dataGas: nat)
    requires max + 21_000 + dataGas + 375_000 == outer && dataGas > 0
    ensures outer >= 396_000 && Start(outer) > max
  {
  }
}
