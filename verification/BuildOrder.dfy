/** BuildOrder of clob/client.go: options, validation, amounts, salt and timestamp, signature. */
module BuildOrder {
  import opened Encoding
  import opened Crypto
  import opened GoInts
  import opened OrderAmounts
  import opened OrderSizing
  import opened OrderHash
  import opened OrderOptions
  import opened Decimals
  import opened RelayCall

  // ----- The order -----

  datatype Client = Client(
    keccak: Keccak, sign: Signer, typeHash: Word, domain: Domain, exchanges: map<int, Address>,
    negRiskExchanges: map<int, Address>, funder: Address, address: Address, chainId: int64, sigType: int64)

  datatype BuildError =
    | SideRequired
    | OrderTypeRequired
    | UnknownTickSize
    | UnknownFeeTickSize
    | NotAligned
    | BelowMinimum
    | InvalidTokenID
    | NotSigned

  datatype BuildResult =
    | Built(order: SignedOrder, orderType: string, postOnly: bool, deferExec: bool)
    | Failed(error: BuildError)
    | Panicked

  /** The size after fee oversizing, or the reason to refuse the order. */
  datatype Sizing = Sized(size: real, rc: RoundConfig) | Refused(error: BuildError)

  function SizingOf(oo: OrderOpts, price: real, size: real): Sizing {
    if oo.side != SIDE_BUY && oo.side != SIDE_SELL then Refused(SideRequired)
    else if oo.orderType == "" then Refused(OrderTypeRequired)
    else if oo.tickSize !in ROUNDING_CONFIGS then Refused(UnknownTickSize)
    else if oo.feeAdjust && oo.side == SIDE_BUY && oo.feeAdjustTickSize !in ROUNDING_CONFIGS
        then Refused(UnknownFeeTickSize)
    else
      var rc := ROUNDING_CONFIGS[oo.tickSize];
      var finalSize := if oo.feeAdjust && oo.side == SIDE_BUY then
        AdjustedSize(size, EffectiveFeeRate(oo.feeAdjustRefPrice, price, oo.feeAdjustRate),
                     ROUNDING_CONFIGS[oo.feeAdjustTickSize])
        else size;
      if !Aligned(finalSize, rc) then Refused(NotAligned)
      else if oo.side == SIDE_BUY && finalSize < MIN_BUY_SHARES then Refused(BelowMinimum)
      else Sized(finalSize, rc)
  }

  function OrderOf(c: Client, oo: OrderOpts, tokenId: int, amounts: Amounts, clock: int, random: int): Order {
    var salt := if oo.id != [] then SaltFromID(c.keccak, oo.id) else random;
    var timestamp := if oo.timestamp.Some? then oo.timestamp.value else clock;
    Order(salt, c.funder, c.address, tokenId, amounts.maker, amounts.taker, amounts.side, c.sigType, timestamp,
          oo.metadata, oo.builder)
  }

  function ExchangesFor(c: Client, negRisk: bool): map<int, Address> {
    if negRisk then c.negRiskExchanges else c.exchanges
  }

  /** The end of BuildOrder: the order is signed, and goes out with the options that are not signed. */
  function Sign(c: Client, oo: OrderOpts, order: Order): BuildResult {
    if c.chainId in ExchangesFor(c, oo.negRisk) && !OrderFits(order) then Panicked else
      match OrderSignature(c.keccak, c.sign, c.typeHash, c.domain, ExchangesFor(c, oo.negRisk), c.chainId, order)
      case None => Failed(NotSigned)
      case Some(sig) =>
        Built(SignedOrder(order, if oo.expiration.Some? then oo.expiration.value else 0, sig), oo.orderType,
              oo.postOnly, oo.deferExec)
  }

  /** What BuildOrder returns, given the clock and the drawn random salt. */
  function BuildOf(c: Client, tokenID: string, price: real, size: real, oo: OrderOpts, clock: int,
                   random: int): BuildResult {
    match SizingOf(oo, price, size)
    case Refused(error) => Failed(error)
    case Sized(finalSize, rc) =>
      match ParseDecimal(tokenID)
      case None => Failed(InvalidTokenID)
      case Some(tokenId) =>
        Sign(c, oo, OrderOf(c, oo, tokenId, ComputeOrderAmounts(oo.side, finalSize, price, rc), clock, random))
  }

  // ----- What it must return -----

  predicate IsTick(tick: string) {
    tick in {"0.1", "0.01", "0.001", "0.0001"}
  }

  /** Prices have the decimals of the tick size, sizes have two. */
  function TickConfig(tick: string): RoundConfig
    requires IsTick(tick)
  {
    RoundConfig(|tick| - 2, 2, |tick|)
  }

  /** The table has these tick sizes only, and what it says of each can be read off its numeral. */
  lemma TicksMakeOne(tick: string)
    ensures tick in ROUNDING_CONFIGS <==> IsTick(tick)
    ensures tick in ROUNDING_CONFIGS ==>
      && ROUNDING_CONFIGS[tick] == TickConfig(tick)
      && tick[..2] == "0." && DigitsValue(tick[2..]) == Some(1) && |tick[2..]| == ROUNDING_CONFIGS[tick].price
      && Pow10(ROUNDING_CONFIGS[tick].price) as real * TickValue(tick) == 1.0
  {
    if IsTick(tick) {
      LeadingZeros(tick);
      Pow10Values();
    }
  }

  function TickValue(tick: string): real
    requires IsTick(tick)
  {
    match |tick|
    case 3 => 0.1
    case 4 => 0.01
    case 5 => 0.001
    case _ => 0.0001
  }

  lemma LeadingZeros(tick: string)
    requires IsTick(tick)
    ensures DigitsValue(tick[2..]) == Some(1)
  {
    assert "1"[..0] == "" && DigitsValue("1") == Some(1);
    LeadingZero("1");
    LeadingZero("01");
    LeadingZero("001");
    assert tick == "0.1" ==> tick[2..] == "1";
    assert tick == "0.01" ==> tick[2..] == "0" + "1";
    assert tick == "0.001" ==> tick[2..] == "0" + "01" && "01" == "0" + "1";
    assert tick == "0.0001" ==> tick[2..] == "0" + "001" && "001" == "0" + "01" && "01" == "0" + "1";
  }

  /** The fee in shares: from the reference price if it is one, else from the limit price; dropped from 1 up. */
  function FeeOf(oo: OrderOpts, price: real): real {
    var p := if 0.0 < oo.feeAdjustRefPrice < 1.0 then oo.feeAdjustRefPrice else price;
    if oo.feeAdjustRate > 0.0 && 0.0 < p < 1.0 && oo.feeAdjustRate * (1.0 - p) < 1.0 then oo.feeAdjustRate * (1.0 - p)
    else 0.0
  }

  /** The least number of hundredths of a share that nets the request after the fee. */
  predicate IsLeastNetting(units: int, net: real, fr: real) {
    units as real / 100.0 * (1.0 - fr) >= net && (units - 1) as real / 100.0 * (1.0 - fr) < net
  }

  ghost predicate IsFinalSize(oo: OrderOpts, price: real, size: real, s: real) {
    if oo.feeAdjust && oo.side == "BUY"
      then exists units: int :: IsLeastNetting(units, size, FeeOf(oo, price)) && s == units as real / 100.0
    else s == size
  }

  /** Within a billionth of a whole number of hundredths. */
  ghost predicate IsHundredths(s: real) {
    exists n: int :: IsNear(s, n)
  }

  predicate IsNear(s: real, n: int) {
    -0.000000001 <= s * 100.0 - n as real <= 0.000000001
  }

  /** The checks in their order, and the size they let through. */
  ghost predicate IsSizing(oo: OrderOpts, price: real, size: real, z: Sizing) {
    if oo.side !in {"BUY", "SELL"} then z == Refused(SideRequired)
    else if oo.orderType == "" then z == Refused(OrderTypeRequired)
    else if !IsTick(oo.tickSize) then z == Refused(UnknownTickSize)
    else if oo.feeAdjust && oo.side == "BUY" && !IsTick(oo.feeAdjustTickSize) then z == Refused(UnknownFeeTickSize)
    else exists s: real :: IsFinalSize(oo, price, size, s) && IsChecked(oo, s, z)
  }

  ghost predicate IsChecked(oo: OrderOpts, s: real, z: Sizing)
    requires IsTick(oo.tickSize)
  {
    if !IsHundredths(s) then z == Refused(NotAligned)
    else if oo.side == "BUY" && s < 5.0 then z == Refused(BelowMinimum)
    else z == Sized(s, TickConfig(oo.tickSize))
  }

  /** The order, member by member. */
  predicate IsOrder(c: Client, tokenID: string, price: real, oo: OrderOpts, clock: int, random: int, s: real,
                    rc: RoundConfig, o: Order) {
    var amounts := ComputeOrderAmounts(oo.side, s, price, rc);
    && o.maker == c.funder && o.signer == c.address && o.signatureType == c.sigType
    && o.metadata == oo.metadata && o.builder == oo.builder
    && Some(o.tokenId) == ParseDecimal(tokenID)
    && o.makerAmount == amounts.maker && o.takerAmount == amounts.taker && o.side == (if oo.side == "BUY" then 0 else 1)
    && o.salt == (if oo.id == [] then random else ToNat(c.keccak(oo.id)[..8]) % 0x8000_0000_0000_0000)
    && o.timestamp == (if oo.timestamp == None then clock else oo.timestamp.value)
  }

  /** The signature for the exchange of the market's kind, and what goes out with it. */
  ghost predicate IsSent(c: Client, oo: OrderOpts, o: Order, r: BuildResult) {
    var exchanges := if oo.negRisk then c.negRiskExchanges else c.exchanges;
    if c.chainId !in exchanges then r == Failed(NotSigned)
    else if !OrderFits(o) then r == Panicked
    else exists answer: Option<Signature> ::
      && SignsOrder(c.keccak, c.sign, c.typeHash, c.domain, exchanges[c.chainId], c.chainId, o, answer)
      && r == match answer
              case None => Failed(NotSigned)
              case Some(sig) => Built(SignedOrder(o, if oo.expiration == None then 0 else oo.expiration.value, sig),
                                      oo.orderType, oo.postOnly, oo.deferExec)
  }

  ghost predicate IsEnd(c: Client, tokenID: string, price: real, oo: OrderOpts, clock: int, random: int, z: Sizing,
                        r: BuildResult) {
    match z
    case Refused(error) => r == Failed(error)
    case Sized(s, rc) =>
      if !IsNumeral(tokenID) then r == Failed(InvalidTokenID)
      else exists o: Order :: IsOrder(c, tokenID, price, oo, clock, random, s, rc, o) && IsSent(c, oo, o, r)
  }

  /** What BuildOrder must return for what its options come to. */
  ghost predicate IsResult(c: Client, tokenID: string, price: real, size: real, oo: OrderOpts, clock: int, random: int,
                           r: BuildResult) {
    exists z: Sizing :: IsSizing(oo, price, size, z) && IsEnd(c, tokenID, price, oo, clock, random, z, r)
  }

  lemma FeeIsEffective(oo: OrderOpts, price: real)
    ensures FeeOf(oo, price) == EffectiveFeeRate(oo.feeAdjustRefPrice, price, oo.feeAdjustRate)
  {
  }

  lemma AdjustedIsFinal(oo: OrderOpts, price: real, size: real, adj: RoundConfig)
    requires oo.feeAdjust && oo.side == "BUY" && Pow10(adj.size) == 100
    ensures IsFinalSize(oo, price, size,
                        AdjustedSize(size, EffectiveFeeRate(oo.feeAdjustRefPrice, price, oo.feeAdjustRate), adj))
  {
    var fr := EffectiveFeeRate(oo.feeAdjustRefPrice, price, oo.feeAdjustRate);
    FeeIsEffective(oo, price);
    AdjustedSizeIsLeast(size, fr, 100);
    assert IsLeastNetting(AdjustedUnits(size, fr, 100), size, FeeOf(oo, price));
  }

  /** The nearest whole number is within a billionth exactly when some whole number is. */
  lemma AlignedIsHundredths(s: real, rc: RoundConfig)
    requires Pow10(rc.size) == 100
    ensures Aligned(s, rc) <==> IsHundredths(s)
  {
    var x := s * 100.0;
    assert ScaledSize(s, rc) == x;
    if Aligned(s, rc) {
      assert IsNear(s, RoundAway(x));
    }
    if n: int :| IsNear(s, n) {
      NearestIs(x, n);
    }
  }

  lemma NearestIs(x: real, n: int)
    requires -0.000000001 <= x - n as real <= 0.000000001
    ensures RoundAway(x) == n
  {
  }

  lemma SizingMeetsSpecification(oo: OrderOpts, price: real, size: real)
    ensures IsSizing(oo, price, size, SizingOf(oo, price, size))
  {
    TicksMakeOne(oo.tickSize);
    TicksMakeOne(oo.feeAdjustTickSize);
    if oo.side in {"BUY", "SELL"} && oo.orderType != "" && IsTick(oo.tickSize)
       && (oo.feeAdjust && oo.side == "BUY" ==> IsTick(oo.feeAdjustTickSize)) {
      FinalSizeChecked(oo, price, size);
    }
  }

  lemma FinalSizeChecked(oo: OrderOpts, price: real, size: real)
    requires oo.side in {"BUY", "SELL"} && oo.orderType != "" && IsTick(oo.tickSize)
    requires oo.feeAdjust && oo.side == "BUY" ==> IsTick(oo.feeAdjustTickSize)
    ensures exists s: real :: IsFinalSize(oo, price, size, s) && IsChecked(oo, s, SizingOf(oo, price, size))
  {
    TicksMakeOne(oo.tickSize);
    Pow10Values();
    var s := size;
    if oo.feeAdjust && oo.side == "BUY" {
      TicksMakeOne(oo.feeAdjustTickSize);
      var adj := ROUNDING_CONFIGS[oo.feeAdjustTickSize];
      s := AdjustedSize(size, EffectiveFeeRate(oo.feeAdjustRefPrice, price, oo.feeAdjustRate), adj);
      AdjustedIsFinal(oo, price, size, adj);
    }
    AlignedIsHundredths(s, ROUNDING_CONFIGS[oo.tickSize]);
    assert IsFinalSize(oo, price, size, s) && IsChecked(oo, s, SizingOf(oo, price, size));
  }

  lemma OrderMeetsSpecification(c: Client, tokenID: string, price: real, oo: OrderOpts, clock: int, random: int,
                                s: real, rc: RoundConfig)
    requires oo.side in {"BUY", "SELL"} && ParseDecimal(tokenID).Some?
    ensures IsOrder(c, tokenID, price, oo, clock, random, s, rc,
                    OrderOf(c, oo, ParseDecimal(tokenID).value, ComputeOrderAmounts(oo.side, s, price, rc), clock,
                            random))
  {
    SidesMirror(oo.side, s, price, rc);
  }

  lemma SentMeetsSpecification(c: Client, oo: OrderOpts, o: Order)
    ensures IsSent(c, oo, o, Sign(c, oo, o))
  {
    var exchanges := ExchangesFor(c, oo.negRisk);
    if c.chainId in exchanges && OrderFits(o) {
      ChainIdFits(c.chainId);
      SignatureSignsOrder(c.keccak, c.sign, c.typeHash, c.domain, exchanges, c.chainId, o);
    }
  }

  lemma EndMeetsSpecification(c: Client, tokenID: string, price: real, size: real, oo: OrderOpts, clock: int,
                              random: int)
    ensures IsEnd(c, tokenID, price, oo, clock, random, SizingOf(oo, price, size),
                  BuildOf(c, tokenID, price, size, oo, clock, random))
  {
    NumeralsParse(tokenID);
    var z := SizingOf(oo, price, size);
    if z.Sized? && ParseDecimal(tokenID).Some? {
      OrderMeetsSpecification(c, tokenID, price, oo, clock, random, z.size, z.rc);
      SentMeetsSpecification(c, oo, OrderOf(c, oo, ParseDecimal(tokenID).value,
                                            ComputeOrderAmounts(oo.side, z.size, price, z.rc), clock, random));
    }
  }

  lemma BuildMeetsSpecification(c: Client, tokenID: string, price: real, size: real, oo: OrderOpts, clock: int,
                                random: int)
    ensures IsResult(c, tokenID, price, size, oo, clock, random, BuildOf(c, tokenID, price, size, oo, clock, random))
  {
    SizingMeetsSpecification(oo, price, size);
    EndMeetsSpecification(c, tokenID, price, size, oo, clock, random);
  }

  /** BuildOrder from its first check up to the minimum size. */
  method CheckAndSize(oo: OrderOpts, price: real, size: real) returns (s: Sizing)
    ensures s == SizingOf(oo, price, size)
  {
    if oo.side != SIDE_BUY && oo.side != SIDE_SELL {
      return Refused(SideRequired);
    }
    if oo.orderType == "" {
      return Refused(OrderTypeRequired);
    }
    if oo.tickSize !in ROUNDING_CONFIGS {
      return Refused(UnknownTickSize);
    }
    var rc := ROUNDING_CONFIGS[oo.tickSize];
    var finalSize := size;
    if oo.feeAdjust && oo.side == SIDE_BUY {
      if oo.feeAdjustTickSize !in ROUNDING_CONFIGS {
        return Refused(UnknownFeeTickSize);
      }
      var adjRC := ROUNDING_CONFIGS[oo.feeAdjustTickSize];
      var refPrice := oo.feeAdjustRefPrice;
      if refPrice <= 0.0 || refPrice >= 1.0 {
        refPrice := price;
      }
      var fr := BuyFeeRate(refPrice, oo.feeAdjustRate);
      if fr >= 1.0 {
        fr := 0.0;
      }
      var mult := Pow10(adjRC.size);
      finalSize := Ceil(finalSize / (1.0 - fr) * mult as real) as real / mult as real;
    }
    if !Aligned(finalSize, rc) {
      return Refused(NotAligned);
    }
    if oo.side == SIDE_BUY && finalSize < MIN_BUY_SHARES {
      return Refused(BelowMinimum);
    }
    s := Sized(finalSize, rc);
  }

  /** BuildOrder: folds the options, oversizes, validates, computes, signs. */
  method Build(c: Client, tokenID: string, price: real, size: real, opts: seq<OrderOption>, clock: int, random: int)
    returns (r: BuildResult, ghost oo: OrderOpts)
    ensures r == BuildOf(c, tokenID, price, size, Options(c.keccak, opts), clock, random)
    ensures IsDecided(c.keccak, opts, oo) && IsResult(c, tokenID, price, size, oo, clock, random, r)
  {
    oo := Options(c.keccak, opts);
    OptionsAreDecided(c.keccak, opts);
    BuildMeetsSpecification(c, tokenID, price, size, oo, clock, random);
    r := BuildFrom(c, tokenID, price, size, opts, clock, random);
  }

  method BuildFrom(c: Client, tokenID: string, price: real, size: real, opts: seq<OrderOption>, clock: int, random: int)
    returns (r: BuildResult)
    ensures r == BuildOf(c, tokenID, price, size, Options(c.keccak, opts), clock, random)
  {
    var oo := ApplyOptions(c.keccak, opts);
    var sizing := CheckAndSize(oo, price, size);
    if sizing.Refused? {
      return Failed(sizing.error);
    }
    var finalSize, rc := sizing.size, sizing.rc;
    var amounts := ComputeOrderAmounts(oo.side, finalSize, price, rc);
    var tokenId := ParseDecimal(tokenID);
    if tokenId.None? {
      return Failed(InvalidTokenID);
    }
    var salt := random;
    if oo.id != [] {
      salt := SaltFromID(c.keccak, oo.id);
    }
    var timestamp := if oo.timestamp.None? then clock else oo.timestamp.value;
    var order := Order(salt, c.funder, c.address, tokenId.value, amounts.maker, amounts.taker, amounts.side, c.sigType,
                       timestamp, oo.metadata, oo.builder);
    var exchanges := ExchangesFor(c, oo.negRisk);
    if c.chainId in exchanges && !OrderFits(order) {
      return Panicked;
    }
    ChainIdFits(c.chainId);
    var sig := SignOrder(c.keccak, c.sign, c.typeHash, c.domain, exchanges, c.chainId, order);
    if sig.None? {
      return Failed(NotSigned);
    }
    var expiration := if oo.expiration.None? then 0 else oo.expiration.value;
    r := Built(SignedOrder(order, expiration, sig.value), oo.orderType, oo.postOnly, oo.deferExec);
  }

  lemma ChainIdFits(chainId: int64)
    ensures FitsWord(chainId)
  {
    Uint64FitsWord(Abs(chainId));
  }

  // ----- Independence of clock and randomness -----

  /** generateSalt draws between 0 and the clock's milliseconds. */
  predicate IsDraw(clock: int, random: int) {
    0 <= random <= clock
  }

  ghost predicate Deterministic(c: Client, tokenID: string, price: real, size: real, oo: OrderOpts) {
    forall clock, random, clock', random' | IsDraw(clock, random) && IsDraw(clock', random') ::
      BuildOf(c, tokenID, price, size, oo, clock, random) == BuildOf(c, tokenID, price, size, oo, clock', random')
  }

  lemma SaltAndTimestamp(c: Client, tokenID: string, price: real, size: real, oo: OrderOpts, clock: int, random: int)
    requires BuildOf(c, tokenID, price, size, oo, clock, random).Built?
    ensures var o := BuildOf(c, tokenID, price, size, oo, clock, random).order.order;
            && (oo.id == [] ==> o.salt == random) && (oo.timestamp.None? ==> o.timestamp == clock)
  {
  }

  lemma IdAndTimestampDetermine(c: Client, tokenID: string, price: real, size: real, oo: OrderOpts)
    requires oo.id != [] && oo.timestamp.Some?
    ensures Deterministic(c, tokenID, price, size, oo)
  {
  }

  /** An order that can be built at all is the same for every clock and random draw iff id and timestamp are set. */
  lemma DeterminismCondition(c: Client, tokenID: string, price: real, size: real, oo: OrderOpts, clock: int,
                             random: int)
    requires IsDraw(clock, random) && BuildOf(c, tokenID, price, size, oo, clock, random).Built?
    ensures Deterministic(c, tokenID, price, size, oo) <==> oo.id != [] && oo.timestamp.Some?
  {
    if oo.id != [] && oo.timestamp.Some? {
      IdAndTimestampDetermine(c, tokenID, price, size, oo);
    } else {
      assert IsDraw(clock + 1, random + 1);
      SaltAndTimestamp(c, tokenID, price, size, oo, clock, random);
      if BuildOf(c, tokenID, price, size, oo, clock + 1, random + 1).Built? {
        SaltAndTimestamp(c, tokenID, price, size, oo, clock + 1, random + 1);
      }
      assert BuildOf(c, tokenID, price, size, oo, clock, random)
          != BuildOf(c, tokenID, price, size, oo, clock + 1, random + 1);
    }
  }

  /**
   * When WithDeterministicID is the last option to set id or timestamp, both come from the id; the order is then
   * deterministic iff the id is not empty.
   */
  lemma DeterministicIDDecides(c: Client, tokenID: string, price: real, size: real,
                               pre: seq<OrderOption>, id: Bytes, post: seq<OrderOption>, clock: int, random: int)
    requires IsDraw(clock, random) && forall opt <- post :: !SetsIdOrTimestamp(opt)
    ensures var oo := Options(c.keccak, pre + [WithDeterministicID(id)] + post);
            && oo.id == id && oo.timestamp == Some(TimestampFromID(c.keccak, id))
            && (id != [] ==> Deterministic(c, tokenID, price, size, oo))
            && (id == [] && BuildOf(c, tokenID, price, size, oo, clock, random).Built?
                ==> !Deterministic(c, tokenID, price, size, oo))
  {
    var opts := pre + [WithDeterministicID(id)];
    var oo := Options(c.keccak, opts + post);
    LaterOptionsKeepId(c.keccak, opts, post);
    assert opts[..|pre|] == pre;
    if id != [] {
      IdAndTimestampDetermine(c, tokenID, price, size, oo);
    }
    if BuildOf(c, tokenID, price, size, oo, clock, random).Built? {
      DeterminismCondition(c, tokenID, price, size, oo, clock, random);
    }
  }

  // ----- What a built order says -----

  /** The order, its signature, and the validation it passed. */
  lemma BuiltOrderIsSigned(c: Client, tokenID: string, price: real, size: real, oo: OrderOpts, clock: int, random: int)
    requires BuildOf(c, tokenID, price, size, oo, clock, random).Built?
    ensures var r := BuildOf(c, tokenID, price, size, oo, clock, random);
            var o := r.order.order;
            var exchanges := ExchangesFor(c, oo.negRisk);
            && SizingOf(oo, price, size).Sized? && Some(o.tokenId) == ParseDecimal(tokenID)
            && Amounts(o.side, o.makerAmount, o.takerAmount)
               == ComputeOrderAmounts(oo.side, SizingOf(oo, price, size).size, price, SizingOf(oo, price, size).rc)
            && OrderFits(o) && c.chainId in exchanges
            && OrderSignature(c.keccak, c.sign, c.typeHash, c.domain, exchanges, c.chainId, o)
                == Some(r.order.signature)
  {
  }

  lemma OrderIgnoresExpiration(c: Client, oo: OrderOpts, e: Option<int>, tokenId: int, amounts: Amounts, clock: int,
                               random: int)
    ensures OrderOf(c, oo.(expiration := e), tokenId, amounts, clock, random)
        == OrderOf(c, oo, tokenId, amounts, clock, random)
  {
  }

  lemma SizingIgnoresExpiration(oo: OrderOpts, e: Option<int>, price: real, size: real)
    ensures SizingOf(oo.(expiration := e), price, size) == SizingOf(oo, price, size)
  {
  }

  /** The expiration is carried, not signed: changing it changes neither order nor signature. */
  lemma ExpirationIsNotSigned(c: Client, tokenID: string, price: real, size: real, oo: OrderOpts, clock: int,
                              random: int, e: Option<int>)
    requires BuildOf(c, tokenID, price, size, oo, clock, random).Built?
    ensures var r, r' := BuildOf(c, tokenID, price, size, oo, clock, random),
                         BuildOf(c, tokenID, price, size, oo.(expiration := e), clock, random);
            r'.Built? && r'.order.order == r.order.order && r'.order.signature == r.order.signature
            && r'.order.expiration == if e.Some? then e.value else 0
  {
    var sized := SizingOf(oo, price, size);
    var amounts := ComputeOrderAmounts(oo.side, sized.size, price, sized.rc);
    SizingIgnoresExpiration(oo, e, price, size);
    OrderIgnoresExpiration(c, oo, e, ParseDecimal(tokenID).value, amounts, clock, random);
    SigningIgnoresExpiration(c, oo, e, OrderOf(c, oo, ParseDecimal(tokenID).value, amounts, clock, random));
  }

  lemma SigningIgnoresExpiration(c: Client, oo: OrderOpts, e: Option<int>, order: Order)
    requires Sign(c, oo, order).Built?
    ensures var r, r' := Sign(c, oo, order), Sign(c, oo.(expiration := e), order);
            r'.Built? && r'.order.order == r.order.order && r'.order.signature == r.order.signature
            && r'.order.expiration == if e.Some? then e.value else 0
  {
  }

  lemma TableConfigs(tick: string)
    requires tick in ROUNDING_CONFIGS
    ensures var rc := ROUNDING_CONFIGS[tick]; rc.size == 2 && 1 <= rc.price <= 4 && Pow10(rc.size) == 100
  {
    Pow10Values();
  }

  /** The share amount at every price: exact where it fits, and below the next smaller order where it does not. */
  lemma ShareAmount(size: real, price: real, rc: RoundConfig)
    requires rc.size == 2 && 1 <= rc.price <= 4 && SizeUnits(size) > 0
    ensures var taker := ComputeOrderAmounts(SIDE_BUY, size, price, rc).taker;
            if FitsInt64(SizeUnits(size) * 10_000) then taker == SizeUnits(size) * 10_000
            else taker <= (SizeUnits(size) - 1) * 10_000
  {
    var u := SizeUnits(size);
    if OnFastGrid(size, price, rc) {
      FastAmountsWrap(size, price, rc);
      WrappedShares(u);
    } else {
      TicksAreUnits(size, rc);
      DecimalPathIsExact(u, RoundEven(PriceTicks(price, rc)), rc);
    }
  }

  lemma WrappedShares(u: int)
    requires u > 0
    ensures var taker := ToInt64(FloatToInt64(u) * 10_000);
            if FitsInt64(u * 10_000) then taker == u * 10_000 else taker <= (u - 1) * 10_000
  {
  }

  /** Fee oversizing never runs into the alignment check. */
  lemma AdjustedOrderIsAligned(oo: OrderOpts, price: real, size: real)
    requires oo.feeAdjust && oo.side == SIDE_BUY
    ensures SizingOf(oo, price, size) != Refused(NotAligned)
    ensures SizingOf(oo, price, size).Sized? ==>
      var fr := EffectiveFeeRate(oo.feeAdjustRefPrice, price, oo.feeAdjustRate);
      SizeUnits(SizingOf(oo, price, size).size) == AdjustedUnits(size, fr, 100)
  {
    if oo.tickSize in ROUNDING_CONFIGS && oo.feeAdjustTickSize in ROUNDING_CONFIGS {
      var rc, adj := ROUNDING_CONFIGS[oo.tickSize], ROUNDING_CONFIGS[oo.feeAdjustTickSize];
      var fr := EffectiveFeeRate(oo.feeAdjustRefPrice, price, oo.feeAdjustRate);
      TableConfigs(oo.tickSize);
      TableConfigs(oo.feeAdjustTickSize);
      AdjustedSizeIsAligned(size, fr, adj);
      var s := AdjustedSize(size, fr, adj);
      assert ScaledSize(s, rc) == ScaledSize(s, adj);
      TicksAreUnits(s, adj);
    }
  }

  /** A positive amount of which the fee leaves at least the request; an amount that is not buys nothing. */
  predicate Nets(taker: int, rate: real, net: real) {
    taker > 0 && taker as real / 1_000_000.0 * (1.0 - rate) >= net
  }

  /**
   * The share amount nets the request after the fee it was sized for exactly when it fits int64, and at the true fee
   * rate exactly when that rate is also below 1; and where it does, it is the least multiple of a size unit that does.
   */
  ghost predicate NetsRequest(taker: int, units: int, net: real, fr: real, trueRate: real) {
    && (Nets(taker, fr, net) <==> FitsInt64(units * 10_000))
    && (Nets(taker, trueRate, net) <==> FitsInt64(units * 10_000) && trueRate < 1.0)
    && (FitsInt64(units * 10_000) ==> taker == units * 10_000 >= 5_000_000 && !Nets(taker - 10_000, fr, net))
  }

  lemma NetsFromUnits(taker: int, units: int, net: real, fr: real, trueRate: real)
    requires 0.0 <= fr < 1.0 && units == AdjustedUnits(net, fr, 100) >= 500
    requires if FitsInt64(units * 10_000) then taker == units * 10_000 else taker <= (units - 1) * 10_000
    requires trueRate >= 0.0 && fr == if trueRate >= 1.0 then 0.0 else trueRate
    ensures NetsRequest(taker, units, net, fr, trueRate)
  {
    AdjustedSizeIsLeast(net, fr, 100);
    TokensAreUnits(units, fr);
    TokensAreUnits(units - 1, fr);
    NonNegativeReal((units - 1) as real / 100.0, 1.0 - fr);
    if FitsInt64(units * 10_000) {
      if trueRate >= 1.0 {
        DroppedRateNeverNets(units, 100, trueRate, net);
        TokensAreUnits(units, trueRate);
      }
    } else {
      FewerNetLess(taker, (units - 1) * 10_000, fr);
      if trueRate >= 1.0 && taker > 0 {
        NonPositive(taker as real / 1_000_000.0, 1.0 - trueRate);
      }
    }
  }

  lemma TokensAreUnits(units: int, rate: real)
    ensures (units * 10_000) as real / 1_000_000.0 * (1.0 - rate) == units as real / 100.0 * (1.0 - rate)
  {
    assert (units * 10_000) as real / 1_000_000.0 == units as real / 100.0;
  }

  lemma FewerNetLess(a: int, b: int, fr: real)
    requires a <= b && fr < 1.0
    ensures a as real / 1_000_000.0 * (1.0 - fr) <= b as real / 1_000_000.0 * (1.0 - fr)
  {
    NonNegativeReal(b as real / 1_000_000.0 - a as real / 1_000_000.0, 1.0 - fr);
  }

  lemma NonNegativeReal(a: real, b: real)
    requires a >= 0.0 && b >= 0.0
    ensures a * b >= 0.0
  {
  }

  lemma AdjustedSizingNets(oo: OrderOpts, price: real, size: real)
    requires oo.feeAdjust && oo.side == SIDE_BUY && SizingOf(oo, price, size).Sized?
    ensures var sized := SizingOf(oo, price, size);
            var fr := EffectiveFeeRate(oo.feeAdjustRefPrice, price, oo.feeAdjustRate);
            NetsRequest(ComputeOrderAmounts(SIDE_BUY, sized.size, price, sized.rc).taker, AdjustedUnits(size, fr, 100),
                        size, fr,
                        BuyFeeRate(ReferencePrice(oo.feeAdjustRefPrice, price), oo.feeAdjustRate))
  {
    var sized := SizingOf(oo, price, size);
    var fr := EffectiveFeeRate(oo.feeAdjustRefPrice, price, oo.feeAdjustRate);
    AdjustedOrderIsAligned(oo, price, size);
    TableConfigs(oo.tickSize);
    UnitsOfMinimum(sized.size);
    ShareAmount(sized.size, price, sized.rc);
    NetsFromUnits(ComputeOrderAmounts(SIDE_BUY, sized.size, price, sized.rc).taker, AdjustedUnits(size, fr, 100),
                  size, fr,
                  BuyFeeRate(ReferencePrice(oo.feeAdjustRefPrice, price), oo.feeAdjustRate));
  }

  lemma UnitsOfMinimum(size: real)
    requires size >= 5.0
    ensures SizeUnits(size) >= 500
  {
  }

  /** A built, fee-adjusted buy order nets what was asked for exactly when the adjusted shares fit int64 and the true
      fee rate is below 1, and no smaller order would. */
  lemma AdjustedOrderNets(c: Client, tokenID: string, price: real, size: real, oo: OrderOpts, clock: int, random: int)
    requires oo.feeAdjust && oo.side == SIDE_BUY
    requires BuildOf(c, tokenID, price, size, oo, clock, random).Built?
    ensures var fr := EffectiveFeeRate(oo.feeAdjustRefPrice, price, oo.feeAdjustRate);
            NetsRequest(BuildOf(c, tokenID, price, size, oo, clock, random).order.order.takerAmount,
                        AdjustedUnits(size, fr, 100), size, fr,
                        BuyFeeRate(ReferencePrice(oo.feeAdjustRefPrice, price), oo.feeAdjustRate))
  {
    BuiltOrderIsSigned(c, tokenID, price, size, oo, clock, random);
    AdjustedSizingNets(oo, price, size);
  }
}
