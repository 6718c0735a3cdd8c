/** The options of BuildOrder in clob/client.go: what each sets, and what a list of them comes to. */
module OrderOptions {
  import opened Encoding
  import opened Crypto
  import opened GoInts
  import opened OrderAmounts
  import opened RelayCall

  datatype OrderOption =
    | WithID(id: Bytes)
    | WithDeterministicID(id: Bytes)
    | WithTimestampMillis(ts: int64)
    | WithBuy
    | WithSell
    | WithMarket(tickSize: string, negRisk: bool)
    | WithBuilder(code: Word)
    | WithMetadata(metadata: Word)
    | AsGTC
    | AsFOK
    | AsFAK
    | AsGTD(expiration: int64)
    | AsPostOnly
    | AsDeferExec
    | WithFeeAdjustment(feeRate: real, feeTickSize: string, refPrice: real)

  datatype OrderOpts = OrderOpts(
    id: Bytes, timestamp: Option<int>, side: string, tickSize: string, negRisk: bool, orderType: string,
    postOnly: bool, deferExec: bool, feeAdjust: bool, feeAdjustRate: real, feeAdjustTickSize: string,
    feeAdjustRefPrice: real, expiration: Option<int>, builder: Word, metadata: Word)

  const NO_OPTS := OrderOpts([], None, "", "", false, "", false, false, false, 0.0, "", 0.0, None, Zeros(32), Zeros(32))

  /** saltFromID: 63 bits of the id's hash. */
  function SaltFromID(keccak: Keccak, id: Bytes): (salt: int)
    ensures 0 <= salt < TWO_TO_63
  {
    ToNat(keccak(id)[..8]) % TWO_TO_63
  }

  const BASE_MILLIS := 1_713_398_400_000
  const RANGE_MILLIS := 2 * 365 * 24 * 60 * 60 * 1000

  /** timestampFromID: a point in the two years from the base, picked by another hash of the id. */
  function TimestampFromID(keccak: Keccak, id: Bytes): (ts: int)
    ensures BASE_MILLIS <= ts < BASE_MILLIS + 63_072_000_000
  {
    BASE_MILLIS + ToNat(keccak(Ascii("timestamp:") + id)[..8]) % RANGE_MILLIS
  }

  function Apply(keccak: Keccak, oo: OrderOpts, opt: OrderOption): OrderOpts {
    match opt
    case WithID(id) => oo.(id := id)
    case WithDeterministicID(id) => oo.(id := id, timestamp := Some(TimestampFromID(keccak, id)))
    case WithTimestampMillis(ts) => oo.(timestamp := Some(ts))
    case WithBuy => oo.(side := SIDE_BUY)
    case WithSell => oo.(side := SIDE_SELL)
    case WithMarket(tickSize, negRisk) => oo.(tickSize := tickSize, negRisk := negRisk)
    case WithBuilder(code) => oo.(builder := code)
    case WithMetadata(metadata) => oo.(metadata := metadata)
    case AsGTC => oo.(orderType := "GTC")
    case AsFOK => oo.(orderType := "FOK")
    case AsFAK => oo.(orderType := "FAK")
    case AsGTD(expiration) => oo.(orderType := "GTD", expiration := Some(expiration))
    case AsPostOnly => oo.(postOnly := true)
    case AsDeferExec => oo.(deferExec := true)
    case WithFeeAdjustment(feeRate, tickSize, refPrice) =>
      oo.(feeAdjust := true, feeAdjustRate := feeRate, feeAdjustTickSize := tickSize, feeAdjustRefPrice := refPrice)
  }

  /** All options in order, the later ones overriding the earlier. */
  function Options(keccak: Keccak, opts: seq<OrderOption>): OrderOpts {
    if opts == [] then NO_OPTS else Apply(keccak, Options(keccak, opts[..|opts| - 1]), opts[|opts| - 1])
  }

  method ApplyOptions(keccak: Keccak, opts: seq<OrderOption>) returns (oo: OrderOpts)
    ensures oo == Options(keccak, opts)
  {
    oo := NO_OPTS;
    for i := 0 to |opts|
      invariant oo == Options(keccak, opts[..i])
    {
      assert opts[..i + 1][..i] == opts[..i];
      oo := Apply(keccak, oo, opts[i]);
    }
    assert opts[..|opts|] == opts;
  }

  predicate SetsIdOrTimestamp(opt: OrderOption) {
    opt.WithID? || opt.WithDeterministicID? || opt.WithTimestampMillis?
  }

  /** Options that set neither leave both as they were. */
  lemma {:induction false} LaterOptionsKeepId(keccak: Keccak, pre: seq<OrderOption>, post: seq<OrderOption>)
    requires forall opt <- post :: !SetsIdOrTimestamp(opt)
    ensures Options(keccak, pre + post).id == Options(keccak, pre).id
    ensures Options(keccak, pre + post).timestamp == Options(keccak, pre).timestamp
  {
    if post == [] {
      assert pre + post == pre;
    } else {
      var n := |post| - 1;
      assert (pre + post)[..|pre| + n] == pre + post[..n];
      assert (pre + post)[|pre| + n] == post[n] && post[n] in post;
      LaterOptionsKeepId(keccak, pre, post[..n]);
    }
  }

  // ----- What a list of options comes to -----

  /** The value of the last option that sets it, or the default when none does. */
  ghost predicate IsLast<T>(opts: seq<OrderOption>, sets: OrderOption -> Option<T>, default: T, value: T) {
    || (exists i | 0 <= i < |opts| :: sets(opts[i]) == Some(value) && NoneSets(opts[i + 1..], sets))
    || (value == default && NoneSets(opts, sets))
  }

  ghost predicate NoneSets<T>(opts: seq<OrderOption>, sets: OrderOption -> Option<T>) {
    forall i | 0 <= i < |opts| :: sets(opts[i]) == None
  }

  /** What one option does to one field: it sets it, or leaves it alone. */
  ghost predicate Carries<T>(keccak: Keccak, field: OrderOpts -> T, sets: OrderOption -> Option<T>) {
    forall oo, opt :: field(Apply(keccak, oo, opt)) == match sets(opt) case Some(v) => v case None => field(oo)
  }

  lemma {:induction false} LastWins<T>(keccak: Keccak, opts: seq<OrderOption>, field: OrderOpts -> T,
                                       sets: OrderOption -> Option<T>, default: T)
    requires field(NO_OPTS) == default && Carries(keccak, field, sets)
    ensures IsLast(opts, sets, default, field(Options(keccak, opts)))
  {
    if opts != [] {
      var n := |opts| - 1;
      LastWins(keccak, opts[..n], field, sets, default);
      if sets(opts[n]).Some? {
        assert opts[n + 1..] == [];
      } else {
        LastStays(opts[..n], opts[n], sets, default, field(Options(keccak, opts[..n])));
        assert opts[..n] + [opts[n]] == opts;
      }
    }
  }

  lemma LastStays<T>(opts: seq<OrderOption>, opt: OrderOption, sets: OrderOption -> Option<T>, default: T, value: T)
    requires IsLast(opts, sets, default, value) && sets(opt) == None
    ensures IsLast(opts + [opt], sets, default, value)
  {
    if i :| 0 <= i < |opts| && sets(opts[i]) == Some(value) && NoneSets(opts[i + 1..], sets) {
      assert (opts + [opt])[i + 1..] == opts[i + 1..] + [opt];
      assert (opts + [opt])[i] == opts[i];
    }
  }

  ghost predicate Occurs(opts: seq<OrderOption>, here: OrderOption -> bool) {
    exists i | 0 <= i < |opts| :: here(opts[i])
  }

  lemma {:induction false} FlagOccurs(keccak: Keccak, opts: seq<OrderOption>, flag: OrderOpts -> bool,
                                      here: OrderOption -> bool)
    requires !flag(NO_OPTS) && forall oo, opt :: flag(Apply(keccak, oo, opt)) == (here(opt) || flag(oo))
    ensures flag(Options(keccak, opts)) <==> Occurs(opts, here)
  {
    if opts != [] {
      var n := |opts| - 1;
      FlagOccurs(keccak, opts[..n], flag, here);
      if flag(Options(keccak, opts[..n])) {
        var i :| 0 <= i < n && here(opts[..n][i]);
        assert here(opts[i]);
      }
    }
  }

  predicate IsPostOnly(opt: OrderOption) { opt.AsPostOnly? }
  predicate IsDeferExec(opt: OrderOption) { opt.AsDeferExec? }
  predicate IsFeeAdjustment(opt: OrderOption) { opt.WithFeeAdjustment? }

  function SetsId(opt: OrderOption): Option<Bytes> {
    match opt
    case WithID(id) => Some(id)
    case WithDeterministicID(id) => Some(id)
    case _ => None
  }

  /** "timestamp:", byte by byte. */
  const TIMESTAMP_PREFIX: Bytes := [0x74, 0x69, 0x6d, 0x65, 0x73, 0x74, 0x61, 0x6d, 0x70, 0x3a]

  /** A point in the 730 days from 18 April 2024, by the first 8 bytes of the hash of "timestamp:" and the id. */
  function SetsTimestamp(keccak: Keccak): OrderOption -> Option<Option<int>> {
    (opt: OrderOption) =>
      match opt
      case WithDeterministicID(id) =>
        Some(Some(1_713_398_400_000 + ToNat(keccak(TIMESTAMP_PREFIX + id)[..8]) % 63_072_000_000))
      case WithTimestampMillis(ts) => Some(Some(ts))
      case _ => None
  }

  function SetsSide(opt: OrderOption): Option<string> {
    match opt
    case WithBuy => Some("BUY")
    case WithSell => Some("SELL")
    case _ => None
  }

  function SetsTickSize(opt: OrderOption): Option<string> {
    if opt.WithMarket? then Some(opt.tickSize) else None
  }

  function SetsNegRisk(opt: OrderOption): Option<bool> {
    if opt.WithMarket? then Some(opt.negRisk) else None
  }

  function SetsOrderType(opt: OrderOption): Option<string> {
    match opt
    case AsGTC => Some("GTC")
    case AsFOK => Some("FOK")
    case AsFAK => Some("FAK")
    case AsGTD(_) => Some("GTD")
    case _ => None
  }

  function SetsExpiration(opt: OrderOption): Option<Option<int>> {
    if opt.AsGTD? then Some(Some(opt.expiration)) else None
  }

  function SetsBuilder(opt: OrderOption): Option<Word> {
    if opt.WithBuilder? then Some(opt.code) else None
  }

  function SetsMetadata(opt: OrderOption): Option<Word> {
    if opt.WithMetadata? then Some(opt.metadata) else None
  }

  function SetsFeeRate(opt: OrderOption): Option<real> {
    if opt.WithFeeAdjustment? then Some(opt.feeRate) else None
  }

  function SetsFeeTickSize(opt: OrderOption): Option<string> {
    if opt.WithFeeAdjustment? then Some(opt.feeTickSize) else None
  }

  function SetsFeePrice(opt: OrderOption): Option<real> {
    if opt.WithFeeAdjustment? then Some(opt.refPrice) else None
  }

  /** Each field comes from the last option that sets it, and is empty when none does. */
  ghost predicate IsDecided(keccak: Keccak, opts: seq<OrderOption>, oo: OrderOpts) {
    && IsLast(opts, SetsId, [], oo.id) && IsLast(opts, SetsTimestamp(keccak), None, oo.timestamp)
    && IsLast(opts, SetsSide, "", oo.side) && IsLast(opts, SetsTickSize, "", oo.tickSize)
    && IsLast(opts, SetsNegRisk, false, oo.negRisk) && IsLast(opts, SetsOrderType, "", oo.orderType)
    && IsLast(opts, SetsExpiration, None, oo.expiration) && IsLast<Word>(opts, SetsBuilder, Zeros(32), oo.builder)
    && IsLast<Word>(opts, SetsMetadata, Zeros(32), oo.metadata) && IsLast(opts, SetsFeeRate, 0.0, oo.feeAdjustRate)
    && IsLast(opts, SetsFeeTickSize, "", oo.feeAdjustTickSize) && IsLast(opts, SetsFeePrice, 0.0, oo.feeAdjustRefPrice)
    && (oo.postOnly <==> Occurs(opts, IsPostOnly)) && (oo.deferExec <==> Occurs(opts, IsDeferExec))
    && (oo.feeAdjust <==> Occurs(opts, IsFeeAdjustment))
  }

  // ----- Field by field -----

  function IdOf(oo: OrderOpts): Bytes { oo.id }
  function TimestampOf(oo: OrderOpts): Option<int> { oo.timestamp }
  function SideOf(oo: OrderOpts): string { oo.side }
  function TickSizeOf(oo: OrderOpts): string { oo.tickSize }
  function NegRiskOf(oo: OrderOpts): bool { oo.negRisk }
  function OrderTypeOf(oo: OrderOpts): string { oo.orderType }
  function ExpirationOf(oo: OrderOpts): Option<int> { oo.expiration }
  function BuilderOf(oo: OrderOpts): Word { oo.builder }
  function MetadataOf(oo: OrderOpts): Word { oo.metadata }
  function FeeRateOf(oo: OrderOpts): real { oo.feeAdjustRate }
  function FeeTickSizeOf(oo: OrderOpts): string { oo.feeAdjustTickSize }
  function FeePriceOf(oo: OrderOpts): real { oo.feeAdjustRefPrice }

  predicate HasPostOnly(oo: OrderOpts) { oo.postOnly }
  predicate HasDeferExec(oo: OrderOpts) { oo.deferExec }
  predicate HasFeeAdjust(oo: OrderOpts) { oo.feeAdjust }

  lemma IdIsLast(keccak: Keccak, opts: seq<OrderOption>)
    ensures IsLast(opts, SetsId, [], Options(keccak, opts).id)
  {
    LastWins(keccak, opts, IdOf, SetsId, []);
  }

  lemma TimestampIsLast(keccak: Keccak, opts: seq<OrderOption>)
    ensures IsLast(opts, SetsTimestamp(keccak), None, Options(keccak, opts).timestamp)
  {
    PrefixInBytes();
    LastWins(keccak, opts, TimestampOf, SetsTimestamp(keccak), None);
  }

  lemma SideIsLast(keccak: Keccak, opts: seq<OrderOption>)
    ensures IsLast(opts, SetsSide, "", Options(keccak, opts).side)
  {
    LastWins(keccak, opts, SideOf, SetsSide, "");
  }

  lemma TickSizeIsLast(keccak: Keccak, opts: seq<OrderOption>)
    ensures IsLast(opts, SetsTickSize, "", Options(keccak, opts).tickSize)
  {
    LastWins(keccak, opts, TickSizeOf, SetsTickSize, "");
  }

  lemma NegRiskIsLast(keccak: Keccak, opts: seq<OrderOption>)
    ensures IsLast(opts, SetsNegRisk, false, Options(keccak, opts).negRisk)
  {
    LastWins(keccak, opts, NegRiskOf, SetsNegRisk, false);
  }

  lemma OrderTypeIsLast(keccak: Keccak, opts: seq<OrderOption>)
    ensures IsLast(opts, SetsOrderType, "", Options(keccak, opts).orderType)
  {
    LastWins(keccak, opts, OrderTypeOf, SetsOrderType, "");
  }

  lemma ExpirationIsLast(keccak: Keccak, opts: seq<OrderOption>)
    ensures IsLast(opts, SetsExpiration, None, Options(keccak, opts).expiration)
  {
    LastWins(keccak, opts, ExpirationOf, SetsExpiration, None);
  }

  lemma BuilderIsLast(keccak: Keccak, opts: seq<OrderOption>)
    ensures IsLast<Word>(opts, SetsBuilder, Zeros(32), Options(keccak, opts).builder)
  {
    LastWins<Word>(keccak, opts, BuilderOf, SetsBuilder, Zeros(32));
  }

  lemma MetadataIsLast(keccak: Keccak, opts: seq<OrderOption>)
    ensures IsLast<Word>(opts, SetsMetadata, Zeros(32), Options(keccak, opts).metadata)
  {
    LastWins<Word>(keccak, opts, MetadataOf, SetsMetadata, Zeros(32));
  }

  lemma FeeRateIsLast(keccak: Keccak, opts: seq<OrderOption>)
    ensures IsLast(opts, SetsFeeRate, 0.0, Options(keccak, opts).feeAdjustRate)
  {
    LastWins(keccak, opts, FeeRateOf, SetsFeeRate, 0.0);
  }

  lemma FeeTickSizeIsLast(keccak: Keccak, opts: seq<OrderOption>)
    ensures IsLast(opts, SetsFeeTickSize, "", Options(keccak, opts).feeAdjustTickSize)
  {
    LastWins(keccak, opts, FeeTickSizeOf, SetsFeeTickSize, "");
  }

  lemma FeePriceIsLast(keccak: Keccak, opts: seq<OrderOption>)
    ensures IsLast(opts, SetsFeePrice, 0.0, Options(keccak, opts).feeAdjustRefPrice)
  {
    LastWins(keccak, opts, FeePriceOf, SetsFeePrice, 0.0);
  }

  lemma PrefixInBytes()
    ensures Ascii("timestamp:") == TIMESTAMP_PREFIX
  {
  }

  lemma PostOnlyOccurs(keccak: Keccak, opts: seq<OrderOption>)
    ensures Options(keccak, opts).postOnly <==> Occurs(opts, IsPostOnly)
  {
    FlagOccurs(keccak, opts, HasPostOnly, IsPostOnly);
  }

  lemma DeferExecOccurs(keccak: Keccak, opts: seq<OrderOption>)
    ensures Options(keccak, opts).deferExec <==> Occurs(opts, IsDeferExec)
  {
    FlagOccurs(keccak, opts, HasDeferExec, IsDeferExec);
  }

  lemma FeeAdjustOccurs(keccak: Keccak, opts: seq<OrderOption>)
    ensures Options(keccak, opts).feeAdjust <==> Occurs(opts, IsFeeAdjustment)
  {
    FlagOccurs(keccak, opts, HasFeeAdjust, IsFeeAdjustment);
  }

  /** What BuildOrder reads is what a caller reads off the list. */
  lemma OptionsAreDecided(keccak: Keccak, opts: seq<OrderOption>)
    ensures IsDecided(keccak, opts, Options(keccak, opts))
  {
    IdIsLast(keccak, opts);
    TimestampIsLast(keccak, opts);
    SideIsLast(keccak, opts);
    TickSizeIsLast(keccak, opts);
    NegRiskIsLast(keccak, opts);
    OrderTypeIsLast(keccak, opts);
    ExpirationIsLast(keccak, opts);
    BuilderIsLast(keccak, opts);
    MetadataIsLast(keccak, opts);
    FeeRateIsLast(keccak, opts);
    FeeTickSizeIsLast(keccak, opts);
    FeePriceIsLast(keccak, opts);
    PostOnlyOccurs(keccak, opts);
    DeferExecOccurs(keccak, opts);
    FeeAdjustOccurs(keccak, opts);
  }
}
