/** Order amounts and the buy fee of clob/client.go, over exact reals in place of float64. */
module OrderAmounts {
  import Encoding
  import opened GoInts

  datatype RoundConfig = RoundConfig(price: nat, size: nat, amount: nat)

  const ROUNDING_CONFIGS: map<string, RoundConfig> := map[
    "0.1" := RoundConfig(1, 2, 3),
    "0.01" := RoundConfig(2, 2, 4),
    "0.001" := RoundConfig(3, 2, 5),
    "0.0001" := RoundConfig(4, 2, 6)]

  const SIDE_BUY := "BUY"
  const SIDE_SELL := "SELL"
  const SIDE_BUY_INT := 0
  const SIDE_SELL_INT := 1
  const TOKEN_DECIMALS := 1_000_000
  const TOKEN_DECIMALS_EXP := 6

  datatype Amounts = Amounts(side: int, maker: int64, taker: int64)

  function Pow10(n: nat): (p: nat)
    ensures p > 0
  {
    if n == 0 then 1 else 10 * Pow10(n - 1)
  }

  // ----- Rounding -----

  /** math.Round: halves away from zero. */
  function RoundAway(x: real): int {
    if x >= 0.0 then (x + 0.5).Floor else -((-x + 0.5).Floor)
  }

  /** Decimal rounding: halves to the even neighbour. */
  function RoundEven(x: real): int {
    var f := x.Floor;
    var d := x - f as real;
    if d < 0.5 || (d == 0.5 && f % 2 == 0) then f else f + 1
  }

  function Ceil(x: real): int {
    -((-x).Floor)
  }

  /** The two roundings part on non-negative numbers exactly at halves above an even integer. */
  lemma RoundingsPart(x: real)
    requires x >= 0.0
    ensures RoundAway(x) == RoundEven(x) + (if x - x.Floor as real == 0.5 && x.Floor % 2 == 0 then 1 else 0)
  {
    var d := x - x.Floor as real;
    if d < 0.5 {
      assert (x + 0.5).Floor == x.Floor;
    } else {
      assert (x + 0.5).Floor == x.Floor + 1;
    }
  }

  lemma AwayIsNearest(x: real)
    ensures if x >= 0.0 then -0.5 <= x - RoundAway(x) as real < 0.5 else -0.5 < x - RoundAway(x) as real <= 0.5
  {
    var half := if x >= 0.0 then x + 0.5 else -x + 0.5;
    assert half.Floor as real <= half < half.Floor as real + 1.0;
  }

  lemma EvenIsNearest(x: real)
    ensures -0.5 <= x - RoundEven(x) as real <= 0.5
    ensures x - RoundEven(x) as real in {-0.5, 0.5} ==> RoundEven(x) % 2 == 0
  {
    assert x.Floor as real <= x < x.Floor as real + 1.0;
  }

  /** Both go to a nearest integer; halves go away from zero, and to the even neighbour. Ceil is the least above. */
  lemma RoundingsAreNearest(x: real)
    ensures if x >= 0.0 then -0.5 <= x - RoundAway(x) as real < 0.5 else -0.5 < x - RoundAway(x) as real <= 0.5
    ensures -0.5 <= x - RoundEven(x) as real <= 0.5
    ensures x - RoundEven(x) as real in {-0.5, 0.5} ==> RoundEven(x) % 2 == 0
    ensures 0.0 <= Ceil(x) as real - x < 1.0
  {
    AwayIsNearest(x);
    EvenIsNearest(x);
  }

  lemma RoundEvenOfInt(n: int)
    ensures RoundEven(n as real) == n
  {
  }

  // ----- The two ways to compute amounts -----

  /** int64(f) of an integral float: amd64 yields the smallest integer when it does not fit. */
  function FloatToInt64(n: int): int64 {
    if FitsInt64(n) then n else -TWO_TO_63
  }

  predicate OnFastGrid(size: real, price: real, rc: RoundConfig) {
    rc.size == 2 && 1 <= rc.price <= 4 && size >= 0.0 && price >= 0.0
  }

  /** computeOrderAmounts: an int64 path for the standard grid, the decimal path for everything else. */
  function ComputeOrderAmounts(side: string, size: real, price: real, rc: RoundConfig): Amounts {
    if OnFastGrid(size, price, rc) then
      FastAmounts(side, FloatToInt64(SizeTicks(size, rc)), FloatToInt64(RoundAway(PriceTicks(price, rc))), rc)
    else
      ComputeOrderAmountsDecimal(side, size, price, rc)
  }

  function FastAmounts(side: string, sizeUnits: int64, priceUnits: int64, rc: RoundConfig): Amounts
    requires rc.size == 2 && 1 <= rc.price <= 4
  {
    var sharesScale := Pow10(TOKEN_DECIMALS_EXP - rc.size);
    var collateralScale := Pow10(TOKEN_DECIMALS_EXP - rc.size - rc.price);
    var shares := ToInt64(sizeUnits * sharesScale);
    var collateral := ToInt64(ToInt64(sizeUnits * priceUnits) * collateralScale);
    if side == SIDE_BUY then Amounts(SIDE_BUY_INT, collateral, shares) else Amounts(SIDE_SELL_INT, shares, collateral)
  }

  /** Decimal.Int64: zero when the value does not fit. */
  function DecimalToInt64(n: int): int64 {
    if FitsInt64(n) then n else 0
  }

  /** n scaled down by a power of ten: what Decimal.Round and Decimal.Floor return. */
  function Scaled(n: int, digits: nat): real {
    n as real / Pow10(digits) as real
  }

  /** computeOrderAmountsDecimal: round the price, floor the size, multiply, round the products. */
  function ComputeOrderAmountsDecimal(side: string, size: real, price: real, rc: RoundConfig): Amounts {
    DecimalAmounts(side, SizeTicks(size, rc), RoundEven(PriceTicks(price, rc)), rc)
  }

  function ShareTokens(size: real): int {
    RoundEven(size * TOKEN_DECIMALS as real)
  }

  function CollateralTokens(size: real, price: real): int {
    RoundEven(size * price * TOKEN_DECIMALS as real)
  }

  function DecimalAmounts(side: string, sizeUnits: int, priceUnits: int, rc: RoundConfig): Amounts {
    var dPrice := Scaled(priceUnits, rc.price);
    var dSize := Scaled(sizeUnits, rc.size);
    var product := DecimalToInt64(CollateralTokens(dSize, dPrice));
    var shares := DecimalToInt64(ShareTokens(dSize));
    if side == SIDE_BUY then Amounts(SIDE_BUY_INT, product, shares) else Amounts(SIDE_SELL_INT, shares, product)
  }

  function PriceTicks(price: real, rc: RoundConfig): real {
    price * Pow10(rc.price) as real
  }

  function ScaledSize(size: real, rc: RoundConfig): real {
    size * Pow10(rc.size) as real
  }

  function SizeTicks(size: real, rc: RoundConfig): int {
    ScaledSize(size, rc).Floor
  }

  function SizeUnits(size: real): int {
    (size * 100.0).Floor
  }

  function PriceUnits(price: real, rc: RoundConfig): int {
    RoundAway(PriceTicks(price, rc))
  }

  lemma TicksAreUnits(size: real, rc: RoundConfig)
    requires rc.size == 2
    ensures SizeTicks(size, rc) == SizeUnits(size)
  {
    Pow10Values();
  }

  /** Scaled size, scaled price and both exact amounts fit 64 bits. */
  predicate AmountsFit(size: real, price: real, rc: RoundConfig)
    requires 1 <= rc.price <= 4
  {
    && FitsInt64(PriceUnits(price, rc))
    && FitsInt64(SizeUnits(size) * 10_000)
    && FitsInt64(SizeUnits(size) * PriceUnits(price, rc) * Pow10(4 - rc.price))
  }

  lemma Pow10Values()
    ensures Pow10(0) == 1 && Pow10(1) == 10 && Pow10(2) == 100 && Pow10(3) == 1_000 && Pow10(4) == 10_000
  {
  }

  lemma Int64Fixed(x: int)
    requires FitsInt64(x)
    ensures ToInt64(x) == x
  {
  }

  /** A factor of a non-negative product that fits also fits. */
  lemma FactorFits(a: int, k: int)
    requires a >= 0 && k >= 1 && FitsInt64(a * k)
    ensures FitsInt64(a)
  {
    assert a * (k - 1) >= 0;
  }

  /** When nothing overflows, the fast path computes the exact products, and no intermediate product overflows. */
  lemma FastPathIsExact(s: int, p: int, rc: RoundConfig)
    requires rc.size == 2 && 1 <= rc.price <= 4 && s >= 0 && p >= 0 && FitsInt64(p)
    requires FitsInt64(s * 10_000) && FitsInt64(s * p * Pow10(4 - rc.price))
    ensures FitsInt64(s) && FitsInt64(s * p)
    ensures var buy := FastAmounts(SIDE_BUY, s, p, rc);
            buy.taker == s * 10_000 && buy.maker == s * p * Pow10(4 - rc.price)
  {
    Pow10Values();
    var k, c := Pow10(4 - rc.price), s * p;
    FactorFits(s, 10_000);
    NonNegativeProduct(s, p);
    FactorFits(c, k);
    Int64Fixed(s * 10_000);
    Int64Fixed(c);
    Int64Fixed(c * k);
    assert FastAmounts(SIDE_BUY, s, p, rc).maker == ToInt64(ToInt64(c) * k);
  }

  lemma NonNegativeProduct(s: int, p: int)
    requires s >= 0 && p >= 0
    ensures s * p >= 0
  {
  }

  /** The fast path on real inputs. */
  lemma FastAmountsOf(size: real, price: real, rc: RoundConfig)
    requires OnFastGrid(size, price, rc) && AmountsFit(size, price, rc)
    ensures SizeUnits(size) >= 0 && PriceUnits(price, rc) >= 0
    ensures var buy := ComputeOrderAmounts(SIDE_BUY, size, price, rc);
            && buy.taker == SizeUnits(size) * 10_000
            && buy.maker == SizeUnits(size) * PriceUnits(price, rc) * Pow10(4 - rc.price)
  {
    TicksAreUnits(size, rc);
    NonNegativeTicks(price, rc);
    FastPathIsExact(SizeUnits(size), PriceUnits(price, rc), rc);
  }

  /** Side, maker and taker: a buyer gives collateral for shares, side 0, a seller shares for collateral, side 1. */
  predicate AreAmounts(a: Amounts, side: string, collateral: int, shares: int) {
    && a.side == (if side == "BUY" then 0 else 1)
    && a.maker == (if side == "BUY" then collateral else shares)
    && a.taker == (if side == "BUY" then shares else collateral)
  }

  lemma FastSides(side: string, s: int, p: int, rc: RoundConfig)
    requires rc.size == 2 && 1 <= rc.price <= 4 && s >= 0 && p >= 0 && FitsInt64(p)
    requires FitsInt64(s * 10_000) && FitsInt64(s * p * Pow10(4 - rc.price))
    ensures FitsInt64(s) && AreAmounts(FastAmounts(side, s, p, rc), side, s * p * Pow10(4 - rc.price), s * 10_000)
  {
    FastPathIsExact(s, p, rc);
  }

  lemma FastUnits(side: string, size: real, price: real, rc: RoundConfig)
    requires OnFastGrid(size, price, rc) && FitsInt64(SizeUnits(size)) && FitsInt64(PriceUnits(price, rc))
    ensures ComputeOrderAmounts(side, size, price, rc) == FastAmounts(side, SizeUnits(size), PriceUnits(price, rc), rc)
  {
    TicksAreUnits(size, rc);
  }

  /** Where everything fits, on the fast grid: s hundredths of a share at p ticks. */
  lemma AmountsInNumbers(side: string, size: real, price: real, rc: RoundConfig, s: int, p: int)
    requires rc.size == 2 && 1 <= rc.price <= 4 && size >= 0.0 && price >= 0.0 && AmountsFit(size, price, rc)
    requires s == (size * 100.0).Floor && p == RoundAway(price * Pow10(rc.price) as real)
    ensures AreAmounts(ComputeOrderAmounts(side, size, price, rc), side, s * p * Pow10(4 - rc.price), s * 10_000)
  {
    NonNegativeTicks(price, rc);
    UnitsInNumbers(size, price, rc);
    FactorFits(s, 10_000);
    FastSides(side, s, p, rc);
    FastUnits(side, size, price, rc);
  }

  lemma UnitsInNumbers(size: real, price: real, rc: RoundConfig)
    ensures SizeUnits(size) == (size * 100.0).Floor && (size >= 0.0 ==> SizeUnits(size) >= 0)
    ensures PriceTicks(price, rc) == price * Pow10(rc.price) as real
    ensures PriceUnits(price, rc) == RoundAway(PriceTicks(price, rc))
  {
    assert size >= 0.0 ==> size * 100.0 >= 0.0;
  }

  lemma DecimalSides(side: string, s: int, p: int, rc: RoundConfig)
    requires rc.size == 2 && 1 <= rc.price <= 4
    ensures AreAmounts(DecimalAmounts(side, s, p, rc), side, Fitting(s * p * Pow10(4 - rc.price)), Fitting(s * 10_000))
  {
    ScaleCancels(s, p, rc.price);
  }

  /** The decimal path everywhere: exact products, each read as 0 where it does not fit. */
  lemma DecimalInNumbers(side: string, size: real, price: real, rc: RoundConfig, s: int, p: int)
    requires rc.size == 2 && 1 <= rc.price <= 4
    requires s == (size * 100.0).Floor && p == RoundEven(price * Pow10(rc.price) as real)
    ensures AreAmounts(ComputeOrderAmountsDecimal(side, size, price, rc), side,
                       Fitting(s * p * Pow10(4 - rc.price)), Fitting(s * 10_000))
  {
    UnitsInNumbers(size, price, rc);
    TicksAreUnits(size, rc);
    DecimalSides(side, s, p, rc);
  }

  function Fitting(n: int): int {
    if -0x8000_0000_0000_0000 <= n < 0x8000_0000_0000_0000 then n else 0
  }

  lemma NonNegativeTicks(price: real, rc: RoundConfig)
    requires price >= 0.0
    ensures PriceTicks(price, rc) >= 0.0 && RoundEven(PriceTicks(price, rc)) >= 0 && PriceUnits(price, rc) >= 0
  {
  }

  /** size / 100 times price / 10^P times 10^6 is an integer: the scales cancel. */
  lemma ScaleCancels(s: int, p: int, digits: nat)
    requires 1 <= digits <= 4
    ensures ShareTokens(Scaled(s, 2)) == s * 10_000
    ensures CollateralTokens(Scaled(s, 2), Scaled(p, digits)) == s * p * Pow10(4 - digits)
  {
    Pow10Values();
    RealScales(s as real, p as real);
    assert (s * p) as real == s as real * p as real;
    RoundEvenOfInt(s * 10_000);
    RoundEvenOfInt(s * p * Pow10(4 - digits));
  }

  lemma RealScales(x: real, y: real)
    ensures x / 100.0 * (y / 10.0) * 1_000_000.0 == x * y * 1_000.0
    ensures x / 100.0 * (y / 100.0) * 1_000_000.0 == x * y * 100.0
    ensures x / 100.0 * (y / 1_000.0) * 1_000_000.0 == x * y * 10.0
    ensures x / 100.0 * (y / 10_000.0) * 1_000_000.0 == x * y
  {
  }

  /** The decimal path computes the same products from the price rounded to even. */
  lemma DecimalPathIsExact(s: int, p: int, rc: RoundConfig)
    requires rc.size == 2 && 1 <= rc.price <= 4
    ensures var buy := DecimalAmounts(SIDE_BUY, s, p, rc);
            buy.taker == DecimalToInt64(s * 10_000) && buy.maker == DecimalToInt64(s * p * Pow10(4 - rc.price))
  {
    ScaleCancels(s, p, rc.price);
  }

  /** A half tick above an even tick, at a size of at least one unit, on the fast grid. */
  predicate RoundsApart(size: real, price: real, rc: RoundConfig) {
    && OnFastGrid(size, price, rc) && size >= 0.01
    && var ticks := PriceTicks(price, rc);
       ticks - ticks.Floor as real == 0.5 && ticks.Floor % 2 == 0
  }

  /** 2^64 without the twos in 10^(4 - digits). */
  function CollateralModulus(digits: nat): (m: nat)
    ensures m > 0
  {
    match digits
    case 1 => 0x2000_0000_0000_0000
    case 2 => 0x4000_0000_0000_0000
    case 3 => 0x8000_0000_0000_0000
    case _ => TWO_TO_64
  }

  /** Overflowing shares do no harm: the units that int64 holds are a multiple of 2^60. */
  predicate SharesSurvive(size: real) {
    FitsInt64(SizeUnits(size) * 10_000) || FloatToInt64(SizeUnits(size)) % 0x1000_0000_0000_0000 == 0
  }

  /**
   * Overflowing collateral does no harm: the product that int64 holds, less the decimal path's product where that one
   * fits, is a multiple of 2^61, 2^62, 2^63 or 2^64.
   */
  predicate CollateralSurvives(size: real, price: real, rc: RoundConfig)
    requires 1 <= rc.price <= 4
  {
    var s, p, q := SizeUnits(size), PriceUnits(price, rc), RoundEven(PriceTicks(price, rc));
    (FloatToInt64(s) * FloatToInt64(p) - if FitsInt64(s * q * Pow10(4 - rc.price)) then s * q else 0)
      % CollateralModulus(rc.price) == 0
  }

  /**
   * Parity of the two paths, for every side, size, price and configuration: they agree off the fast grid; on it, where
   * nothing overflows, exactly when the price is not a half tick above an even tick (or no unit is traded); and where
   * something overflows, exactly when neither amount suffers from it.
   */
  lemma PathsAgree(side: string, size: real, price: real, rc: RoundConfig)
    ensures ComputeOrderAmounts(side, size, price, rc) == ComputeOrderAmountsDecimal(side, size, price, rc)
       <==> !OnFastGrid(size, price, rc)
            || if AmountsFit(size, price, rc) then !RoundsApart(size, price, rc)
                else SharesSurvive(size) && CollateralSurvives(size, price, rc)
  {
    if OnFastGrid(size, price, rc) {
      SidesMirror(side, size, price, rc);
      if AmountsFit(size, price, rc) {
        BuyPathsAgree(size, price, rc);
      } else {
        WrappedPathsAgree(size, price, rc);
      }
    }
  }

  lemma WrappedPathsAgree(size: real, price: real, rc: RoundConfig)
    requires OnFastGrid(size, price, rc)
    ensures ComputeOrderAmounts(SIDE_BUY, size, price, rc) == ComputeOrderAmountsDecimal(SIDE_BUY, size, price, rc)
       <==> SharesSurvive(size) && CollateralSurvives(size, price, rc)
  {
    SharesAgree(size, price, rc);
    CollateralAgrees(size, price, rc);
    SidesMirror(SIDE_BUY, size, price, rc);
  }

  /** The collateral amounts of the two paths, in full. */
  lemma CollateralAgrees(size: real, price: real, rc: RoundConfig)
    requires OnFastGrid(size, price, rc)
    ensures ComputeOrderAmounts(SIDE_BUY, size, price, rc).maker
        == ComputeOrderAmountsDecimal(SIDE_BUY, size, price, rc).maker
       <==> CollateralSurvives(size, price, rc)
  {
    var s, p, q, k := SizeUnits(size), PriceUnits(price, rc), RoundEven(PriceTicks(price, rc)), Pow10(4 - rc.price);
    FastAmountsWrap(size, price, rc);
    TicksAreUnits(size, rc);
    DecimalPathIsExact(s, q, rc);
    ProductsAgree(FloatToInt64(s) * FloatToInt64(p), s * q, rc.price);
  }

  lemma ProductsAgree(fast: int, exact: int, digits: nat)
    requires 1 <= digits <= 4
    ensures ToInt64(fast * Pow10(4 - digits)) == DecimalToInt64(exact * Pow10(4 - digits)) <==>
            (fast - if FitsInt64(exact * Pow10(4 - digits)) then exact else 0) % CollateralModulus(digits) == 0
  {
    var k := Pow10(4 - digits);
    var e := if FitsInt64(exact * k) then exact else 0;
    ToInt64Agrees(fast * k, DecimalToInt64(exact * k));
    assert fast * k - e * k == (fast - e) * k;
    DividesOut(fast - e, digits);
  }

  lemma DividesOut(x: int, digits: nat)
    requires 1 <= digits <= 4
    ensures x * Pow10(4 - digits) % TWO_TO_64 == 0 <==> x % CollateralModulus(digits) == 0
  {
    Pow10Values();
    match digits {
      case 1 => Divisible(x, 125, CollateralModulus(1), 2_066_035_336_255_469_781, -112, 8);
      case 2 => Divisible(x, 25, CollateralModulus(2), 1_106_804_644_422_573_097, -6, 4);
      case 3 => Divisible(x, 5, CollateralModulus(3), 5_534_023_222_112_865_485, -3, 2);
      case 4 => Divisible(x, 1, TWO_TO_64, 1, 0, 1);
    }
  }

  /** A factor prime to the modulus does not matter for divisibility, nor does one that the modulus has as well. */
  lemma Divisible(x: int, f: int, m: int, u: int, v: int, t: int)
    requires m > 0 && t > 0 && f * u + m * v == 1
    ensures x * (f * t) % (m * t) == 0 <==> x % m == 0
  {
    if x * (f * t) % (m * t) == 0 {
      var a := x * (f * t) / (m * t);
      assert t * (x * f) == t * (m * a);
      assert x * f == m * a;
      assert x == m * (a * u + x * v) by {
        assert x == x * (f * u + m * v);
      }
      IsMultiple(a * u + x * v, m);
    }
    if x % m == 0 {
      var a := x / m;
      assert x * (f * t) == (m * t) * (a * f);
      IsMultiple(a * f, m * t);
    }
  }

  lemma IsMultiple(q: int, m: int)
    requires m > 0
    ensures m * q % m == 0
  {
    Encoding.RemainderIsUnique(m * q, m, q, 0);
  }

  /** The fast path wraps the two products of what int64 holds, whatever overflows on the way. */
  lemma FastAmountsWrap(size: real, price: real, rc: RoundConfig)
    requires OnFastGrid(size, price, rc)
    ensures var s, p, k := FloatToInt64(SizeUnits(size)), FloatToInt64(PriceUnits(price, rc)), Pow10(4 - rc.price);
            var buy := ComputeOrderAmounts(SIDE_BUY, size, price, rc);
            buy.taker == ToInt64(s * 10_000) && buy.maker == ToInt64(s * p * k)
  {
    TicksAreUnits(size, rc);
    FastProductsWrap(FloatToInt64(SizeUnits(size)), FloatToInt64(PriceUnits(price, rc)), rc);
  }

  lemma FastProductsWrap(s: int64, p: int64, rc: RoundConfig)
    requires rc.size == 2 && 1 <= rc.price <= 4
    ensures var buy := FastAmounts(SIDE_BUY, s, p, rc);
            buy.taker == ToInt64(s * 10_000) && buy.maker == ToInt64(s * p * Pow10(4 - rc.price))
  {
    Pow10Values();
    WrapTwice(s * p, Pow10(4 - rc.price));
  }

  /** The share amounts of the two paths, in full: overflowing shares come out alike only on multiples of 2^60 units. */
  lemma SharesAgree(size: real, price: real, rc: RoundConfig)
    requires OnFastGrid(size, price, rc)
    ensures ComputeOrderAmounts(SIDE_BUY, size, price, rc).taker
        == ComputeOrderAmountsDecimal(SIDE_BUY, size, price, rc).taker
       <==> SharesSurvive(size)
  {
    var s := SizeUnits(size);
    assert s >= 0;
    FastAmountsWrap(size, price, rc);
    TicksAreUnits(size, rc);
    DecimalPathIsExact(s, RoundEven(PriceTicks(price, rc)), rc);
    if FitsInt64(s * 10_000) {
      FactorFits(s, 10_000);
      Int64Fixed(s * 10_000);
    } else {
      ResidueOfShares(FloatToInt64(s));
    }
  }

  lemma ResidueOfShares(s: int64)
    ensures ToInt64(s * 10_000) == 0 <==> s % 0x1000_0000_0000_0000 == 0
  {
    ToInt64Agrees(s * 10_000, 0);
    var m := 0x1000_0000_0000_0000;
    if s * 10_000 % TWO_TO_64 == 0 {
      var a := s * 10_000 / TWO_TO_64;
      assert s * 625 == m * a;
      var x, y := 182_622_766_329_724_561, -99;
      assert 625 * x + m * y == 1;
      assert s == m * (a * x + s * y);
    } else if s % m == 0 {
      SumOfMultiples(0, s / m * 625);
    }
  }

  /** Overflowing shares make the two paths differ, on either side and at every price, but for that coincidence. */
  lemma OverflowingSharesDiffer(side: string, size: real, price: real, rc: RoundConfig)
    requires OnFastGrid(size, price, rc) && !SharesSurvive(size)
    ensures ComputeOrderAmounts(side, size, price, rc) != ComputeOrderAmountsDecimal(side, size, price, rc)
  {
    SharesAgree(size, price, rc);
    SidesMirror(side, size, price, rc);
  }

  /** At 10^13 shares, no half tick in sight, the fast path wraps around and the decimal path gives up. */
  lemma OverflowAtTenTrillion()
    ensures var rc := RoundConfig(1, 2, 3);
            && ComputeOrderAmounts(SIDE_BUY, 10_000_000_000_000.0, 0.5, rc).taker == -8_446_744_073_709_551_616
            && ComputeOrderAmountsDecimal(SIDE_BUY, 10_000_000_000_000.0, 0.5, rc).taker == 0
            && !RoundsApart(10_000_000_000_000.0, 0.5, rc)
  {
    var rc := RoundConfig(1, 2, 3);
    var size := 10_000_000_000_000.0;
    Pow10Values();
    assert SizeUnits(size) == 1_000_000_000_000_000;
    FastAmountsWrap(size, 0.5, rc);
    TicksAreUnits(size, rc);
    DecimalPathIsExact(SizeUnits(size), RoundEven(PriceTicks(0.5, rc)), rc);
    assert PriceTicks(0.5, rc) == 5.0;
  }

  /** At 10^17 shares the size itself leaves int64: the fast path goes on from the smallest integer. */
  lemma OverflowingSize()
    ensures var rc := RoundConfig(4, 2, 6);
            && ComputeOrderAmounts(SIDE_BUY, 100_000_000_000_000_000.0, 0.0001, rc).maker == -9_223_372_036_854_775_808
            && ComputeOrderAmountsDecimal(SIDE_BUY, 100_000_000_000_000_000.0, 0.0001, rc).maker == 0
  {
    var rc := RoundConfig(4, 2, 6);
    var size := 100_000_000_000_000_000.0;
    Pow10Values();
    assert PriceTicks(0.0001, rc) == 1.0;
    assert SizeUnits(size) == 10_000_000_000_000_000_000;
    FastAmountsWrap(size, 0.0001, rc);
    TicksAreUnits(size, rc);
    DecimalPathIsExact(SizeUnits(size), RoundEven(PriceTicks(0.0001, rc)), rc);
  }

  lemma BuyPathsAgree(size: real, price: real, rc: RoundConfig)
    requires OnFastGrid(size, price, rc) && AmountsFit(size, price, rc)
    ensures ComputeOrderAmounts(SIDE_BUY, size, price, rc) == ComputeOrderAmountsDecimal(SIDE_BUY, size, price, rc)
       <==> !RoundsApart(size, price, rc)
  {
    var s, p, q := SizeUnits(size), PriceUnits(price, rc), RoundEven(PriceTicks(price, rc));
    var k := Pow10(4 - rc.price);
    FastAmountsOf(size, price, rc);
    TicksAreUnits(size, rc);
    DecimalPathIsExact(s, q, rc);
    NonNegativeTicks(price, rc);
    RoundingsPart(PriceTicks(price, rc));
    ProductsDiffer(s, p, q, k);
    UnitsOfSize(size);
  }

  lemma UnitsOfSize(size: real)
    ensures SizeUnits(size) >= 1 <==> size >= 0.01
  {
  }

  lemma ProductsDiffer(s: int, p: int, q: int, k: int)
    requires s >= 0 && 0 <= q <= p <= q + 1 && k >= 1 && FitsInt64(s * p * k)
    ensures FitsInt64(s * q * k) && (s * p * k == s * q * k <==> s == 0 || p == q)
  {
    if p == q + 1 {
      assert s * p == s * q + s;
      assert s * p * k == s * q * k + s * k;
      assert s * k >= s;
      assert s * q >= 0;
      assert s * q * k >= 0;
    }
  }

  function Mirrored(buy: Amounts): Amounts {
    Amounts(SIDE_SELL_INT, buy.taker, buy.maker)
  }

  /** Anything but buying is selling, and selling is buying with maker and taker exchanged, on both paths. */
  lemma SidesMirror(side: string, size: real, price: real, rc: RoundConfig)
    ensures ComputeOrderAmounts(side, size, price, rc).side == if side == "BUY" then 0 else 1
    ensures ComputeOrderAmountsDecimal(side, size, price, rc).side == if side == "BUY" then 0 else 1
    ensures var buy := ComputeOrderAmounts(SIDE_BUY, size, price, rc);
            buy.side == SIDE_BUY_INT
                && (side != SIDE_BUY ==> ComputeOrderAmounts(side, size, price, rc) == Mirrored(buy))
    ensures var buy := ComputeOrderAmountsDecimal(SIDE_BUY, size, price, rc);
            buy.side == SIDE_BUY_INT
                && (side != SIDE_BUY ==> ComputeOrderAmountsDecimal(side, size, price, rc) == Mirrored(buy))
  {
  }

  /**
   * For a price of at most 1 it is enough that the share amount fits: then no intermediate product overflows, the
   * collateral never exceeds the shares, and it is exactly shares times the rounded price.
   */
  lemma CollateralIsProportional(size: real, price: real, rc: RoundConfig)
    requires OnFastGrid(size, price, rc) && price <= 1.0 && FitsInt64(SizeUnits(size) * 10_000)
    ensures AmountsFit(size, price, rc)
    ensures var buy := ComputeOrderAmounts(SIDE_BUY, size, price, rc);
            && buy.taker == SizeUnits(size) * 10_000
            && 0 <= buy.maker <= buy.taker
            && buy.maker * Pow10(rc.price) == buy.taker * PriceUnits(price, rc)
  {
    Pow10Values();
    var s, p, t := SizeUnits(size), PriceUnits(price, rc), Pow10(rc.price);
    var k := Pow10(4 - rc.price);
    assert t * k == 10_000;
    assert 0 <= p <= t;
    Proportion(s, p, t, k);
    FastAmountsOf(size, price, rc);
  }

  lemma Proportion(s: int, p: int, t: int, k: int)
    requires s >= 0 && 0 <= p <= t && k >= 1 && t * k == 10_000
    ensures 0 <= s * p * k <= s * 10_000
    ensures s * p * k * t == s * 10_000 * p
  {
    assert s * p >= 0 && s * (t - p) >= 0;
    assert s * p <= s * t;
    assert s * p * k <= s * t * k;
    assert s * t * k == s * (t * k);
    assert s * p * k * t == s * p * (t * k);
  }
}
