/** Fee oversizing and size alignment of BuildOrder in clob/client.go, over exact reals. */
module OrderSizing {
  import opened OrderAmounts

  const MIN_BUY_SHARES := 5.0
  const ALIGNMENT_TOLERANCE := 0.000000001

  /** The share of the bought tokens that goes to the taker fee. */
  function BuyFeeRate(price: real, rate: real): (fr: real)
    ensures fr >= 0.0
  {
    if rate <= 0.0 || price <= 0.0 || price >= 1.0 then 0.0 else rate * (1.0 - price)
  }

  /** The price the fee is expected at: the reference price, or the limit price when there is none. */
  function ReferencePrice(refPrice: real, price: real): real {
    if refPrice <= 0.0 || refPrice >= 1.0 then price else refPrice
  }

  /** The rate BuildOrder divides by: a rate of 1 or more is dropped. */
  function EffectiveFeeRate(refPrice: real, price: real, rate: real): (fr: real)
    ensures 0.0 <= fr < 1.0
  {
    var fr := BuyFeeRate(ReferencePrice(refPrice, price), rate);
    if fr >= 1.0 then 0.0 else fr
  }

  /** The oversized order in units of the size precision, rounded up. */
  function AdjustedUnits(net: real, fr: real, mult: int): int
    requires 0.0 <= fr < 1.0
  {
    Ceil(net / (1.0 - fr) * mult as real)
  }

  function AdjustedSize(net: real, fr: real, rc: RoundConfig): real
    requires 0.0 <= fr < 1.0
  {
    AdjustedUnits(net, fr, Pow10(rc.size)) as real / Pow10(rc.size) as real
  }

  predicate Aligned(size: real, rc: RoundConfig) {
    var d := ScaledSize(size, rc) - RoundAway(ScaledSize(size, rc)) as real;
    -ALIGNMENT_TOLERANCE <= d <= ALIGNMENT_TOLERANCE
  }

  lemma CeilBounds(x: real)
    ensures (Ceil(x) - 1) as real < x <= Ceil(x) as real
  {
  }

  lemma RoundAwayOfInt(n: int)
    ensures RoundAway(n as real) == n
  {
  }

  /** The adjusted size is the least number of units that still nets the request after the fee. */
  lemma AdjustedSizeIsLeast(net: real, fr: real, mult: int)
    requires 0.0 <= fr < 1.0 && mult > 0
    ensures var u := AdjustedUnits(net, fr, mult);
            && u as real / mult as real * (1.0 - fr) >= net
            && (u - 1) as real / mult as real * (1.0 - fr) < net
  {
    var keep, m := 1.0 - fr, mult as real;
    var gross := net / keep;
    CeilBounds(gross * m);
    var u := AdjustedUnits(net, fr, mult);
    NetOfGross(gross, keep, m, u as real);
    NetBelowGross(gross, keep, m, (u - 1) as real);
    assert gross * keep == net;
  }

  lemma NetOfGross(gross: real, keep: real, m: real, u: real)
    requires keep > 0.0 && m > 0.0 && u >= gross * m
    ensures u / m * keep >= gross * keep
  {
    assert u / m >= gross by {
      assert u / m * m == u;
    }
  }

  lemma NetBelowGross(gross: real, keep: real, m: real, u: real)
    requires keep > 0.0 && m > 0.0 && u < gross * m
    ensures u / m * keep < gross * keep
  {
    assert u / m < gross by {
      assert u / m * m == u;
    }
  }

  lemma DivideBack(x: real, m: real)
    requires m > 0.0
    ensures x / m * m == x
  {
  }

  lemma ScaledAdjustedSize(net: real, fr: real, rc: RoundConfig)
    requires 0.0 <= fr < 1.0
    ensures ScaledSize(AdjustedSize(net, fr, rc), rc) == AdjustedUnits(net, fr, Pow10(rc.size)) as real
  {
    DivideBack(AdjustedUnits(net, fr, Pow10(rc.size)) as real, Pow10(rc.size) as real);
  }

  /** An adjusted size is aligned, and flooring it back gives its units. */
  lemma AdjustedSizeIsAligned(net: real, fr: real, rc: RoundConfig)
    requires 0.0 <= fr < 1.0
    ensures Aligned(AdjustedSize(net, fr, rc), rc)
    ensures SizeTicks(AdjustedSize(net, fr, rc), rc) == AdjustedUnits(net, fr, Pow10(rc.size))
  {
    ScaledAdjustedSize(net, fr, rc);
    RoundAwayOfInt(AdjustedUnits(net, fr, Pow10(rc.size)));
  }

  /** Any accepted size trades its nearest number of units, or one unit less when it lies below it. */
  lemma AlignedSizeLosesAtMostOne(size: real, rc: RoundConfig)
    requires Aligned(size, rc)
    ensures var scaled := ScaledSize(size, rc);
            SizeTicks(size, rc) == RoundAway(scaled) - (if scaled < RoundAway(scaled) as real then 1 else 0)
  {
    NearInteger(ScaledSize(size, rc), RoundAway(ScaledSize(size, rc)));
  }

  lemma NearInteger(x: real, n: int)
    requires -ALIGNMENT_TOLERANCE <= x - n as real <= ALIGNMENT_TOLERANCE
    ensures x.Floor == n - if x < n as real then 1 else 0
  {
  }

  /** A rate of 1 or more cannot be compensated: no number of shares nets a positive request. */
  lemma DroppedRateNeverNets(units: int, mult: int, fr: real, net: real)
    requires fr >= 1.0 && net > 0.0 && units >= 0 && mult > 0
    ensures units as real / mult as real * (1.0 - fr) < net
  {
    var gross := units as real / mult as real;
    assert gross >= 0.0;
    NonPositive(gross, 1.0 - fr);
  }

  lemma NonPositive(a: real, b: real)
    requires a >= 0.0 && b <= 0.0
    ensures a * b <= 0.0
  {
  }
}
