/** The taker fee table of polymarket/market.go, over exact reals. */
module FeeTable {
  import opened OrderAmounts
  import opened OrderSizing

  const FEE_CACHE_SIZE := 10_001

  type int32 = x: int | -0x8000_0000 <= x < 0x8000_0000

  /** rate * p * (1 - p) * (1 - rebate), and nothing outside the open interval of prices. */
  function Fee(p: real, rate: real, rebate: real): real {
    if p <= 0.0 || p >= 1.0 then 0.0
    else if rebate > 0.0 then rate * p * (1.0 - p) * (1.0 - rebate)
    else rate * p * (1.0 - p)
  }

  /** The price of table entry i. */
  function KeyPrice(i: int): real {
    i as real / 10_000.0
  }

  function NearestKey(p: real): int {
    RoundAway(p * 10_000.0)
  }

  class FeeParams {
    const rate: real
    const rebate: real
    var cache: array?<real>

    /** A table, where there is one, holds the fee at every key. The zero value has none. */
    ghost predicate Valid()
      reads this, cache
    {
      cache != null ==>
        && cache.Length == FEE_CACHE_SIZE
        && forall i | 0 <= i < FEE_CACHE_SIZE :: cache[i] == Fee(KeyPrice(i), rate, rebate)
    }

    /** FeeParams{Rate: rate, Rebate: rebate}: no table. */
    constructor Plain(rate: real, rebate: real)
      ensures Valid() && this.rate == rate && this.rebate == rebate && cache == null
    {
      this.rate, this.rebate, cache := rate, rebate, null;
    }

    /** NewFeeParams fills the table entry by entry. */
    constructor (rate: real, rebate: real)
      ensures Valid() && this.rate == rate && this.rebate == rebate && cache != null && fresh(cache)
      ensures cache.Length == 10_001
      ensures forall i | 0 <= i < 10_001 :: cache[i] == Fee(i as real / 10_000.0, rate, rebate)
    {
      this.rate, this.rebate := rate, rebate;
      var table := new real[FEE_CACHE_SIZE];
      for i := 0 to FEE_CACHE_SIZE
        invariant forall j | 0 <= j < i :: table[j] == Fee(KeyPrice(j), rate, rebate)
      {
        table[i] := Fee(i as real / 10_000.0, rate, rebate);
      }
      cache := table;
    }

    /** Looks up the nearest key, or computes where there is none. */
    method FeePerShare(p: real) returns (fee: real)
      requires Valid()
      ensures fee == Fee(if cache != null && 0 <= NearestKey(p) < FEE_CACHE_SIZE then KeyPrice(NearestKey(p)) else p,
                         rate, rebate)
      ensures rate >= 0.0 && rebate <= 1.0 ==>
        -FeeTolerance(rate, rebate) <= fee - Fee(p, rate, rebate) <= FeeTolerance(rate, rebate)
    {
      LookupIsClose(p, rate, rebate);
      if cache != null {
        var idx := NearestKey(p);
        if idx >= 0 && idx < FEE_CACHE_SIZE {
          return cache[idx];
        }
      }
      fee := Fee(p, rate, rebate);
    }

    /** The same for a caller that already holds the key: exact for every key, and zero outside the table. */
    method FeePerShareKey(pk: int32) returns (fee: real)
      requires Valid()
      ensures fee == Fee(KeyPrice(pk), rate, rebate)
      ensures !(0 < pk < FEE_CACHE_SIZE - 1) ==> fee == 0.0
    {
      if cache != null && pk >= 0 && pk < FEE_CACHE_SIZE {
        fee := cache[pk];
      } else {
        fee := Fee(pk as real / 10_000.0, rate, rebate);
      }
    }
  }

  /** Half a key's width times the steepest slope of the fee. */
  function FeeTolerance(rate: real, rebate: real): real {
    Times(KeptRate(rate, rebate), 1.0 / 20_000.0)
  }

  function Parabola(p: real): real {
    if p <= 0.0 || p >= 1.0 then 0.0 else p * (1.0 - p)
  }

  /** The rate after the rebate; a rebate that is not positive counts as none. */
  function KeptRate(rate: real, rebate: real): real {
    if rebate > 0.0 then rate * (1.0 - rebate) else rate
  }

  function Times(a: real, b: real): real {
    a * b
  }

  lemma FeeIsParabola(p: real, rate: real, rebate: real)
    ensures Fee(p, rate, rebate) == Times(KeptRate(rate, rebate), Parabola(p))
  {
    if 0.0 < p < 1.0 {
      var q := p * (1.0 - p);
      assert rate * p * (1.0 - p) == rate * q;
      assert rate * q * (1.0 - rebate) == rate * (1.0 - rebate) * q;
    } else {
      assert rate * (1.0 - rebate) * 0.0 == 0.0;
    }
  }

  /** The parabola has slope at most 1, also across its two ends. */
  lemma ParabolaIsLipschitz(p: real, q: real)
    requires p <= q
    ensures -(q - p) <= Parabola(q) - Parabola(p) <= q - p
  {
    if 0.0 < p && q < 1.0 {
      InnerSlope(p, q);
    } else if p <= 0.0 && 0.0 < q < 1.0 {
      InnerSlope(0.0, q);
    } else if 0.0 < p < 1.0 && q >= 1.0 {
      InnerSlope(p, 1.0);
    }
  }

  lemma InnerSlope(p: real, q: real)
    requires 0.0 <= p <= q <= 1.0
    ensures -(q - p) <= q * (1.0 - q) - p * (1.0 - p) <= q - p
  {
    var d, s := q - p, 1.0 - p - q;
    assert q * (1.0 - q) - p * (1.0 - p) == d * s;
    NonNegativeProduct(d, 1.0 - s);
    NonNegativeProduct(d, 1.0 + s);
  }

  lemma NonNegativeProduct(a: real, b: real)
    requires a >= 0.0 && b >= 0.0
    ensures a * b >= 0.0
  {
  }

  lemma NearestKeyIsClose(p: real)
    ensures -1.0 / 20_000.0 <= KeyPrice(NearestKey(p)) - p <= 1.0 / 20_000.0
  {
    var x := p * 10_000.0;
    assert -0.5 <= RoundAway(x) as real - x <= 0.5;
  }

  /** Reading the table at the nearest key is off by at most the tolerance, at every price. */
  lemma LookupIsClose(p: real, rate: real, rebate: real)
    ensures rate >= 0.0 && rebate <= 1.0 ==>
      var fee := Fee(KeyPrice(NearestKey(p)), rate, rebate);
      -FeeTolerance(rate, rebate) <= fee - Fee(p, rate, rebate) <= FeeTolerance(rate, rebate)
          && FeeTolerance(rate, rebate) >= 0.0
  {
    if rate >= 0.0 && rebate <= 1.0 {
      var q, k := KeyPrice(NearestKey(p)), KeptRate(rate, rebate);
      NonNegativeProduct(rate, 1.0 - rebate);
      FeeIsParabola(p, rate, rebate);
      FeeIsParabola(q, rate, rebate);
      NearestKeyIsClose(p);
      if p <= q {
        ParabolaIsLipschitz(p, q);
      } else {
        ParabolaIsLipschitz(q, p);
      }
      ScaledBound(k, Parabola(q), Parabola(p), 1.0 / 20_000.0);
    }
  }

  lemma ScaledBound(k: real, a: real, b: real, d: real)
    requires k >= 0.0 && d >= 0.0 && -d <= a - b <= d
    ensures -Times(k, d) <= Times(k, a) - Times(k, b) <= Times(k, d) && Times(k, d) >= 0.0
  {
    NonNegativeProduct(k, d);
    NonNegativeProduct(k, d - (a - b));
    NonNegativeProduct(k, d + (a - b));
  }

  /** The buy fee in shares, turned into collateral, is the fee per share without rebate: iff the rate is not negative
      or the price is outside the open unit interval. */
  lemma BuyFeeRateIsFee(p: real, rate: real)
    ensures BuyFeeRate(p, rate) * p == Fee(p, rate, 0.0) <==> rate >= 0.0 || p <= 0.0 || p >= 1.0
    ensures 0.0 < p < 1.0 ==> Fee(p, rate, 0.0) == rate * (p * (1.0 - p))
    ensures p <= 0.0 || p >= 1.0 ==> Fee(p, rate, 0.0) == 0.0
  {
    if 0.0 < p < 1.0 {
      var q := p * (1.0 - p);
      assert q > 0.0;
      assert rate * p * (1.0 - p) == rate * q;
      assert rate * (1.0 - p) * p == rate * q;
      if rate < 0.0 {
        assert rate * q < 0.0;
      }
    }
  }

  /** The fee does not depend on the side of the pair. */
  lemma FeeIsSymmetric(p: real, rate: real, rebate: real)
    ensures Fee(p, rate, rebate) == Fee(1.0 - p, rate, rebate)
    ensures Fee(p, rate, rebate) == Fee(p, rate, 0.0) * if rebate > 0.0 then 1.0 - rebate else 1.0
  {
    if 0.0 < p < 1.0 {
      assert rate * p * (1.0 - p) == rate * (1.0 - p) * (1.0 - (1.0 - p));
    }
  }

  predicate IsHalfKey(p: real) {
    var x := p * 10_000.0;
    x - x.Floor as real == 0.5
  }

  /** The nearest keys of p and 1 - p are mirror images, except at half keys, where both are rounded up. */
  lemma NearestKeyMirrors(p: real)
    requires 0.0 <= p <= 1.0
    ensures NearestKey(1.0 - p) == 10_000 - NearestKey(p) + if IsHalfKey(p) then 1 else 0
    ensures 0 <= NearestKey(p) <= 10_000 && (IsHalfKey(p) ==> NearestKey(p) >= 1)
  {
    var x := p * 10_000.0;
    assert (1.0 - p) * 10_000.0 == 10_000.0 - x;
    assert (x + 0.5).Floor == x.Floor + if x - x.Floor as real >= 0.5 then 1 else 0;
    var y := 10_000.0 - x;
    assert (y + 0.5).Floor == 10_000 - x.Floor + if x - x.Floor as real > 0.5 then -1 else 0;
  }

  /**
   * The lookup is symmetric at p exactly when p is no price, or not halfway between two keys, or the fee vanishes
   * altogether.
   */
  lemma LookupIsSymmetric(p: real, rate: real, rebate: real)
    ensures Fee(KeyPrice(NearestKey(p)), rate, rebate) == Fee(KeyPrice(NearestKey(1.0 - p)), rate, rebate)
       <==> p < 0.0 || p > 1.0 || !IsHalfKey(p) || KeptRate(rate, rebate) == 0.0
  {
    if p < 0.0 || p > 1.0 {
      NoFeeOutside(p, rate, rebate);
      NoFeeOutside(1.0 - p, rate, rebate);
    } else {
      LookupIsSymmetricInside(p, rate, rebate);
    }
  }

  lemma NoFeeOutside(p: real, rate: real, rebate: real)
    requires p < 0.0 || p > 1.0
    ensures Fee(KeyPrice(NearestKey(p)), rate, rebate) == 0.0
  {
    var x := p * 10_000.0;
    if p > 1.0 {
      assert (x + 0.5).Floor >= 10_000;
    } else {
      assert (-x + 0.5).Floor >= 0;
    }
  }

  lemma LookupIsSymmetricInside(p: real, rate: real, rebate: real)
    requires 0.0 <= p <= 1.0
    ensures Fee(KeyPrice(NearestKey(p)), rate, rebate) == Fee(KeyPrice(NearestKey(1.0 - p)), rate, rebate)
       <==> !IsHalfKey(p) || KeptRate(rate, rebate) == 0.0
  {
    var k := NearestKey(p);
    NearestKeyMirrors(p);
    KeysMirror(k);
    FeeIsSymmetric(KeyPrice(k), rate, rebate);
    if IsHalfKey(p) {
      EntriesDiffer(10_001 - k, rate, rebate);
    }
  }

  lemma KeysMirror(k: int)
    ensures 1.0 - KeyPrice(k) == KeyPrice(10_000 - k)
  {
  }

  /** Neighbouring entries differ unless all entries are zero. */
  lemma EntriesDiffer(m: int, rate: real, rebate: real)
    requires 1 <= m <= 10_000
    ensures Fee(KeyPrice(m - 1), rate, rebate) == Fee(KeyPrice(m), rate, rebate) <==> KeptRate(rate, rebate) == 0.0
  {
    FeeIsParabola(KeyPrice(m - 1), rate, rebate);
    FeeIsParabola(KeyPrice(m), rate, rebate);
    NeighboursDiffer(m);
    CommonFactor(KeptRate(rate, rebate), Parabola(KeyPrice(m - 1)), Parabola(KeyPrice(m)));
  }

  lemma CommonFactor(c: real, a: real, b: real)
    ensures Times(c, a) == Times(c, b) <==> c == 0.0 || a == b
  {
    assert c * (a - b) == c * a - c * b;
  }

  lemma NeighboursDiffer(m: int)
    requires 1 <= m <= 10_000
    ensures Parabola(KeyPrice(m - 1)) != Parabola(KeyPrice(m))
  {
    var q, h := KeyPrice(m), 0.0001;
    assert KeyPrice(m - 1) == q - h;
    assert q * (1.0 - q) - (q - h) * (1.0 - (q - h)) == h * (1.0 - (2 * m - 1) as real / 10_000.0);
    assert Parabola(q) == q * (1.0 - q) && Parabola(q - h) == (q - h) * (1.0 - (q - h));
  }
}
