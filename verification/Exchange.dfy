/** Currency conversion with one rounding at the end, and the price list built from it. */
module Exchange {
  import opened Options
  import opened Numbers

  datatype Currency = EUR | BTC | USD | GBP | CAD | CHF | AUD | JPY

  /** An amount in the smallest unit of its currency. */
  datatype Amount = Amount(currency: Currency, value: nat)

  /** One unit of base costs rate units of quote. */
  datatype TickerRate = TickerRate(base: Currency, quote: Currency, rate: real) {
    predicate CanConvert(c: Currency) {
      c == base || c == quote
    }

    function Other(c: Currency): Currency {
      if c == base then quote else base
    }
  }

  /** Smallest units per standard unit: milli-sats or cents. */
  function Scale(c: Currency): real {
    if c == BTC then 1.0e11 else 100.0
  }

  /** Round half up, then cast to 64 bits: values outside the width saturate. */
  function RoundToU64(x: real): nat {
    if x < 0.5 then 0 else if U64_MAX as real <= x then U64_MAX else (x + 0.5).Floor
  }

  /** The converted value; dividing by a zero rate is infinite, and zero times that is zero once cast. */
  function ConvertedValue(r: TickerRate, a: Amount): nat
    requires r.CanConvert(a.currency)
  {
    if a.currency == r.base then RoundToU64(Scaled(a.value, a.currency, r.rate, r.quote))
    else if r.rate == 0.0 then (if a.value == 0 then 0 else U64_MAX)
    else RoundToU64(Scaled(a.value, a.currency, 1.0 / r.rate, r.base))
  }

  /** A value in standard units, times the factor, in the smallest units of the target. */
  function Scaled(value: nat, from: Currency, factor: real, to: Currency): real {
    value as real / Scale(from) * factor * Scale(to)
  }

  function Convert(r: TickerRate, a: Amount): (c: Option<Amount>)
    ensures c.Some? <==> r.CanConvert(a.currency)
    ensures c.Some? ==> c.value.currency == r.Other(a.currency)
  {
    if !r.CanConvert(a.currency) then None
    else Some(Amount(r.Other(a.currency), ConvertedValue(r, a)))
  }

  // ----- there and back -----

  /** A Bitcoin price in a fiat currency. */
  predicate PricesBtc(r: TickerRate) {
    r.base == BTC && r.quote != BTC && 0.0 < r.rate
  }

  lemma Scales(a: real, b: real, k: real)
    requires 0.0 < k
    ensures a < b <==> a * k < b * k
    ensures a <= b <==> a * k <= b * k
  {
  }

  /** Quotients compare as their dividends do. */
  lemma QuotientsCompare(x: real, p: real, y: real, q: real, rate: real)
    requires 0.0 < rate && x * rate == p && y * rate == q
    ensures x < y <==> p < q
  {
  }

  /** Cents to milli-sats, before rounding. */
  ghost function ToMsat(r: TickerRate, cents: nat): real
    requires PricesBtc(r)
  {
    Scaled(cents, r.quote, 1.0 / r.rate, BTC)
  }

  /** Milli-sats to cents, before rounding. */
  ghost function ToCents(r: TickerRate, msat: nat): real
    requires PricesBtc(r)
  {
    Scaled(msat, BTC, r.rate, r.quote)
  }

  lemma ConvertsTo(r: TickerRate, n: nat)
    requires PricesBtc(r)
    ensures Convert(r, Amount(r.quote, n)) == Some(Amount(BTC, RoundToU64(ToMsat(r, n))))
    ensures Convert(r, Amount(BTC, n)) == Some(Amount(r.quote, RoundToU64(ToCents(r, n))))
  {
  }

  lemma ToMsatValue(r: TickerRate, cents: nat)
    requires PricesBtc(r)
    ensures ToMsat(r, cents) * r.rate == cents as real * 1.0e9 && 0.0 <= ToMsat(r, cents)
  {
    InverseScales(cents as real, r.rate, 1.0 / r.rate, ToMsat(r, cents));
  }

  lemma InverseScales(c: real, rate: real, inv: real, x: real)
    requires 0.0 < rate && inv == 1.0 / rate && 0.0 <= c && x == c / 100.0 * inv * 1.0e11
    ensures x * rate == c * 1.0e9 && 0.0 <= x
  {
    assert inv * rate == 1.0;
    assert x == c * 1.0e9 * inv;
    assert x * rate == c * 1.0e9 * (inv * rate);
    Scales(0.0, c, inv);
  }

  lemma ToCentsValue(r: TickerRate, msat: nat)
    requires PricesBtc(r)
    ensures ToCents(r, msat) * 1.0e9 == msat as real * r.rate && 0.0 <= ToCents(r, msat)
  {
    Scales(0.0, msat as real, r.rate);
    assert ToCents(r, msat) == msat as real / 1.0e11 * r.rate * 100.0;
    assert ToCents(r, msat) * 1.0e9 == msat as real * r.rate;
  }

  /** Rounding moves a value by at most half a unit, and by exactly half only upwards. */
  lemma RoundedIsNear(x: real)
    requires 0.0 <= x < U64_MAX as real
    ensures -0.5 < RoundToU64(x) as real - x <= 0.5
  {
  }

  lemma NearestTo(y: real, n: nat)
    requires 0.0 <= y && -0.5 < y - n as real < 0.5 && n < U64_MAX
    ensures RoundToU64(y) == n
  {
  }

  /** The error of the first rounding, seen in cents, is less than half a cent. */
  lemma ErrorInCents(x: real, m: real, y: real, c: real, rate: real)
    requires 0.0 < rate < 1.0e9
    requires x * rate == c * 1.0e9 && y * 1.0e9 == m * rate && -0.5 < m - x <= 0.5
    ensures -0.5 < y - c < 0.5
  {
    var e, f := m - x, y - c;
    assert f * 1.0e9 == e * rate by { assert e * rate == m * rate - x * rate; }
    Scales(-0.5, e, rate);
    Scales(e, 0.5, rate);
  }

  /** Rounded one way and back, in numbers: cents c give x, rounded to m, which gives y. */
  lemma BackToCents(x: real, m: nat, y: real, cents: nat, rate: real)
    requires 0.0 < rate <= 1.0e9 && 0.0 <= x < U64_MAX as real && m == RoundToU64(x) && 0.0 <= y && cents < U64_MAX
    requires x * rate == cents as real * 1.0e9 && y * 1.0e9 == m as real * rate
    ensures RoundToU64(y) == cents
  {
    RoundedIsNear(x);
    if rate == 1.0e9 {
      assert x == cents as real;
      NearestTo(x, cents);
      assert y == cents as real;
    } else {
      ErrorInCents(x, m as real, y, cents as real, rate);
    }
    NearestTo(y, cents);
  }

  /** The converted amount stays below the largest 64-bit value. */
  predicate FitsInBtc(r: TickerRate, cents: nat) {
    cents < U64_MAX && cents as real * 1.0e9 < U64_MAX as real * r.rate
  }

  /** Fiat to Bitcoin and back is exact at every rate up to a billion, as long as nothing saturates. */
  lemma FiatRoundTrip(r: TickerRate, cents: nat)
    requires PricesBtc(r) && r.rate <= 1.0e9 && FitsInBtc(r, cents)
    ensures Convert(r, Convert(r, Amount(r.quote, cents)).value) == Some(Amount(r.quote, cents))
  {
    SurvivesUpToBillion(r, cents);
    SurvivingIsRoundTrip(r, cents);
  }

  lemma MsatFits(r: TickerRate, cents: nat)
    requires PricesBtc(r) && FitsInBtc(r, cents)
    ensures ToMsat(r, cents) < U64_MAX as real
  {
    ToMsatValue(r, cents);
    QuotientsCompare(ToMsat(r, cents), cents as real * 1.0e9, U64_MAX as real, U64_MAX as real * r.rate, r.rate);
  }

  lemma SurvivesUpToBillion(r: TickerRate, cents: nat)
    requires PricesBtc(r) && r.rate <= 1.0e9 && FitsInBtc(r, cents)
    ensures Survives(r, cents)
  {
    var x := ToMsat(r, cents);
    var m := RoundToU64(x);
    ToMsatValue(r, cents);
    ToCentsValue(r, m);
    MsatFits(r, cents);
    BackToCents(x, m, ToCents(r, m), cents, r.rate);
  }

  // ----- above a billion some amount is lost -----

  /** Converting to Bitcoin and back gives the amount again. */
  ghost predicate Survives(r: TickerRate, cents: nat)
    requires PricesBtc(r)
  {
    RoundToU64(ToCents(r, Msat(r, cents))) == cents
  }

  lemma SurvivingIsRoundTrip(r: TickerRate, cents: nat)
    requires PricesBtc(r)
    ensures Survives(r, cents) <==> Convert(r, Convert(r, Amount(r.quote, cents)).value) == Some(Amount(r.quote, cents))
  {
    ConvertsTo(r, cents);
    ConvertsTo(r, Msat(r, cents));
  }

  /** Milli-sats that an amount in cents is converted to. */
  ghost function Msat(r: TickerRate, cents: nat): nat
    requires PricesBtc(r)
  {
    RoundToU64(ToMsat(r, cents))
  }

  lemma RoundingGrows(x: real, y: real)
    requires x <= y
    ensures RoundToU64(x) <= RoundToU64(y)
  {
  }

  lemma ToMsatGrows(r: TickerRate, cents: nat)
    requires PricesBtc(r)
    ensures ToMsat(r, cents) < ToMsat(r, cents + 1)
  {
    ToMsatValue(r, cents);
    ToMsatValue(r, cents + 1);
    var x, y := cents as real * 1.0e9, (cents + 1) as real * 1.0e9;
    QuotientsCompare(ToMsat(r, cents), x, ToMsat(r, cents + 1), y, r.rate);
  }

  /** Surviving amounts are converted to different amounts of Bitcoin. */
  lemma MsatGrows(r: TickerRate, cents: nat)
    requires PricesBtc(r) && Survives(r, cents) && Survives(r, cents + 1)
    ensures Msat(r, cents) < Msat(r, cents + 1)
  {
    ToMsatGrows(r, cents);
    RoundingGrows(ToMsat(r, cents), ToMsat(r, cents + 1));
  }

  lemma {:induction false} MsatAtLeast(r: TickerRate, n: nat)
    requires PricesBtc(r) && forall c :: 0 <= c <= n ==> Survives(r, c)
    ensures n <= Msat(r, n)
  {
    if n > 0 {
      MsatAtLeast(r, n - 1);
      MsatGrows(r, n - 1);
    }
  }

  /** At any single-precision rate above a billion, some amount up to eight million cents does not survive. */
  lemma LossyAboveBillion(r: TickerRate)
    requires PricesBtc(r) && 1_000_000_064.0 <= r.rate
    ensures exists c :: 0 <= c <= 8_000_000
                        && Convert(r, Convert(r, Amount(r.quote, c)).value) != Some(Amount(r.quote, c))
  {
    ToMsatValue(r, 8_000_000);
    Scales(ToMsat(r, 8_000_000), 7_999_999.49, r.rate);
    assert Msat(r, 8_000_000) < 8_000_000;
    if forall c :: 0 <= c <= 8_000_000 ==> Survives(r, c) {
      MsatAtLeast(r, 8_000_000);
    } else {
      var c :| 0 <= c <= 8_000_000 && !Survives(r, c);
      SurvivingIsRoundTrip(r, c);
    }
  }

  // ----- Bitcoin first -----

  function AbsDiff(a: real, b: real): real {
    if a < b then b - a else a - b
  }

  /** Rounded one way and back, in numbers: milli-sats m give y, rounded to c, which gives x. */
  lemma ErrorInMsat(m: real, y: real, c: real, x: real, rate: real, worth: real)
    requires 0.0 < rate && y * 1.0e9 == m * rate && x * rate == c * 1.0e9 && -0.5 < c - y <= 0.5
    requires worth * rate == 5.0e8
    ensures AbsDiff(x, m) <= worth
  {
    var up, down := m + worth, m - worth;
    assert up * rate == m * rate + worth * rate;
    assert down * rate == m * rate - worth * rate;
    Scales(x, up, rate);
    Scales(down, x, rate);
  }

  /** Bitcoin to fiat and back is off by at most half a milli-sat plus the worth of half a cent. */
  lemma BtcRoundTripError(r: TickerRate, msat: nat)
    requires PricesBtc(r)
    requires msat as real * r.rate < U64_MAX as real * 1.0e9 && FitsInBtc(r, RoundToU64(ToCents(r, msat)))
    ensures Convert(r, Amount(BTC, msat)).Some? && Convert(r, Convert(r, Amount(BTC, msat)).value).Some?
    ensures var back := Convert(r, Convert(r, Amount(BTC, msat)).value).value;
            back.currency == BTC && AbsDiff(back.value as real, msat as real) <= 0.5 + 5.0e8 / r.rate
  {
    ConvertsTo(r, msat);
    ConvertsTo(r, RoundToU64(ToCents(r, msat)));
    BackToMsat(r, msat);
  }

  lemma BackToMsatCore(msat: nat, y: real, c: nat, x: real, rate: real, worth: real)
    requires 0.0 < rate && y * 1.0e9 == msat as real * rate && x * rate == c as real * 1.0e9 && worth * rate == 5.0e8
    requires 0.0 <= y && msat as real * rate < U64_MAX as real * 1.0e9 && c == RoundToU64(y)
    requires 0.0 <= x < U64_MAX as real
    ensures AbsDiff(RoundToU64(x) as real, msat as real) <= 0.5 + worth
  {
    RoundedIsNear(y);
    RoundedIsNear(x);
    ErrorInMsat(msat as real, y, c as real, x, rate, worth);
  }

  lemma BackToMsat(r: TickerRate, msat: nat)
    requires PricesBtc(r)
    requires msat as real * r.rate < U64_MAX as real * 1.0e9 && FitsInBtc(r, RoundToU64(ToCents(r, msat)))
    ensures AbsDiff(Msat(r, RoundToU64(ToCents(r, msat))) as real, msat as real) <= 0.5 + 5.0e8 / r.rate
  {
    var y := ToCents(r, msat);
    var c := RoundToU64(y);
    var x := ToMsat(r, c);
    ToCentsValue(r, msat);
    ToMsatValue(r, c);
    MsatFits(r, c);
    BackToMsatCore(msat, y, c, x, r.rate, 5.0e8 / r.rate);
  }

  // ----- between two currencies counted in cents -----

  predicate FiatPair(r: TickerRate) {
    r.base != BTC && r.quote != BTC && r.base != r.quote && 0.0 < r.rate
  }

  lemma SameScale(v: real, f: real)
    ensures v / 100.0 * f * 100.0 == v * f
  {
  }

  lemma InverseRate(v: real, rate: real, inv: real)
    requires 0.0 < rate && inv == 1.0 / rate
    ensures v * inv * rate == v && 0.0 < inv
  {
    assert inv * rate == 1.0;
    assert v * inv * rate == v * (inv * rate);
  }

  /** At a rate between two fiat currencies the base is multiplied by the rate, to the nearest cent. */
  lemma FiatToQuote(r: TickerRate, cents: nat)
    requires FiatPair(r) && cents as real * r.rate < U64_MAX as real
    ensures var c := Convert(r, Amount(r.base, cents));
            c.Some? && c.value.currency == r.quote && -0.5 < c.value.value as real - cents as real * r.rate <= 0.5
  {
    var x := cents as real * r.rate;
    SameScale(cents as real, r.rate);
    assert Scaled(cents, r.base, r.rate, r.quote) == x;
    Scales(0.0, cents as real, r.rate);
    RoundedIsNear(x);
  }

  /** And the quote divided by it. */
  lemma FiatToBase(r: TickerRate, cents: nat, x: real)
    requires FiatPair(r) && x * r.rate == cents as real && 0.0 <= x < U64_MAX as real
    ensures var c := Convert(r, Amount(r.quote, cents));
            c.Some? && c.value.currency == r.base && -0.5 < c.value.value as real - x <= 0.5
  {
    var inv := 1.0 / r.rate;
    QuotientIs(x, cents as real, r.rate, inv);
    SameScale(cents as real, inv);
    assert Scaled(cents, r.quote, inv, r.base) == x;
    RoundedIsNear(x);
  }

  lemma QuotientIs(x: real, c: real, rate: real, inv: real)
    requires 0.0 < rate && x * rate == c && inv == 1.0 / rate
    ensures c * inv == x
  {
    InverseRate(c, rate, inv);
    SameProduct(x, c * inv, rate);
  }

  lemma SameProduct(x: real, y: real, k: real)
    requires 0.0 < k && x * k == y * k
    ensures x == y
  {
  }
}
