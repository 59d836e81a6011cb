/** The quote at which closing part of a position leaves an account's health unchanged. */
module ZeroQuote {
  import opened Positions
  import opened Trades
  import opened Exchange
  import Arith

  /** What liquidation looks at: the account's value against its maintenance requirement. */
  datatype Risk = Risk(threshold: int, maintenance: nat)

  /** The ratio of threshold value to maintenance requirement does not fall, cross-multiplied. */
  predicate HealthKept(before: Risk, after: Risk) {
    before.threshold * after.maintenance <= after.threshold * before.maintenance
  }

  /** Closing some notional of a long (or short) position for a quote, with a maintenance fraction. */
  function Closed(r: Risk, isLong: bool, notional: nat, fraction: nat, quote: int): Risk
    requires notional * fraction * MARGIN_FRACTION_MULTIPLIER <= r.maintenance
  {
    Risk(r.threshold + (if isLong then quote - notional else notional - quote) * USDC_TO_COLLATERAL,
         r.maintenance - notional * fraction * MARGIN_FRACTION_MULTIPLIER)
  }

  function Dividend(r: Risk, isLong: bool, notional: nat, fraction: nat): int {
    notional * (r.maintenance * MARGIN_TICK) - (if isLong then 1 else -1) * (notional * fraction * r.threshold)
  }

  function Divisor(r: Risk): nat {
    r.maintenance * MARGIN_TICK
  }

  /** The ceiling of a quotient, from the floor and the remainder. */
  function CeilDiv(a: nat, b: nat): nat {
    if b == 0 then 0 else if a % b == 0 then a / b else a / b + 1
  }

  /** Magnitude first, then its sign: rounded up or down by the signs of dividend and position. */
  function SignedQuotient(dividend: int, divisor: nat, isLong: bool): int {
    var ceil := (dividend > 0) == isLong;
    var magnitude := if ceil then CeilDiv(Abs(dividend), divisor) else Quotient(Abs(dividend), divisor);
    if magnitude == 0 then 0 else Sign(dividend) * magnitude
  }

  function ZeroQuoteOf(r: Risk, isLong: bool, notional: nat, fraction: nat): int {
    SignedQuotient(Dividend(r, isLong, notional, fraction), Divisor(r), isLong)
  }

  lemma DivBounds(a: nat, b: nat)
    requires b > 0
    ensures Quotient(a, b) * b <= a < (Quotient(a, b) + 1) * b
    ensures CeilDiv(a, b) * b >= a > (CeilDiv(a, b) - 1) * b
  {
    Arith.DivMod(a, b);
  }

  /** For every sign of the dividend this is the true ceiling for a long and the true floor for a short. */
  lemma TrueCeilingOrFloor(dividend: int, divisor: nat, isLong: bool)
    requires divisor > 0
    ensures var q := SignedQuotient(dividend, divisor, isLong);
            if isLong then (q - 1) * divisor < dividend <= q * divisor
            else q * divisor <= dividend < (q + 1) * divisor
  {
    DivBounds(Abs(dividend), divisor);
    var ceil, floor, q := CeilDiv(Abs(dividend), divisor), Quotient(Abs(dividend), divisor),
        SignedQuotient(dividend, divisor, isLong);
    assert q == if dividend > 0 then (if isLong then ceil else floor) else if isLong then 0 - floor else 0 - ceil;
    assert (0 - floor) * divisor == 0 - floor * divisor;
    assert (0 - ceil) * divisor == 0 - ceil * divisor;
    assert (0 - floor - 1) * divisor == 0 - (floor + 1) * divisor;
    assert (0 - ceil + 1) * divisor == 0 - (ceil - 1) * divisor;
  }

  /** A quote is at least the ceiling just when its product is at least the dividend, and dually. */
  lemma QuotientDecides(dividend: int, divisor: nat, isLong: bool, quote: int)
    requires divisor > 0
    ensures var q := SignedQuotient(dividend, divisor, isLong);
            if isLong then quote >= q <==> quote * divisor >= dividend
            else quote <= q <==> quote * divisor <= dividend
  {
    var q := SignedQuotient(dividend, divisor, isLong);
    TrueCeilingOrFloor(dividend, divisor, isLong);
    if quote >= q {
      Arith.MulMonotone(q, quote, divisor);
    } else {
      Arith.MulMonotone(quote, q - 1, divisor);
    }
    if quote > q {
      Arith.MulMonotone(q + 1, quote, divisor);
    } else {
      Arith.MulMonotone(quote, q, divisor);
    }
  }

  /** Health after closing, spelled out as a bound on the quote. */
  lemma HealthBound(r: Risk, isLong: bool, notional: nat, fraction: nat, quote: int)
    requires notional * fraction * MARGIN_FRACTION_MULTIPLIER <= r.maintenance
    ensures HealthKept(r, Closed(r, isLong, notional, fraction, quote)) <==>
            if isLong then quote * Divisor(r) >= Dividend(r, isLong, notional, fraction)
            else quote * Divisor(r) <= Dividend(r, isLong, notional, fraction)
  {
    var weight, t, m := notional * fraction, r.threshold, r.maintenance;
    var gain := if isLong then quote - notional else notional - quote;
    assert HealthKept(r, Closed(r, isLong, notional, fraction, quote))
           <==> t * m - (weight * t) * MARGIN_FRACTION_MULTIPLIER <= t * m + (gain * m) * USDC_TO_COLLATERAL by {
      LessWeight(t, m, weight);
      MoreValue(t, m, gain);
    }
    assert gain * m == if isLong then quote * m - notional * m else notional * m - quote * m by {
      Difference(quote, notional, m);
    }
    assert quote * Divisor(r) == (quote * m) * MARGIN_TICK by {
      Factor(quote, m);
    }
    assert Dividend(r, isLong, notional, fraction) == (notional * m) * MARGIN_TICK
           - (if isLong then 1 else -1) * (weight * t) by {
      Factor(notional, m);
    }
    LinearHealth(isLong, t * m, weight * t, gain * m, quote * m, notional * m);
  }

  lemma LinearHealth(isLong: bool, value: int, load: int, gain: int, paid: int, notional: int)
    requires gain == if isLong then paid - notional else notional - paid
    ensures value - load * MARGIN_FRACTION_MULTIPLIER <= value + gain * USDC_TO_COLLATERAL <==>
            if isLong then paid * MARGIN_TICK >= notional * MARGIN_TICK - load
            else paid * MARGIN_TICK <= notional * MARGIN_TICK + load
  {
  }

  lemma Difference(a: int, b: int, m: int)
    ensures (a - b) * m == a * m - b * m && (b - a) * m == b * m - a * m
  {
  }

  lemma LessWeight(t: int, m: int, weight: int)
    ensures t * (m - weight * MARGIN_FRACTION_MULTIPLIER) == t * m - (weight * t) * MARGIN_FRACTION_MULTIPLIER
  {
  }

  lemma MoreValue(t: int, m: int, gain: int)
    ensures (t + gain * USDC_TO_COLLATERAL) * m == t * m + (gain * m) * USDC_TO_COLLATERAL
  {
  }

  lemma Factor(x: int, m: int)
    ensures x * (m * MARGIN_TICK) == (x * m) * MARGIN_TICK
  {
  }

  /**
   The zero quote is tightest: a long may be closed for it and for nothing less, a short for it and
   for nothing more, without lowering the account's health.
   */
  lemma ZeroQuoteTightest(r: Risk, isLong: bool, notional: nat, fraction: nat, quote: int)
    requires r.maintenance > 0 && notional * fraction * MARGIN_FRACTION_MULTIPLIER <= r.maintenance
    ensures HealthKept(r, Closed(r, isLong, notional, fraction, quote)) <==>
            if isLong then quote >= ZeroQuoteOf(r, isLong, notional, fraction)
            else quote <= ZeroQuoteOf(r, isLong, notional, fraction)
  {
    HealthBound(r, isLong, notional, fraction, quote);
    QuotientDecides(Dividend(r, isLong, notional, fraction), Divisor(r), isLong, quote);
  }

  /** Without a maintenance requirement the result is zero. */
  lemma NoRequirementNoQuote(r: Risk, isLong: bool, notional: nat, fraction: nat)
    requires r.maintenance == 0
    ensures ZeroQuoteOf(r, isLong, notional, fraction) == 0
  {
  }

  /**
   A perps trade that closes part of a position without a fee changes the account's value as the zero quote
   has it.
   */
  lemma TradeCloses(a: Account, m: RiskDetails, base: nat, quote: int)
    requires 0 < base <= Abs(a.position.size)
    ensures var isLong := a.position.size > 0;
            var e := TradeSide(a.position, a.accountType, m, if isLong then -(base as int) else base, quote, base, 0);
            Equity(ApplySideEffect(a, e), m)
            == Equity(a, m) + (if isLong then quote - MarkValue(m) * base
                               else MarkValue(m) * base - quote) * USDC_TO_COLLATERAL
  {
    var isLong := a.position.size > 0;
    var delta := if isLong then -(base as int) else base;
    TradeSidePays(a, m, delta, quote, base, 0);
    SideEquity(a, m, TradeSide(a.position, a.accountType, m, delta, quote, base, 0), delta, quote, 0);
    WorthOfClosing(m, isLong, base, quote);
  }

  lemma WorthOfClosing(m: RiskDetails, isLong: bool, base: nat, quote: int)
    requires base > 0
    ensures Worth(m, if isLong then -(base as int) else base, quote)
            == (if isLong then quote - MarkValue(m) * base else MarkValue(m) * base - quote) * USDC_TO_COLLATERAL
  {
    assert MarkValue(m) * -(base as int) == 0 - MarkValue(m) * base;
  }
}
