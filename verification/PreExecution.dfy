/** The block's first part: hourly funding and oracle prices, market by market. */
module PreExecution {
  import opened Positions
  import Arith

  const MAX_PREMIUM_SAMPLES: nat := 60
  const PREMIUM_MULTIPLIER_TICK: nat := 100
  const HOURS: nat := 8
  const MAX_ORDER_PRICE: nat := 0xffff_ffff
  const MAX_NOTIONAL: nat := 0xff_ffff_ffff_ffff
  const MAX_PREFIX: nat := 0x3fff_ffff_ffff_ffff

  datatype MarketDetails = MarketDetails(
    openInterest: nat,
    premiumSum: int,
    premiumMultiplier: nat,
    interestRate: int,
    clampSmall: nat,
    clampBig: nat,
    indexPrice: nat)

  datatype RiskRow = RiskRow(active: bool, risk: RiskDetails)

  /** The average premium, scaled by the market's multiplier. */
  function AveragePremium(d: MarketDetails): int {
    Sign(d.premiumSum) * (Abs(d.premiumSum) / MAX_PREMIUM_SAMPLES * d.premiumMultiplier / PREMIUM_MULTIPLIER_TICK)
  }

  function Clamp(x: int, bound: nat): int {
    if x > bound then bound else if x < -(bound as int) then -(bound as int) else x
  }

  /** Truncation toward zero. */
  function Truncated(x: int, d: nat): int
    requires d > 0
  {
    Sign(x) * (Abs(x) / d)
  }

  /** Hourly funding a unit of size pays: the clamped eight-hour rate, an eighth of it, at the index price. */
  function FundingValue(d: MarketDetails): int {
    var premium := AveragePremium(d);
    Truncated(Clamp(premium + Clamp(d.interestRate - premium, d.clampSmall), d.clampBig), HOURS) * d.indexPrice
  }

  /** The largest mark price the open interest leaves room for. */
  function MarkCap(openInterest: nat, quoteMultiplier: nat): nat {
    if openInterest == 0 then MAX_ORDER_PRICE
    else Min(Quotient(Quotient(MAX_NOTIONAL, openInterest), quoteMultiplier), MAX_ORDER_PRICE)
  }

  /** Open interest at the mark price. */
  function Notional(openInterest: nat, m: RiskDetails): nat {
    openInterest * (m.markPrice * m.quoteMultiplier)
  }

  predicate RowAccepts(d: MarketDetails, r: RiskRow, index: nat, mark: nat, updatesPrices: bool) {
    && index <= MAX_ORDER_PRICE && mark <= MAX_ORDER_PRICE
    && Abs(r.risk.fundingPrefix + FundingValue(d)) <= MAX_PREFIX
    && (updatesPrices && r.active ==>
        && mark <= MarkCap(d.openInterest, r.risk.quoteMultiplier)
        && index != 0 && mark != 0)
  }

  function DetailsAfter(d: MarketDetails, r: RiskRow, index: nat, appliesFunding: bool,
                        updatesPrices: bool): MarketDetails {
    d.(premiumSum := if appliesFunding && r.active then 0 else d.premiumSum,
       indexPrice := if updatesPrices && r.active then index else d.indexPrice)
  }

  function RowAfter(d: MarketDetails, r: RiskRow, mark: nat, appliesFunding: bool, updatesPrices: bool): RiskRow {
    r.(risk := r.risk.(
         fundingPrefix := if appliesFunding && r.active then r.risk.fundingPrefix + FundingValue(d)
             else r.risk.fundingPrefix,
         markPrice := if updatesPrices && r.active then mark else r.risk.markPrice))
  }

  /** The loop over the markets, updating both arrays in place. */
  method UpdateMarkets(details: array<MarketDetails>, rows: array<RiskRow>, index: seq<nat>, mark: seq<nat>,
                       appliesFunding: bool, updatesPrices: bool) returns (ok: bool)
    requires details.Length == rows.Length == |index| == |mark|
    modifies details, rows
    ensures ok <==> forall i :: 0 <= i < |index| ==>
                      RowAccepts(old(details[i]), old(rows[i]), index[i], mark[i], updatesPrices)
    ensures forall i :: 0 <= i < |index| ==>
              && details[i] == DetailsAfter(old(details[i]), old(rows[i]), index[i], appliesFunding, updatesPrices)
              && rows[i] == RowAfter(old(details[i]), old(rows[i]), mark[i], appliesFunding, updatesPrices)
  {
    ok := true;
    for i := 0 to details.Length
      invariant ok <==> forall k :: 0 <= k < i ==>
                          RowAccepts(old(details[k]), old(rows[k]), index[k], mark[k], updatesPrices)
      invariant forall k :: 0 <= k < i ==>
                  && details[k] == DetailsAfter(old(details[k]), old(rows[k]), index[k], appliesFunding, updatesPrices)
                  && rows[k] == RowAfter(old(details[k]), old(rows[k]), mark[k], appliesFunding, updatesPrices)
      invariant forall k :: i <= k < details.Length ==> details[k] == old(details[k]) && rows[k] == old(rows[k])
    {
      var d, r := details[i], rows[i];
      var funded, priced := appliesFunding && r.active, updatesPrices && r.active;
      var prefix := FundStep(d, r.risk.fundingPrefix);
      ok := ok && Abs(prefix) <= MAX_PREFIX;
      if funded {
        r := r.(risk := r.risk.(fundingPrefix := prefix));
        d := d.(premiumSum := 0);
      }
      var cap := MarkCap(d.openInterest, r.risk.quoteMultiplier);
      ok := ok && index[i] <= MAX_ORDER_PRICE && mark[i] <= MAX_ORDER_PRICE;
      ok := ok && (priced ==> mark[i] <= cap && index[i] != 0 && mark[i] != 0);
      if priced {
        d := d.(indexPrice := index[i]);
        r := r.(risk := r.risk.(markPrice := mark[i]));
      }
      details[i], rows[i] := d, r;
    }
  }

  /** The funding arithmetic on magnitudes and signs. */
  method FundStep(d: MarketDetails, prefix: int) returns (after: int)
    ensures after == prefix + FundingValue(d)
  {
    var average := Abs(d.premiumSum) / MAX_PREMIUM_SAMPLES;
    average := average * d.premiumMultiplier / PREMIUM_MULTIPLIER_TICK;
    var premium := average * Sign(d.premiumSum);
    assert premium == AveragePremium(d);
    var difference := d.interestRate - premium;
    var clamped := Min(Abs(difference), d.clampSmall) * Sign(difference);
    ClampByMagnitude(difference, d.clampSmall);
    var rate := premium + clamped;
    var big := Min(Abs(rate), d.clampBig);
    var hourly := big / HOURS;
    HourlyByMagnitude(rate, d.clampBig);
    var value := hourly * d.indexPrice;
    var sign := if value == 0 then 0 else Sign(rate);
    ValueByMagnitude(hourly, Sign(rate), d.indexPrice, sign);
    after := prefix + value * sign;
  }

  lemma ValueByMagnitude(hourly: nat, rateSign: int, index: nat, sign: int)
    requires sign == if hourly * index == 0 then 0 else rateSign
    ensures hourly * index * sign == (rateSign * hourly) * index
  {
    assert (rateSign * hourly) * index == rateSign * (hourly * index);
  }

  lemma ClampByMagnitude(x: int, bound: nat)
    ensures Min(Abs(x), bound) * Sign(x) == Clamp(x, bound)
  {
  }

  lemma HourlyByMagnitude(rate: int, bound: nat)
    ensures Sign(rate) * (Min(Abs(rate), bound) / HOURS) == Truncated(Clamp(rate, bound), HOURS)
  {
  }

  /** x has the sign of y, or is zero. */
  predicate SameSign(x: int, y: int) {
    (x > 0 ==> y > 0) && (x < 0 ==> y < 0)
  }

  /** The quotient of a whole number by a unit, without its fraction. */
  predicate WholePart(q: int, x: int, unit: nat) {
    q * unit <= x < q * unit + unit
  }

  /** Of the numbers at most reach away from a middle, near is the one closest to a target. */
  predicate Nearest(near: int, middle: int, reach: nat, target: int) {
    if target > middle + reach then near == middle + reach
    else if target < middle - reach then near == middle - reach
    else near == target
  }

  lemma WholePartOf(x: nat, unit: nat)
    requires unit > 0
    ensures WholePart(x / unit, x, unit)
  {
    Arith.DivMod(x, unit);
  }

  /**
   What a funded market's prefix sum gains. The average premium is cut to whole units twice. The rate is the
   interest rate, as far as the small clamp lets it leave the premium, and at most the big clamp. An eighth
   of it, rounded toward zero, is charged at the index price.
   */
  lemma FundingRate(d: MarketDetails, r: RiskRow, mark: nat, updatesPrices: bool)
      returns (average: nat, premium: int, rate: int, capped: int, hourly: int)
    requires r.active
    ensures WholePart(average, Abs(d.premiumSum), MAX_PREMIUM_SAMPLES)
    ensures WholePart(Abs(premium), average * d.premiumMultiplier, PREMIUM_MULTIPLIER_TICK)
    ensures SameSign(premium, d.premiumSum)
    ensures Nearest(rate, premium, d.clampSmall, d.interestRate)
    ensures Nearest(capped, 0, d.clampBig, rate)
    ensures WholePart(Abs(hourly), Abs(capped), HOURS) && SameSign(hourly, capped)
    ensures RowAfter(d, r, mark, true, updatesPrices).risk.fundingPrefix == r.risk.fundingPrefix + hourly * d.indexPrice
  {
    average, premium := Abs(d.premiumSum) / MAX_PREMIUM_SAMPLES, AveragePremium(d);
    rate := premium + Clamp(d.interestRate - premium, d.clampSmall);
    capped := Clamp(rate, d.clampBig);
    hourly := Truncated(capped, HOURS);
    WholePartOf(Abs(d.premiumSum), MAX_PREMIUM_SAMPLES);
    WholePartOf(average * d.premiumMultiplier, PREMIUM_MULTIPLIER_TICK);
    WholePartOf(Abs(capped), HOURS);
    ZeroPremium(d, average, premium);
  }

  lemma ZeroPremium(d: MarketDetails, average: nat, premium: int)
    requires average == Abs(d.premiumSum) / MAX_PREMIUM_SAMPLES && premium == AveragePremium(d)
    ensures SameSign(premium, d.premiumSum)
    ensures Abs(premium) == average * d.premiumMultiplier / PREMIUM_MULTIPLIER_TICK
  {
    if d.premiumSum == 0 {
      assert average * d.premiumMultiplier == 0;
    }
  }

  /** A neutral premium charges an eighth of the interest rate, when both clamps leave it alone. */
  lemma NeutralFunding(d: MarketDetails, r: RiskRow, mark: nat, updatesPrices: bool)
    requires r.active && d.premiumSum == 0 && 0 <= d.interestRate <= Min(d.clampSmall, d.clampBig)
    ensures RowAfter(d, r, mark, true, updatesPrices).risk.fundingPrefix
            == r.risk.fundingPrefix + d.interestRate / HOURS * d.indexPrice
  {
    ZeroPremium(d, 0, AveragePremium(d));
  }

  /** What a block's first part changes in a market, and nothing else: inactive markets stay as they are. */
  lemma OnlyWhatIsAsked(d: MarketDetails, r: RiskRow, index: nat, mark: nat, appliesFunding: bool, updatesPrices: bool)
    ensures var e, t := DetailsAfter(d, r, index, appliesFunding, updatesPrices),
                        RowAfter(d, r, mark, appliesFunding, updatesPrices);
            && (!r.active || (!appliesFunding && !updatesPrices) ==> e == d && t == r)
            && (r.active && appliesFunding ==> e.premiumSum == 0)
            && (r.active && updatesPrices ==> e.indexPrice == index && t.risk.markPrice == mark)
            && (!appliesFunding ==> e.premiumSum == d.premiumSum && t.risk.fundingPrefix == r.risk.fundingPrefix)
            && (!updatesPrices ==> e.indexPrice == d.indexPrice && t.risk.markPrice == r.risk.markPrice)
            && e == d.(premiumSum := e.premiumSum, indexPrice := e.indexPrice)
            && t == r.(risk := r.risk.(fundingPrefix := t.risk.fundingPrefix, markPrice := t.risk.markPrice))
  {
  }

  /** One hour of funding never exceeds an eighth of the big clamp at the index price. */
  lemma FundingBounded(d: MarketDetails)
    ensures Abs(FundingValue(d)) <= d.clampBig / HOURS * d.indexPrice
  {
    var premium := AveragePremium(d);
    var rate := Clamp(premium + Clamp(d.interestRate - premium, d.clampSmall), d.clampBig);
    var hourly := Truncated(rate, HOURS);
    assert Abs(hourly) <= d.clampBig / HOURS;
    Arith.MulMonotone(Abs(hourly), d.clampBig / HOURS, d.indexPrice);
    assert Abs(hourly * d.indexPrice) == Abs(hourly) * d.indexPrice;
  }

  lemma QuotientExact(n: nat, d: nat, q: nat)
    requires d > 0
    ensures q <= n / d <==> q * d <= n
  {
    Arith.DivMod(n, d);
    if q <= n / d {
      Arith.MulMonotone(q, n / d, d);
    } else {
      Arith.MulMonotone(n / d + 1, q, d);
    }
  }

  /** The nested floors are exact: a mark price is within the cap just when the notional is within its maximum. */
  lemma MarkCapExact(openInterest: nat, m: RiskDetails)
    requires m.quoteMultiplier > 0
    ensures m.markPrice <= MarkCap(openInterest, m.quoteMultiplier) <==>
            m.markPrice <= MAX_ORDER_PRICE && Notional(openInterest, m) <= MAX_NOTIONAL
  {
    if openInterest > 0 {
      QuotientExact(MAX_NOTIONAL / openInterest, m.quoteMultiplier, m.markPrice);
      QuotientExact(MAX_NOTIONAL, openInterest, m.markPrice * m.quoteMultiplier);
      assert m.markPrice * m.quoteMultiplier * openInterest == openInterest * (m.markPrice * m.quoteMultiplier);
    } else {
      assert Notional(0, m) == 0;
    }
  }

  /**
   When a row is accepted: prices of 32 bits, and a prefix sum that would stay in 62 bits if it were funded;
   an update also needs prices that are not zero and a notional within its maximum.
   */
  lemma RowAcceptsExactly(d: MarketDetails, r: RiskRow, index: nat, mark: nat, updatesPrices: bool)
    requires r.risk.quoteMultiplier > 0
    ensures RowAccepts(d, r, index, mark, updatesPrices) <==>
            && index < 0x1_0000_0000 && mark < 0x1_0000_0000
            && Abs(RowAfter(d, r.(active := true), mark, true,
                            updatesPrices).risk.fundingPrefix) < 0x4000_0000_0000_0000
            && (updatesPrices && r.active ==>
                  index > 0 && mark > 0 && d.openInterest * (mark * r.risk.quoteMultiplier) <= 0xff_ffff_ffff_ffff)
  {
    MarkCapExact(d.openInterest, r.risk.(markPrice := mark));
  }
}
