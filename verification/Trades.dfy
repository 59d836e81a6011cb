/** One perps trade between two accounts: positions, realized profit, fees and isolated margin. */
module Trades {
  import Arith
  import opened Positions

  /** A position after a change of its size, the realized profit and the change of open interest. */
  datatype PositionChange = PositionChange(position: Position, realized: int, openInterest: int)

  /** What a trade does to one side: its position, its cross collateral, and the margin moved into the position. */
  datatype SideEffect = SideEffect(position: Position, crossDelta: int, marginDelta: int, openInterest: int)

  function EntryQuoteAfter(p: Position, delta: int, quote: int, base: nat): nat {
    var size := p.size + delta;
    if Sign(size) != Sign(p.size) then
      if quote > 0 then Quotient(Abs(quote), base) * Abs(size) else 0
    else if Sign(delta) == Sign(p.size) then p.entryQuote + Max(quote, 0)
    else Quotient(p.entryQuote * Abs(size), Abs(p.size))
  }

  function ChangePosition(p: Position, delta: int, m: RiskDetails, quote: int, base: nat): PositionChange {
    var after := p.(size := p.size + delta, lastFunding := m.fundingPrefix, fraction := InitialFraction(p, m),
                    entryQuote := EntryQuoteAfter(p, delta, quote, base));
    PositionChange(after,
                   SignedEntry(after) - (SignedEntry(p) + Sign(delta) * quote),
                   Abs(after.size) - Abs(p.size))
  }

  /** The value of an isolated position: its margin and its unrealized profit. */
  function MarketValue(p: Position, m: RiskDetails): int {
    p.margin + UnrealizedPnl(p, m) * USDC_TO_COLLATERAL
  }

  function UnitRequirement(p: Position, m: RiskDetails): nat {
    m.markPrice * m.quoteMultiplier * MARGIN_FRACTION_MULTIPLIER * InitialFraction(p, m)
  }

  /** The initial margin requirement of a position. */
  function Requirement(p: Position, m: RiskDetails): nat {
    Abs(p.size) * UnitRequirement(p, m)
  }

  predicate SideFlipped(before: Position, after: Position) {
    -Sign(before.size) == Sign(after.size)
  }

  /** The value a reduced position has to keep: its share of the old value, and at least the requirement. */
  function TargetValue(before: Position, after: Position, m: RiskDetails): int {
    var value := MarketValue(before, m);
    var share := CeilQuotient(Abs(value) * Abs(after.size), Abs(before.size));
    if value > 0 then Max(share, Requirement(after, m)) else Requirement(after, m)
  }

  /** Margin moved into (or, when negative, out of) an isolated position after a trade. */
  function IsolatedMarginChange(m: RiskDetails, openInterest: int, before: Position, after: Position, fee: int): int {
    if after.size == 0 then -Max(after.margin, 0)
    else if SideFlipped(before, after) then Requirement(after, m) - MarketValue(after, m)
    else if openInterest < 0 then
      -Min(Max(MarketValue(after, m) - TargetValue(before, after, m), 0), Max(after.margin, 0))
    else
      Max(Abs(openInterest) * UnitRequirement(after, m)
          - ((UnrealizedPnl(after, m) - UnrealizedPnl(before, m)) * USDC_TO_COLLATERAL - fee), 0)
  }

  predicate IsIsolated(p: Position) {
    p.marginMode == ISOLATED_MARGIN
  }

  /** The position as a trade finds it: initialised, and with its funding settled. */
  function Settled(p: Position, accountType: nat, m: RiskDetails): Position {
    var ready := InitIfEmpty(p, accountType, m.defaultMarginMode);
    ready.(lastFunding := m.fundingPrefix,
           margin := ready.margin + if IsIsolated(ready) then FundingDelta(ready, m) else 0)
  }

  /** One side of a trade, in closed form. */
  function TradeSide(p: Position, accountType: nat, m: RiskDetails, delta: int, quote: int, base: nat,
                     fee: int): SideEffect {
    var settled := Settled(p, accountType, m);
    var change := ChangePosition(settled, delta, m, quote, base);
    var gain := change.realized * USDC_TO_COLLATERAL - fee;
    if !IsIsolated(settled) then
      SideEffect(change.position, FundingDelta(p, m) + gain, 0, change.openInterest)
    else
      var after := change.position.(margin := settled.margin + gain);
      var moved := IsolatedMarginChange(m, change.openInterest, settled, after, fee);
      SideEffect(after.(margin := after.margin + moved), -moved, moved, change.openInterest)
  }

  datatype TradeInput = TradeInput(
    takerAsk: bool,
    base: nat,
    quote: int,
    taker: Position,
    maker: Position,
    takerType: nat,
    makerType: nat,
    takerFee: int,
    makerFee: int)

  datatype TradeEffect = TradeEffect(taker: SideEffect, maker: SideEffect, fee: int)

  function TakerDelta(t: TradeInput): int {
    if t.takerAsk then -(t.base as int) else t.base
  }

  function FeeOf(t: TradeInput, rate: int): int {
    t.quote * rate
  }

  /** The whole trade: both sides with opposite size changes, and the fees they pay. */
  function PerpsTrade(t: TradeInput, m: RiskDetails): TradeEffect {
    TradeEffect(TradeSide(t.taker, t.takerType, m, TakerDelta(t), t.quote, t.base, FeeOf(t, t.takerFee)),
                TradeSide(t.maker, t.makerType, m, -TakerDelta(t), t.quote, t.base, FeeOf(t, t.makerFee)),
                FeeOf(t, t.takerFee) + FeeOf(t, t.makerFee))
  }

  /** The steps of one side: funding, size change, profit, fee, and margin for an isolated position. */
  method ApplySide(p: Position, accountType: nat, m: RiskDetails, delta: int, quote: int, base: nat, fee: int)
      returns (effect: SideEffect)
    ensures effect == TradeSide(p, accountType, m, delta, quote, base, fee)
  {
    var before := InitIfEmpty(p, accountType, m.defaultMarginMode);
    var isolated := IsIsolated(before);
    var funding := FundingDelta(before, m);
    var cross := if isolated then 0 else funding;
    if isolated {
      before := before.(margin := before.margin + funding);
    }
    before := before.(lastFunding := m.fundingPrefix);
    var change := ChangePosition(before, delta, m, quote, base);
    var after := change.position;
    var gain := change.realized * USDC_TO_COLLATERAL;
    gain := gain - fee;
    var moved := 0;
    if isolated {
      after := after.(margin := after.margin + gain);
      moved := IsolatedMarginChange(m, change.openInterest, before, after, fee);
      after := after.(margin := after.margin + moved);
    }
    cross := cross + if isolated then -moved else gain;
    effect := SideEffect(after, cross, moved, change.openInterest);
  }

  /** Both sides of the trade; accepted when the total fee is not negative. */
  method ApplyPerpsTrade(t: TradeInput, m: RiskDetails) returns (ok: bool, effect: TradeEffect)
    ensures ok <==> PerpsTrade(t, m).fee >= 0
    ensures effect == PerpsTrade(t, m)
  {
    var delta := if t.takerAsk then -(t.base as int) else t.base;
    var quoteForFees := if t.takerFee != 0 || t.makerFee != 0 then t.quote else 0;
    var takerFee, makerFee := quoteForFees * t.takerFee, quoteForFees * t.makerFee;
    assert takerFee == FeeOf(t, t.takerFee) && makerFee == FeeOf(t, t.makerFee);
    var taker := ApplySide(t.taker, t.takerType, m, delta, t.quote, t.base, takerFee);
    var maker := ApplySide(t.maker, t.makerType, m, -delta, t.quote, t.base, makerFee);
    ok := takerFee + makerFee >= 0;
    effect := TradeEffect(taker, maker, takerFee + makerFee);
  }

  // ---------- one side ----------

  /** Cross collateral and margin together change by funding, realized profit and fee. */
  lemma SideKeepsCollateral(p: Position, accountType: nat, m: RiskDetails, delta: int, quote: int, base: nat, fee: int)
    ensures var s := TradeSide(p, accountType, m, delta, quote, base, fee);
            && s.position.size == p.size + delta
            && s.openInterest == Abs(s.position.size) - Abs(p.size)
            && s.position.lastFunding == m.fundingPrefix
            && s.crossDelta + s.position.margin - p.margin
               == FundingDelta(p, m) - fee
                  + (SignedEntry(s.position) - SignedEntry(p) - Sign(delta) * quote) * USDC_TO_COLLATERAL
  {
  }

  /** What a side has after a trade in collateral and in the margin of its position. */
  function Collateral(e: SideEffect): int {
    e.crossDelta + e.position.margin
  }

  lemma FeeOnSide(p: Position, accountType: nat, m: RiskDetails, delta: int, quote: int, base: nat, fee: int)
    ensures var e, free := TradeSide(p, accountType, m, delta, quote, base, fee),
                           TradeSide(p, accountType, m, delta, quote, base, 0);
            && Collateral(e) == Collateral(free) - fee
            && e.position == free.position.(margin := e.position.margin) && e.openInterest == free.openInterest
  {
  }

  lemma NoFee(t: TradeInput)
    ensures FeeOf(t, 0) == 0
  {
  }

  /**
   Each side pays the trade's quote at its own rate, and that is all a fee changes but for how much of the
   collateral is margin.
   */
  lemma FeesPaid(t: TradeInput, m: RiskDetails)
    ensures var e, free := PerpsTrade(t, m), PerpsTrade(t.(takerFee := 0, makerFee := 0), m);
            && Collateral(e.taker) == Collateral(free.taker) - t.quote * t.takerFee
            && Collateral(e.maker) == Collateral(free.maker) - t.quote * t.makerFee
            && e.fee == t.quote * t.takerFee + t.quote * t.makerFee && free.fee == 0
            && e.taker.position == free.taker.position.(margin := e.taker.position.margin)
            && e.maker.position == free.maker.position.(margin := e.maker.position.margin)
  {
    var free := t.(takerFee := 0, makerFee := 0);
    NoFee(free);
    assert TakerDelta(free) == TakerDelta(t);
    FeeOnSide(t.taker, t.takerType, m, TakerDelta(t), t.quote, t.base, FeeOf(t, t.takerFee));
    FeeOnSide(t.maker, t.makerType, m, -TakerDelta(t), t.quote, t.base, FeeOf(t, t.makerFee));
  }

  /**
   Funding settles before the trade: for every step the prefix sum has risen a long pays its size times the
   multiplier, and a short is paid, beside what the trade does without a rise.
   */
  lemma FundingPaid(p: Position, accountType: nat, m: RiskDetails, delta: int, quote: int, base: nat, fee: int)
    ensures var settled := p.(lastFunding := m.fundingPrefix);
            var e, same := TradeSide(p, accountType, m, delta, quote, base, fee),
                           TradeSide(settled, accountType, m, delta, quote, base, fee);
            && Collateral(e) == Collateral(same) - p.size * m.quoteMultiplier * (m.fundingPrefix - p.lastFunding)
            && e.position.lastFunding == m.fundingPrefix
  {
    var settled := p.(lastFunding := m.fundingPrefix);
    SideKeepsCollateral(p, accountType, m, delta, quote, base, fee);
    SideKeepsCollateral(settled, accountType, m, delta, quote, base, fee);
    SettledFunding(p.size * m.quoteMultiplier, p.lastFunding, m.fundingPrefix);
    SameEntry(p, settled, accountType, m, delta, quote, base, fee);
  }

  lemma SettledFunding(weight: int, last: int, prefix: int)
    ensures weight * (last - prefix) == 0 - weight * (prefix - last) && weight * (prefix - prefix) == 0
  {
  }

  lemma SameEntry(p: Position, q: Position, accountType: nat, m: RiskDetails, delta: int, quote: int, base: nat,
                  fee: int)
    requires q == p.(lastFunding := q.lastFunding)
    ensures SignedEntry(TradeSide(p, accountType, m, delta, quote, base, fee).position)
            == SignedEntry(TradeSide(q, accountType, m, delta, quote, base, fee).position)
  {
  }

  /**
   The first use of a position fixes its margin mode: the market's for ordinary accounts, cross for pools and
   the insurance fund. Later uses keep it. A trade raises the initial fraction to the market's minimum, starting
   from the market's default when the position has none of its own.
   */
  lemma ModeAndFraction(p: Position, accountType: nat, m: RiskDetails, delta: int, quote: int, base: nat, fee: int)
    ensures var q := TradeSide(p, accountType, m, delta, quote, base, fee).position;
            && (p != Position(0, 0, 0, 0, 0, 0, 0, 0, 0) ==> q.marginMode == p.marginMode && q.marginSet == p.marginSet)
            && (p == Position(0, 0, 0, 0, 0, 0, 0, 0, 0) ==>
                  && q.marginSet == MARGIN_SET
                  && q.marginMode == if accountType == PUBLIC_POOL || accountType == INSURANCE_FUND then CROSS_MARGIN
                                     else m.defaultMarginMode)
            && q.fraction == Max(m.minFraction, if p.fraction != 0 then p.fraction else m.defaultFraction)
            && q.orders == p.orders && q.tiedOrders == p.tiedOrders
  {
  }

  /** The requirement is the initial fraction, in ticks, of the notional at the mark price, in collateral units. */
  lemma RequirementIsFraction(p: Position, m: RiskDetails)
    ensures Requirement(p, m) * MARGIN_TICK
            == Abs(p.size) * (m.markPrice * m.quoteMultiplier)
               * Max(m.minFraction, if p.fraction != 0 then p.fraction else m.defaultFraction) * USDC_TO_COLLATERAL
  {
    var size, notional, fraction := Abs(p.size), m.markPrice * m.quoteMultiplier, InitialFraction(p, m);
    assert UnitRequirement(p, m) == notional * MARGIN_FRACTION_MULTIPLIER * fraction;
    UnitsOfRequirement(size, notional, fraction);
  }

  lemma FactorOut(a: int, factor: int, b: int)
    ensures a * factor * b == factor * (a * b) && a * (factor * b) == factor * (a * b)
  {
  }

  lemma UnitsOfRequirement(size: nat, notional: nat, fraction: nat)
    ensures size * (notional * MARGIN_FRACTION_MULTIPLIER * fraction) * MARGIN_TICK
            == size * notional * fraction * USDC_TO_COLLATERAL
  {
    FactorOut(notional, MARGIN_FRACTION_MULTIPLIER, fraction);
    FactorOut(size, MARGIN_FRACTION_MULTIPLIER, notional * fraction);
    Arith.MulAssociates(size, notional, fraction);
    InTicks(size * (notional * fraction));
  }

  lemma InTicks(x: int)
    ensures MARGIN_FRACTION_MULTIPLIER * x * MARGIN_TICK == x * USDC_TO_COLLATERAL
  {
  }

  lemma CeilQuotientBounds(a: nat, b: nat)
    requires b > 0
    ensures CeilQuotient(a, b) * b >= a > CeilQuotient(a, b) * b - b && (a > 0 ==> CeilQuotient(a, b) > 0)
  {
    var q := (a + b - 1) / b;
    assert a + b - 1 == b * q + (a + b - 1) % b;
  }

  /**
   Margin leaves an open isolated position only down to the initial requirement, and a reduction
   also leaves it at least its share of the old value; a side flip leaves exactly the requirement.
   */
  lemma WithdrawalKeepsRequirement(m: RiskDetails, before: Position, after: Position, fee: int)
    requires after.size != 0
    ensures var openInterest := Abs(after.size) - Abs(before.size);
            var margin := IsolatedMarginChange(m, openInterest, before, after, fee);
            var left := MarketValue(after.(margin := after.margin + margin), m);
            && left == MarketValue(after, m) + margin
            && (margin < 0 ==> left >= Requirement(after, m))
            && (SideFlipped(before, after) ==> left == Requirement(after, m))
            && (!SideFlipped(before, after) && openInterest < 0 ==>
                && -Max(after.margin, 0) <= margin <= 0
                && (margin < 0 && before.size != 0
                    ==> left * Abs(before.size) >= MarketValue(before, m) * Abs(after.size)))
            && (!SideFlipped(before, after) && openInterest >= 0 ==> margin >= 0)
  {
    var openInterest := Abs(after.size) - Abs(before.size);
    var margin := IsolatedMarginChange(m, openInterest, before, after, fee);
    var left := MarketValue(after, m) + margin;
    if !SideFlipped(before, after) && openInterest < 0 && margin < 0 && before.size != 0 {
      assert left >= TargetValue(before, after, m);
      ShareKept(m, before, after, left);
    }
  }

  lemma ShareKept(m: RiskDetails, before: Position, after: Position, left: int)
    requires before.size != 0 && left >= TargetValue(before, after, m)
    ensures left * Abs(before.size) >= MarketValue(before, m) * Abs(after.size)
  {
    var value, d := MarketValue(before, m), Abs(before.size);
    if value > 0 {
      var share := CeilQuotient(value * Abs(after.size), d);
      CeilQuotientBounds(value * Abs(after.size), d);
      Arith.MulMonotone(share, left, d);
    } else {
      Arith.MulMonotone(0, left, d);
      Arith.MulMonotone(value, 0, Abs(after.size));
    }
  }

  /** Less than the target is less than the requirement, or less than the share of a positive old value. */
  lemma BelowTarget(m: RiskDetails, before: Position, after: Position, left: int)
    requires before.size != 0 && left < TargetValue(before, after, m)
    ensures left < Requirement(after, m)
            || (MarketValue(before, m) > 0 && left * Abs(before.size) < MarketValue(before, m) * Abs(after.size))
  {
    var value, d := MarketValue(before, m), Abs(before.size);
    if value > 0 && left >= Requirement(after, m) {
      var share := CeilQuotient(value * Abs(after.size), d);
      CeilQuotientBounds(value * Abs(after.size), d);
      Arith.MulMonotone(left, share - 1, d);
      assert (share - 1) * d == share * d - d;
    }
  }

  /** A reduction hands back as much as it may: any larger part of the margin would leave too little. */
  lemma WithdrawalIsLargest(m: RiskDetails, before: Position, after: Position, fee: int, more: int)
    requires before.size != 0 && after.size != 0 && !SideFlipped(before, after) && Abs(after.size) < Abs(before.size)
    requires -IsolatedMarginChange(m, Abs(after.size) - Abs(before.size), before, after, fee) < more <= after.margin
    ensures var left := MarketValue(after, m) - more;
            || left < Requirement(after, m)
            || (MarketValue(before, m) > 0 && left * Abs(before.size) < MarketValue(before, m) * Abs(after.size))
  {
    BelowTarget(m, before, after, MarketValue(after, m) - more);
  }

  /**
   A whole trade of an isolated position: when it takes margin out of a position that stays open, what
   is left covers the initial requirement, and a position that turned around is left with exactly that.
   */
  lemma IsolatedTradeSafe(p: Position, accountType: nat, m: RiskDetails, delta: int, quote: int, base: nat, fee: int)
    requires IsIsolated(Settled(p, accountType, m))
    ensures var s := TradeSide(p, accountType, m, delta, quote, base, fee);
            s.position.size != 0 ==>
              && (s.marginDelta < 0 ==> MarketValue(s.position, m) >= Requirement(s.position, m))
              && (SideFlipped(p, s.position) ==> MarketValue(s.position, m) == Requirement(s.position, m))
              && s.crossDelta == -s.marginDelta
  {
    var settled := Settled(p, accountType, m);
    var change := ChangePosition(settled, delta, m, quote, base);
    var after := change.position.(margin := settled.margin + (change.realized * USDC_TO_COLLATERAL - fee));
    if after.size != 0 {
      WithdrawalKeepsRequirement(m, settled, after, fee);
    }
  }

  /**
   Opening an isolated position or adding to one raises its value, beside the profit realized, by at
   least the initial requirement of the added size, and by exactly that whenever margin is moved in. Adding
   realizes nothing but a negative quote, and opening what the entry price loses by rounding.
   */
  lemma IncreaseAddsRequirement(p: Position, accountType: nat, m: RiskDetails, delta: int, quote: int, base: nat,
                                fee: int)
    requires IsIsolated(Settled(p, accountType, m))
    requires delta != 0 && (p.size == 0 || Sign(delta) == Sign(p.size))
    ensures var s := TradeSide(p, accountType, m, delta, quote, base, fee);
            var realized := SignedEntry(s.position) - SignedEntry(p) - Sign(delta) * quote;
            var gained := MarketValue(s.position, m) - MarketValue(Settled(p, accountType, m), m)
                          - realized * USDC_TO_COLLATERAL;
            && s.marginDelta >= 0
            && gained >= Abs(delta) * UnitRequirement(s.position, m)
            && (s.marginDelta > 0 ==> gained == Abs(delta) * UnitRequirement(s.position, m))
            && (p.size != 0 ==> realized == Sign(delta) * Max(-quote, 0))
            && (p.size == 0 && base == Abs(delta) && quote > 0 ==> 0 - base < Sign(delta) * realized <= 0)
  {
    var settled := Settled(p, accountType, m);
    var change := ChangePosition(settled, delta, m, quote, base);
    assert change.openInterest == Abs(delta);
    if p.size != 0 {
      assert SignedEntry(change.position) - SignedEntry(p) == Sign(delta) * Max(quote, 0);
      assert Sign(delta) * Max(quote, 0) - Sign(delta) * quote == Sign(delta) * Max(-quote, 0);
    } else if base == Abs(delta) && quote > 0 {
      FloorBounds(quote, base);
      assert SignedEntry(change.position) == Sign(delta) * (Quotient(quote, base) * base);
      assert Sign(delta) * (Sign(delta) * (Quotient(quote, base) * base) - Sign(delta) * quote)
             == Quotient(quote, base) * base - quote;
    }
  }

  lemma FloorBounds(a: nat, b: nat)
    requires b > 0
    ensures Quotient(a, b) * b <= a < Quotient(a, b) * b + b
  {
    Arith.DivMod(a, b);
  }

  /**
   The entry quote follows the size: reducing keeps the average entry price up to one rounding,
   turning around starts at the trade's price rounded down, and closing leaves none.
   */
  lemma EntryFollowsSize(p: Position, delta: int, quote: int, base: nat)
    ensures var size, entry := p.size + delta, EntryQuoteAfter(p, delta, quote, base);
            && (p.size != 0 && size == 0 ==> entry == 0)
            && (p.size != 0 && Sign(size) == Sign(p.size) && Sign(delta) != Sign(p.size) ==>
                  entry * Abs(p.size) <= p.entryQuote * Abs(size) < entry * Abs(p.size) + Abs(p.size))
            && (size != 0 && Sign(size) != Sign(p.size) && quote > 0 && base > 0 ==>
                  exists price: nat :: entry == price * Abs(size) && price * base <= quote < price * base + base)
            && (p.size != 0 && Sign(delta) == Sign(p.size) ==> entry == p.entryQuote + Max(quote, 0))
            && (Sign(size) != Sign(p.size) && quote <= 0 ==> entry == 0)
  {
    var size := p.size + delta;
    if p.size != 0 && Sign(size) == Sign(p.size) && Sign(delta) != Sign(p.size) {
      FloorBounds(p.entryQuote * Abs(size), Abs(p.size));
    }
    if size != 0 && Sign(size) != Sign(p.size) && quote > 0 && base > 0 {
      FloorBounds(quote, base);
      var price := Quotient(quote, base);
      assert EntryQuoteAfter(p, delta, quote, base) == price * Abs(size);
    }
  }

  /** A closed isolated position hands back its margin when that is not negative, and nothing otherwise. */
  lemma ClosingReturnsMargin(m: RiskDetails, before: Position, after: Position, fee: int)
    requires after.size == 0
    ensures var margin := IsolatedMarginChange(m, 0 - Abs(before.size), before, after, fee);
            after.margin + margin == Min(after.margin, 0) && margin <= 0
  {
  }
}
