/**
 What one execution decides, said of the fields of the two orders, their accounts and the market. None of it
 goes through the rule list: which maker may be traded with, who is cancelled otherwise, and for how much.
 */
module MatchingOutcomes {
  import opened Positions
  import Trades
  import opened PreExecution
  import opened Orders
  import opened MatchingRules
  import MatchingTheorems

  // ---------- vocabulary ----------

  /** An order of this side can reduce the position. */
  predicate Reducible(size: int, isAsk: bool) {
    if isAsk then size > 0 else size < 0
  }

  /** Nothing is decided: neither order changes. */
  const NOTHING := Decision(false, false, 0, false, false, false)

  function Cancels(taker: bool, maker: bool): Decision {
    Decision(false, false, 0, taker, maker, false)
  }

  /** The open interest is within its notional maximum, so cancellations of the taker are not taken back. */
  predicate NotionalKept(s: State, e: Env) {
    s.openInterest * (e.risk.markPrice * e.risk.quoteMultiplier) <= MAX_NOTIONAL
  }

  /** The taker is matched, and is no reduce-only order without a position to reduce. */
  predicate Matches(s: State, e: Env)
    requires Valid(s)
  {
    var r := s.registers[0];
    && s.matching && r.triggerStatus == TRIGGER_NA
    && (e.perps && r.reduceOnly ==> Reducible(s.takerPosition.size, r.isAsk))
  }

  predicate NothingAtLeaf(s: State) {
    s.leaf.askBase == 0 && s.leaf.askQuote == 0 && s.leaf.bidBase == 0 && s.leaf.bidQuote == 0
  }

  /** It reaches the order at its leaf. */
  predicate Meets(s: State, e: Env)
    requires Valid(s)
  {
    && Matches(s, e) && !NothingAtLeaf(s)
    && (s.registers[0].timeInForce == IOC ==> e.oppositeTotal != 0)
  }

  /** The taker's flags, which share a field with an integrator's fee: the low bits are the self-trade mode. */
  function Flags(s: State): nat
    requires Valid(s)
  {
    if s.registers[0].collector == NO_COLLECTOR then s.registers[0].takerFeeOrFlags else 0
  }

  predicate MasterWide(s: State)
    requires Valid(s)
  {
    Flags(s) / 4 % 2 == 1
  }

  predicate OwnOrder(s: State)
    requires Valid(s)
  {
    s.order.owner == s.registers[0].account
  }

  predicate Expired(s: State, e: Env) {
    s.order.expiry <= e.timestamp
  }

  /** The maker's dead-man's switch was set and its time has come. */
  predicate SwitchPassed(s: State, e: Env) {
    0 < s.maker.cancelAllTime <= e.timestamp
  }

  /** Self-trade prevention of one account: always with an integrator's fee, else unless it is master-wide. */
  predicate SelfTrade(s: State)
    requires Valid(s)
  {
    OwnOrder(s) && (s.registers[0].collector != NO_COLLECTOR || !MasterWide(s))
  }

  /** Self-trade prevention of one master account. */
  predicate MasterTrade(s: State)
    requires Valid(s)
  {
    MasterWide(s) && s.maker.master == s.taker.master && Flags(s) % 4 != 3
  }

  /** Nothing about the maker order itself or its owner stops a trade. */
  predicate MakerFree(s: State, e: Env)
    requires Valid(s)
  {
    !Expired(s, e) && !SwitchPassed(s, e) && !SelfTrade(s) && !MasterTrade(s)
  }

  // ---------- before a maker is met ----------

  /** Takers that are not matched, wait for a trigger, cannot reduce, or find nothing. */
  lemma Unmatched(s: State, e: Env, judge: Judge)
    requires Valid(s)
    ensures var r, d := s.registers[0], Decide(s, e, judge);
            && (!s.matching ==> d == NOTHING)
            && (s.matching && r.triggerStatus != TRIGGER_NA ==> d == NOTHING.(insertTaker := true))
            && (s.matching && r.triggerStatus == TRIGGER_NA && !Matches(s, e)
                ==> d == Cancels(NotionalKept(s, e), false))
            && (Matches(s, e) && r.timeInForce == IOC && (e.oppositeTotal == 0 || NothingAtLeaf(s)) ==>
                  d == Cancels(NotionalKept(s, e), false))
            && (Matches(s, e) && r.timeInForce != IOC && NothingAtLeaf(s) ==> d == NOTHING.(insertTaker := true))
  {
  }

  // ---------- makers that are not traded with ----------

  /** An expired maker is removed without a fill, whoever owns it, and the taker stays. */
  lemma ExpiredMaker(s: State, e: Env, judge: Judge)
    requires Valid(s) && Meets(s, e) && Expired(s, e)
    ensures Decide(s, e, judge) == Cancels(false, true)
  {
  }

  /** So is the order of another account whose dead-man's switch has passed. */
  lemma SwitchedMaker(s: State, e: Env, judge: Judge)
    requires Valid(s) && Meets(s, e) && !SelfTrade(s) && SwitchPassed(s, e)
    ensures Decide(s, e, judge) == Cancels(false, true)
  {
  }

  /** The self-trade modes of one account: the maker, the taker, both, or the smaller size of both. */
  lemma SelfTradeModes(s: State, e: Env, judge: Judge)
    requires Valid(s) && Meets(s, e) && SelfTrade(s) && !Expired(s, e)
    ensures var r, d, kept := s.registers[0], Decide(s, e, judge), NotionalKept(s, e);
            var reduces := r.collector != NO_COLLECTOR || Flags(s) % 4 == 3;
            && (r.collector == NO_COLLECTOR && Flags(s) % 4 == 0 ==> d == Cancels(false, true))
            && (r.collector == NO_COLLECTOR && Flags(s) % 4 == 1 ==> d == Cancels(kept, false))
            && (r.collector == NO_COLLECTOR && Flags(s) % 4 == 2 ==> d == Cancels(kept, true))
            && (reduces && r.timeInForce == POST_ONLY ==> d == Cancels(kept, false))
            && (reduces && r.timeInForce != POST_ONLY ==> Reduces(s, d, kept))
  {
  }

  /** Both sizes fall by the smaller one, and whatever is empty is cancelled. */
  predicate Reduces(s: State, d: Decision, kept: bool)
    requires Valid(s)
  {
    var size, remaining := s.registers[0].size, s.order.remaining;
    && d.reduces && !d.live && !d.insertTaker
    && d.base <= size && d.base <= remaining && (d.base == size || d.base == remaining)
    && (d.cancelTaker <==> size <= remaining && kept)
    && (d.cancelMaker <==> remaining <= size)
  }

  /** The modes of one master account; with the reducing mode there is none. */
  lemma MasterTradeModes(s: State, e: Env, judge: Judge)
    requires Valid(s) && Meets(s, e) && !SelfTrade(s) && !Expired(s, e) && !SwitchPassed(s, e) && MasterTrade(s)
    ensures var d, kept := Decide(s, e, judge), NotionalKept(s, e);
            && (Flags(s) % 4 == 0 ==> d == Cancels(false, true))
            && (Flags(s) % 4 == 1 ==> d == Cancels(kept, false))
            && (Flags(s) % 4 == 2 ==> d == Cancels(kept, true))
  {
  }

  /** Post-only takers do not trade, and reduce-only makers only against a position they reduce. */
  lemma LateCancels(s: State, e: Env, judge: Judge)
    requires Valid(s) && Meets(s, e) && MakerFree(s, e)
    ensures var r, d := s.registers[0], Decide(s, e, judge);
            && (r.timeInForce == POST_ONLY ==> d == Cancels(NotionalKept(s, e), false))
            && (r.timeInForce != POST_ONLY && !MakerReduces(s, e) ==> d == Cancels(false, true))
            && (r.timeInForce != POST_ONLY && MakerReduces(s, e) && MarketType(r.orderType) && !Tradable(s, 1) ==>
                  d == Cancels(NotionalKept(s, e), false))
  {
    if Meets(s, e) && MakerFree(s, e) && MarketType(s.registers[0].orderType) {
      BaseIsLargest(s, 1);
    }
  }

  predicate MakerReduces(s: State, e: Env) {
    e.perps && s.order.reduceOnly ==> Reducible(s.makerPosition.size, s.order.isAsk)
  }

  // ---------- how much is traded ----------

  /** The taker's price is better for the maker than the maker's own: it pays the difference from its allowance. */
  function Overpays(s: State): int
    requires Valid(s)
  {
    if s.registers[0].isAsk then s.registers[0].price - s.leaf.price else s.leaf.price - s.registers[0].price
  }

  /** A base both orders have, and reduce-only orders have a position for. */
  predicate Available(s: State, base: nat)
    requires Valid(s)
  {
    && base <= s.registers[0].size && base <= s.order.remaining
    && (s.order.reduceOnly ==> base <= Abs(s.makerPosition.size))
    && (s.registers[0].reduceOnly ==> base <= Abs(s.takerPosition.size))
  }

  /** And a market taker has the slippage for. */
  predicate Tradable(s: State, base: nat)
    requires Valid(s)
  {
    && Available(s, base)
    && (MarketType(s.registers[0].orderType) && Overpays(s) > 0 ==> base * Overpays(s) <= s.registers[0].slippage)
  }

  lemma SlippageAllows(s: State, base: nat)
    requires Valid(s) && Overpays(s) > 0
    ensures Slips(s) && (base <= AllowedBase(s) <==> base * Overpays(s) <= s.registers[0].slippage)
  {
    QuotientExact(s.registers[0].slippage, Overpays(s), base);
  }

  /** The trade is as large as it can be: what is tradable is what is at most its base. */
  lemma BaseIsLargest(s: State, base: nat)
    requires Valid(s)
    ensures Tradable(s, base) <==> base <= TradeBase(s)
    ensures Available(s, base) <==> base <= CappedBase(s)
  {
    if Overpays(s) > 0 {
      SlippageAllows(s, base);
    }
  }

  // ---------- the trade ----------

  /** Everything but the risk and open interest checks lets the two orders trade. */
  predicate MayTrade(s: State, e: Env)
    requires Valid(s)
  {
    && Meets(s, e) && MakerFree(s, e) && s.registers[0].timeInForce != POST_ONLY && MakerReduces(s, e)
    && (MarketType(s.registers[0].orderType) ==> Tradable(s, 1))
  }

  /** Both positions after the trade. */
  function TakerThen(s: State, base: nat): int
    requires Valid(s)
  {
    if s.registers[0].isAsk then s.takerPosition.size - base else s.takerPosition.size + base
  }

  function MakerThen(s: State, base: nat): int
    requires Valid(s)
  {
    if s.registers[0].isAsk then s.makerPosition.size + base else s.makerPosition.size - base
  }

  function InterestThen(s: State, base: nat): int
    requires Valid(s)
  {
    s.openInterest + Abs(TakerThen(s, base)) - Abs(s.takerPosition.size)
    + Abs(MakerThen(s, base)) - Abs(s.makerPosition.size)
  }

  predicate OppositeSigns(a: int, b: int) {
    (a > 0 && b < 0) || (a < 0 && b > 0) || (a == 0 && b == 0)
  }

  /**
   The open interest rules: past the market's limit a taker may only shrink without turning around, nobody takes the
   market over its limit, but for the insurance fund, and both maxima hold for everyone.
   */
  predicate InterestForbids(s: State, e: Env, base: nat)
    requires Valid(s)
  {
    var unit := e.risk.markPrice * e.risk.quoteMultiplier;
    var before, later := s.openInterest * unit, InterestThen(s, base) * unit;
    var fund := s.taker.accountType == INSURANCE_FUND || s.maker.accountType == INSURANCE_FUND;
    var shrinks := Abs(TakerThen(s, base)) < Abs(s.takerPosition.size)
                   && !OppositeSigns(s.takerPosition.size, TakerThen(s, base));
    || (!fund && before > e.openInterestLimit && !shrinks)
    || (!fund && before <= e.openInterestLimit && later > e.openInterestLimit)
    || InterestThen(s, base) > MAX_OPEN_INTEREST || later > MAX_NOTIONAL
  }

  lemma InterestRules(s: State, e: Env, base: nat)
    requires Valid(s) && e.perps
    ensures OpenInterestAfter(s, e, base) == InterestThen(s, base)
    ensures OpenInterestBad(s, e, base) <==> InterestForbids(s, e, base)
  {
    var t := InputFor(s, e, base);
    Trades.SideKeepsCollateral(t.taker, t.takerType, e.risk, Trades.TakerDelta(t), t.quote, t.base,
                               Trades.FeeOf(t, t.takerFee));
    Trades.SideKeepsCollateral(t.maker, t.makerType, e.risk, -Trades.TakerDelta(t), t.quote, t.base,
                               Trades.FeeOf(t, t.makerFee));
  }

  /** A side the checks reject, besides what the given risk checks say. */
  predicate TakerRejected(s: State, e: Env, base: nat, j: Judgement)
    requires Valid(s)
  {
    j.takerBad || (e.perps && InterestForbids(s, e, base))
  }

  /** The allowance is spent before the orders are. */
  predicate SlippedOut(s: State, base: nat)
    requires Valid(s)
  {
    Available(s, base + 1) && !Tradable(s, base + 1)
  }

  predicate TakerEnds(s: State, e: Env, base: nat, j: Judgement)
    requires Valid(s)
  {
    var r := s.registers[0];
    || r.size == base
    || (r.reduceOnly && !Reducible(if e.perps then TakerThen(s, base) else s.takerPosition.size, r.isAsk))
    || SlippedOut(s, base)
    || (r.orderType == LIQUIDATION_ORDER && !j.inLiquidation)
  }

  predicate MakerEnds(s: State, e: Env, base: nat)
    requires Valid(s)
  {
    var o := s.order;
    || o.remaining == base
    || (o.reduceOnly && !Reducible(if e.perps then MakerThen(s, base) else s.makerPosition.size, o.isAsk))
  }

  lemma Ends(s: State, e: Env, j: Judgement)
    requires Valid(s)
    ensures TakerLeaves(s, e, TradeBase(s), j) <==> TakerEnds(s, e, TradeBase(s), j)
    ensures MakerLeaves(s, e, TradeBase(s)) <==> MakerEnds(s, e, TradeBase(s))
  {
    var base := TradeBase(s);
    BaseIsLargest(s, base + 1);
    if e.perps {
      MatchingTheorems.PositionsMove(s, e, base);
    }
  }

  /** Which of the two is cancelled instead of a trade, and which of them a trade ends. */
  lemma TradeOutcome(s: State, e: Env, judge: Judge)
    requires Valid(s) && MayTrade(s, e)
    ensures var d, base := Decide(s, e, judge), TradeBase(s);
            var j := judge(base);
            var rejected := TakerRejected(s, e, base, j);
            if rejected || j.makerBad then d == Cancels(rejected, j.makerBad)
            else d == Decision(true, false, base, TakerEnds(s, e, base, j), MakerEnds(s, e, base), false)
  {
    var base := TradeBase(s);
    BaseIsLargest(s, 1);
    Ends(s, e, judge(base));
    if e.perps {
      InterestRules(s, e, base);
    }
  }

  /**
   Which maker may be traded with: a trade happens exactly when the taker reaches an order that has not expired,
   whose owner's switch has not passed, that self-trade prevention lets through, and both sides pass the checks.
   */
  lemma LiveExactly(s: State, e: Env, judge: Judge)
    requires Valid(s)
    ensures Decide(s, e, judge).live <==>
            && MayTrade(s, e)
            && !TakerRejected(s, e, TradeBase(s), judge(TradeBase(s))) && !judge(TradeBase(s)).makerBad
  {
    if MayTrade(s, e) {
      TradeOutcome(s, e, judge);
    } else if Meets(s, e) && MakerFree(s, e) {
      LateCancels(s, e, judge);
    } else {
      NoTrade(s, e, judge);
    }
  }

  lemma NoTrade(s: State, e: Env, judge: Judge)
    requires Valid(s) && !(Meets(s, e) && MakerFree(s, e))
    ensures !Decide(s, e, judge).live
  {
    Unmatched(s, e, judge);
    if Meets(s, e) {
      if Expired(s, e) {
        ExpiredMaker(s, e, judge);
      } else if SelfTrade(s) {
        SelfTradeModes(s, e, judge);
      } else if SwitchPassed(s, e) {
        SwitchedMaker(s, e, judge);
      } else {
        MasterTradeModes(s, e, judge);
      }
    }
  }

  /** What a live trade says of its two orders, in their own fields. */
  lemma LiveMeans(s: State, e: Env, judge: Judge)
    requires Valid(s) && Decide(s, e, judge).live
    ensures s.order.expiry > e.timestamp
    ensures s.maker.cancelAllTime == 0 || s.maker.cancelAllTime > e.timestamp
    ensures s.registers[0].timeInForce != POST_ONLY
    ensures s.order.owner == s.registers[0].account ==> s.registers[0].collector == NO_COLLECTOR && MasterWide(s)
    ensures Accepts(s, e, judge) ==>
              s.order.owner == s.maker.index != s.taker.index
              && (s.taker.index == s.registers[0].account ==> s.order.owner != s.registers[0].account)
    ensures MasterWide(s) && Flags(s) % 4 != 3 ==> s.maker.master != s.taker.master
  {
    LiveExactly(s, e, judge);
  }

  // ---------- what is asserted ----------

  /** An empty leaf is the place of the taker's own order. */
  predicate LeafOfTaker(s: State)
    requires Valid(s)
  {
    var r, o := s.registers[0], s.order;
    && s.leaf.price == r.price && s.leaf.nonce == r.nonce
    && o.owner == r.account && o.index0 == r.orderIndex && o.index1 == r.clientOrderIndex
  }

  /** A leaf with an order is that of the account order, in the market. */
  predicate LeafOfMaker(s: State, e: Env) {
    s.leaf.price == s.order.price && s.leaf.nonce == s.order.nonce && s.order.index0 / NONCE_RANGE == e.market.index + 1
  }

  /** What is asserted of the orders and accounts before anything changes. */
  predicate OrdersAsserted(s: State, e: Env)
    requires Valid(s)
  {
    var r, looks := s.registers[0], Matches(s, e) && !(s.registers[0].timeInForce == IOC && e.oppositeTotal == 0);
    && Flags(s) < 8 && e.feesInRange
    && (Matches(s, e) && NothingAtLeaf(s) ==> LeafOfTaker(s))
    && (looks ==> e.betterBase == 0)
    && (looks && NothingAtLeaf(s) && r.timeInForce != IOC ==> LimitType(r.orderType))
    && (Meets(s, e) ==> LeafOfMaker(s, e))
    && (Meets(s, e) && MakerFree(s, e) ==> s.order.owner == s.maker.index != s.taker.index)
    && (MayTrade(s, e) ==> e.feeAccount.accountType == INSURANCE_FUND || e.feeAccount.index == TREASURY)
  }

  /** The fees of a perps trade are not negative in total. */
  predicate FeesAsserted(s: State, e: Env)
    requires Valid(s)
  {
    MayTrade(s, e) && e.perps ==>
      var quote := TradeBase(s) * s.leaf.price * e.risk.quoteMultiplier;
      quote * e.takerFee + quote * e.makerFee >= 0
  }

  /** An execution is accepted exactly when these hold and balances and counters allow its effects. */
  lemma AcceptsExactly(s: State, e: Env, judge: Judge)
    requires Valid(s)
    ensures Accepts(s, e, judge) <==>
            OrdersAsserted(s, e) && FeesAsserted(s, e) && EffectChecks(s, e, Decide(s, e, judge))
  {
    SameChecks(s, e);
    if MayTrade(s, e) && e.perps {
      FeeTotal(s, e);
    }
  }

  lemma FeeTotal(s: State, e: Env)
    requires Valid(s) && e.perps
    ensures var quote := TradeBase(s) * s.leaf.price * e.risk.quoteMultiplier;
            Trades.PerpsTrade(InputFor(s, e, TradeBase(s)), e.risk).fee == quote * e.takerFee + quote * e.makerFee
  {
    Trades.FeesPaid(InputFor(s, e, TradeBase(s)), e.risk);
  }

  lemma SameChecks(s: State, e: Env)
    requires Valid(s)
    ensures FirstRule(s, e) == Continue <==> MayTrade(s, e)
    ensures RuleChecks(s, e) <==> OrdersAsserted(s, e)
  {
    BaseIsLargest(s, 1);
  }
}
