/** What every matching execution keeps, and how many of them one taker can need. */
module MatchingTheorems {
  import Arith
  import opened Positions
  import opened Trades
  import opened PreExecution
  import opened Orders
  import opened MatchingRules

  /** Only perps markets have reduce-only orders. */
  predicate ReduceOnlyIsPerps(s: State, e: Env)
    requires Valid(s)
  {
    Front(s).reduceOnly || s.order.reduceOnly ==> e.perps
  }

  predicate Pops(d: Decision) {
    d.cancelTaker || d.insertTaker
  }

  // ---------- sizes ----------

  /** The base of a fill is at most what either side has, and at most the positions reduce-only orders reduce. */
  lemma BaseFits(s: State, e: Env, judge: Judge)
    requires Valid(s)
    ensures var d := Decide(s, e, judge);
            && 0 <= d.base <= Front(s).size && d.base <= s.order.remaining
            && (d.live && Front(s).reduceOnly ==> d.base <= Abs(s.takerPosition.size))
            && (d.live && s.order.reduceOnly ==> d.base <= Abs(s.makerPosition.size))
  {
  }

  /** Taker and maker shrink by the same amount, stay non-negative, and the leaf shows the maker's remaining size. */
  lemma SizesFallTogether(s: State, e: Env, judge: Judge)
    requires Valid(s)
    ensures var d := Decide(s, e, judge);
            var m := Middle(s, e, d);
            && m.registers[0].size == Front(s).size - d.base >= 0
            && m.order.remaining == s.order.remaining - d.base >= 0
            && m.registers[1..] == s.registers[1..]
            && (d.live || d.reduces ==>
                  (if s.order.isAsk then m.leaf.askBase else m.leaf.bidBase) == m.order.remaining)
  {
    BaseFits(s, e, judge);
  }

  /** A market taker never spends more slippage than it has. */
  lemma SlippageStays(s: State)
    requires Valid(s)
    ensures SlippageAfter(s, TradeBase(s)) >= 0
  {
    var r, gain, base := Front(s), PriceGain(s), TradeBase(s);
    if MarketType(r.orderType) {
      if Slips(s) {
        AllowanceCovers(r.slippage, Abs(r.price - s.leaf.price), base);
        assert gain == 0 - Abs(r.price - s.leaf.price);
      } else {
        Arith.MulMonotone(0, gain, base);
      }
    }
  }

  lemma AllowanceCovers(slippage: nat, difference: nat, base: nat)
    requires difference > 0 && base <= slippage / difference
    ensures slippage + (0 - difference) * base >= 0
  {
    QuotientExact(slippage, difference, base);
    assert (0 - difference) * base == 0 - base * difference;
  }

  /** A fill keeps sizes and allowances in range. */
  lemma MiddleStaysValid(s: State, e: Env, judge: Judge)
    requires Valid(s)
    ensures Valid(Middle(s, e, Decide(s, e, judge)))
  {
    SizesFallTogether(s, e, judge);
    MiddleSlippage(s, e, judge);
    SlippageStays(s);
  }

  lemma MiddleSlippage(s: State, e: Env, judge: Judge)
    requires Valid(s)
    ensures var d, m := Decide(s, e, judge), Middle(s, e, Decide(s, e, judge));
            && |m.registers| == |s.registers|
            && m.registers[0].slippage == if d.live then SlippageAfter(s, TradeBase(s)) else Front(s).slippage
  {
  }

  lemma PositionsMove(s: State, e: Env, base: nat)
    requires Valid(s) && e.perps
    ensures var move := if Front(s).isAsk then -(base as int) else base;
            && AfterTrade(s, e, base).takerPosition.size == s.takerPosition.size + move
            && AfterTrade(s, e, base).makerPosition.size == s.makerPosition.size - move
  {
    var t := InputFor(s, e, base);
    SideKeepsCollateral(t.taker, t.takerType, e.risk, TakerDelta(t), t.quote, t.base, FeeOf(t, t.takerFee));
    SideKeepsCollateral(t.maker, t.makerType, e.risk, -TakerDelta(t), t.quote, t.base, FeeOf(t, t.makerFee));
  }

  /** Executions keep what the next one relies on: sizes and allowances in range, in every pending register. */
  lemma ExecutionStaysValid(s: State, e: Env, judge: Judge)
    requires Valid(s)
    ensures Valid(Execute(s, e, judge))
  {
    var d := Decide(s, e, judge);
    var m := Middle(s, e, d);
    MiddleStaysValid(s, e, judge);
    FinishStaysValid(s, m, e, d);
    FollowUpOnlyWrites(s, Finish(s, m, e, d), e, d, judge(d.base));
  }

  lemma PopStaysValid(m: State, pops: bool)
    requires Valid(m)
    ensures Valid(PopStep(m, pops))
  {
    var t := PopStep(m, pops);
    forall i | 0 <= i < |t.registers| ensures t.registers[i].size >= 0 && t.registers[i].slippage >= 0 {
      assert pops ==> t.registers[i] == if i + 1 < |m.registers| then m.registers[i + 1] else EMPTY_REGISTER;
    }
  }

  lemma InsertKeepsRegisters(s: State, e: Env, inserts: bool, r: Register)
    ensures var t := InsertStep(s, e, inserts, r);
            t.registers == s.registers && t.order.remaining == if inserts then r.size else s.order.remaining
  {
  }

  lemma FinishStaysValid(s: State, m: State, e: Env, d: Decision)
    requires Valid(s) && Valid(m)
    ensures Valid(Finish(s, m, e, d))
  {
    var r, popped := Front(m), PopStep(m, Pops(d));
    var removed := RemoveStep(popped, e, d.cancelMaker, SameAccount(s), r.market);
    PopStaysValid(m, Pops(d));
    RemoveKeepsRegisters(popped, e, d.cancelMaker, SameAccount(s), r.market);
    ChildrenOnlyWrite(removed, d.cancelTaker, r.market, r.account, r.child0, r.child1, r.initialSize - r.size, 5);
    InsertKeepsRegisters(LeaveStep(removed, d.cancelTaker, r), e, d.insertTaker, r);
  }

  lemma RemoveKeepsRegisters(s: State, e: Env, removes: bool, ofTaker: bool, market: nat)
    ensures var t := RemoveStep(s, e, removes, ofTaker, market);
            t.registers == s.registers && t.order.remaining == if removes then 0 else s.order.remaining
  {
    var o, released := s.order, Released(s, e, ofTaker);
    ChildrenOnlyWrite(released, true, market, o.owner, o.child0, o.child1, o.initial - o.remaining, 7);
  }

  // ---------- the leaf ----------

  /** An inserted order rests on the book unless it waits for a trigger. */
  predicate RestsOnBook(r: Register, inserts: bool) {
    inserts && r.triggerStatus == TRIGGER_NA
  }

  /** The leaf and order after orders are removed and inserted. */
  lemma FinishLeaf(s: State, m: State, e: Env, d: Decision)
    requires Valid(s) && Valid(m) && !(d.cancelMaker && d.insertTaker)
    ensures var x := Finish(s, m, e, d);
            && x.leaf == (if RestsOnBook(Front(m), d.insertTaker) then LeafOf(Front(m))
                          else if d.cancelMaker then EmptyLeaf(m.leaf.price, m.leaf.nonce) else m.leaf)
            && (d.insertTaker ==> x.order == OrderOf(Front(m)))
            && (!d.insertTaker && !d.cancelMaker ==> x.order == m.order)
  {
    var r := Front(m);
    var removed := RemoveStep(PopStep(m, Pops(d)), e, d.cancelMaker, SameAccount(s), r.market);
    ChildrenOnlyWrite(removed, d.cancelTaker, r.market, r.account, r.child0, r.child1, r.initialSize - r.size, 5);
  }

  lemma MakerShrinks(s: State, e: Env, judge: Judge)
    requires Valid(s)
    ensures var d := Decide(s, e, judge);
            d.live || d.reduces ==>
              && Middle(s, e, d).order == s.order.(remaining := s.order.remaining - d.base)
              && (!d.cancelMaker ==> !LeafEmpty(Middle(s, e, d).leaf))
  {
  }

  /** The leaf and order of the state after the fill. */
  lemma MiddleLeaf(s: State, e: Env, judge: Judge)
    requires Valid(s)
    ensures var d, m := Decide(s, e, judge), Middle(s, e, Decide(s, e, judge));
            && Valid(m) && m.leaf.price == s.leaf.price && m.leaf.nonce == s.leaf.nonce
            && (if d.live || d.reduces then
                  && m.leaf == WithRemaining(s.leaf, s.order.isAsk, s.order.remaining - d.base)
                  && m.order == s.order.(remaining := s.order.remaining - d.base)
                else m == s)
  {
    MiddleStaysValid(s, e, judge);
  }

  /** What an execution leaves at its leaf. */
  lemma LeafAfter(s: State, e: Env, judge: Judge)
    requires Valid(s)
    ensures var d, x := Decide(s, e, judge), Execute(s, e, judge);
            if RestsOnBook(Front(s), d.insertTaker) then x.leaf == LeafOf(Front(s)) && x.order == OrderOf(Front(s))
            else if d.cancelMaker then x.leaf == EmptyLeaf(s.leaf.price, s.leaf.nonce)
            else if d.live || d.reduces then
              && x.leaf == WithRemaining(s.leaf, s.order.isAsk, s.order.remaining - d.base)
              && x.order == s.order.(remaining := s.order.remaining - d.base)
            else x.leaf == s.leaf
  {
    var d := Decide(s, e, judge);
    var m := Middle(s, e, d);
    NeverBoth(s, e, judge);
    MiddleLeaf(s, e, judge);
    FinishLeaf(s, m, e, d);
    FollowUpOnlyWrites(s, Finish(s, m, e, d), e, d, judge(d.base));
  }

  /** A taker that stays at the front keeps its side and price, and its size falls by the fill. */
  lemma TakerStays(s: State, e: Env, judge: Judge)
    requires Valid(s) && !Pops(Decide(s, e, judge))
    ensures var x := Execute(s, e, judge);
            && |x.registers| > 0 && x.registers[0].isAsk == Front(s).isAsk && x.registers[0].price == Front(s).price
            && x.registers[0].size == Front(s).size - Decide(s, e, judge).base
  {
    var d := Decide(s, e, judge);
    var m := Middle(s, e, d);
    var removed := RemoveStep(m, e, d.cancelMaker, SameAccount(s), Front(s).market);
    MiddleSlippage(s, e, judge);
    SizesFallTogether(s, e, judge);
    RemoveKeepsRegisters(m, e, d.cancelMaker, SameAccount(s), Front(s).market);
    FollowUpOnlyWrites(s, Finish(s, m, e, d), e, d, judge(d.base));
  }

  lemma FinishKeeps(s: State, m: State, e: Env, d: Decision)
    requires Valid(s) && |m.registers| > 0 && !Pops(d) && !d.cancelMaker
    ensures Finish(s, m, e, d) == m
  {
  }

  /** An execution that ends neither order leaves the state after the fill, but for instructions. */
  lemma NeitherEnds(s: State, e: Env, judge: Judge)
    requires Valid(s) && !Pops(Decide(s, e, judge)) && !Decide(s, e, judge).cancelMaker
    ensures var x, m := Execute(s, e, judge), Middle(s, e, Decide(s, e, judge)); x == m.(writes := x.writes)
  {
    var d := Decide(s, e, judge);
    MiddleSlippage(s, e, judge);
    FinishKeeps(s, Middle(s, e, d), e, d);
    FollowUpOnlyWrites(s, Middle(s, e, d), e, d, judge(d.base));
  }

  // ---------- progress ----------

  predicate OppositeSides(s: State)
    requires Valid(s)
  {
    s.order.isAsk != Front(s).isAsk
  }

  /**
   A trade that ends neither order: a reduce-only maker on the taker's own side, whose position the
   trade enlarges instead of reducing, caps a trade that both orders outlast.
   */
  predicate SameSideStuck(s: State, e: Env, j: Judgement)
    requires Valid(s)
  {
    var base := TradeBase(s);
    && FirstRule(s, e) == Continue && VerdictRule(s, e, base, j) == Continue
    && s.order.reduceOnly && !OppositeSides(s)
    && base < Front(s).size && base < s.order.remaining && !TooMuchSlippage(s)
    && !(Front(s).reduceOnly && base == Abs(s.takerPosition.size))
    && !(Front(s).orderType == LIQUIDATION_ORDER && !j.inLiquidation)
  }

  /** The decision of an earlier rule that neither pops the register nor removes the maker order. */
  predicate CancelLost(s: State, e: Env)
    requires Valid(s)
  {
    && !KeepsCancel(s, e)
    && (FirstRule(s, e) == CancelTaker || (FirstRule(s, e) == Reduce && Front(s).size < s.order.remaining))
  }

  /**
   Progress, with its exact exceptions: an execution with the matching flag set pops the taker's
   register or removes the maker's order, unless the unmasked open interest test takes a
   cancellation of the taker back, or a same-side reduce-only maker caps the trade.
   */
  lemma Progress(s: State, e: Env, judge: Judge)
    requires Valid(s) && s.matching && ReduceOnlyIsPerps(s, e)
    ensures Pops(Decide(s, e, judge)) || Decide(s, e, judge).cancelMaker <==>
            !CancelLost(s, e) && !SameSideStuck(s, e, judge(TradeBase(s)))
  {
    if e.perps {
      PositionsMove(s, e, TradeBase(s));
    }
  }

  /** Even then the trade is not empty, and the maker keeps something to trade. */
  lemma StuckTrades(s: State, e: Env, judge: Judge)
    requires Valid(s) && s.matching && ReduceOnlyIsPerps(s, e) && SameSideStuck(s, e, judge(TradeBase(s)))
    ensures var d := Decide(s, e, judge);
            d.live && !Pops(d) && !d.cancelMaker && 0 < d.base < Front(s).size && d.base < s.order.remaining
  {
    Progress(s, e, judge);
  }

  /** A taker is never both cancelled and inserted, and an inserted taker meets no maker. */
  lemma NeverBoth(s: State, e: Env, judge: Judge)
    requires Valid(s)
    ensures var d := Decide(s, e, judge);
            && !(d.cancelTaker && d.insertTaker)
            && (d.insertTaker ==> !d.cancelMaker && !d.live && !d.reduces)
            && !(d.live && d.reduces)
  {
  }

  // ---------- open interest ----------

  /** A perps trade that happens leaves the open interest within both maxima, and is no fund's way past the limit. */
  lemma TradeWithinCaps(s: State, e: Env, judge: Judge)
    requires Valid(s) && e.perps && Decide(s, e, judge).live
    ensures var after := AfterTrade(s, e, Decide(s, e, judge).base);
            && after.openInterest <= MAX_OPEN_INTEREST
            && NotionalOf(after.openInterest, e.risk) <= MAX_NOTIONAL
            && (!FundTrade(s) ==>
                  if NotionalOf(s.openInterest, e.risk) <= e.openInterestLimit
                  then NotionalOf(after.openInterest, e.risk) <= e.openInterestLimit
                  else Abs(after.takerPosition.size) < Abs(s.takerPosition.size))
  {
  }

  /** The notional maximum, once kept, is kept by every execution, in perps and spot markets alike. */
  lemma ExecutionKeepsNotional(s: State, e: Env, judge: Judge)
    requires Valid(s) && KeepsCancel(s, e)
    ensures NotionalOf(Execute(s, e, judge).openInterest, e.risk) <= MAX_NOTIONAL
  {
    var d := Decide(s, e, judge);
    var m := Middle(s, e, d);
    FinishCounts(s, m, e, d);
    FollowUpOnlyWrites(s, Finish(s, m, e, d), e, d, judge(d.base));
    if d.live && e.perps {
      TradeWithinCaps(s, e, judge);
    }
  }

  // ---------- the exceptions are real ----------

  /** A taker with nothing to trade against, in a market past the notional maximum. */
  function StuckState(): State {
    var r := EMPTY_REGISTER.(instruction := 1, account := 1, size := 5, initialSize := 5, price := 100, nonce := 7,
                             orderIndex := 9);
    var o := EmptyOrder(OrderOf(r));
    var a := Account(1, 1, 0, 0, 0, 0);
    var p := Position(0, 0, 0, 0, 0, 0, 0, 0, 0);
    State(true, [r], 1, EmptyLeaf(100, 7), o, a, a.(index := 2), p, p, [], [], 0, MAX_NOTIONAL, [])
  }

  function StuckEnv(): Env {
    Env(true, Market(0, 0, 0, 1, 1), RiskDetails(2, 1, 0, 0, 0, 0), MAX_NOTIONAL, 0, 0, 10,
        Account(0, 0, 0, 0, 0, 0), true, 0, 0, true, true)
  }

  /** An accepted execution that cancels, inserts and removes nothing. */
  lemma StuckExecution(judge: Judge)
    ensures var s, e := StuckState(), StuckEnv();
            && Valid(s) && s.matching && ReduceOnlyIsPerps(s, e) && CancelLost(s, e) && Accepts(s, e, judge)
            && Execute(s, e, judge) == s
  {
    var s, e := StuckState(), StuckEnv();
    assert FirstRule(s, e) == CancelTaker;
    assert NotionalOf(s.openInterest, e.risk) == MAX_NOTIONAL * 2;
    assert Decide(s, e, judge) == Decision(false, false, 0, false, false, false);
  }

  /** A plain limit taker at the leaf of another account's order, in a perps market. */
  predicate PlainMeeting(s: State, e: Env) {
    && Valid(s) && s.matching && s.count != 0 && e.perps
    && var r, base := Front(s), TradeBase(s);
    && r.orderType == LIMIT_ORDER && r.timeInForce != IOC && r.timeInForce != POST_ONLY
    && r.triggerStatus == TRIGGER_NA && !r.reduceOnly && FeesOff(s) && r.takerFeeOrFlags == 0
    && !LeafEmpty(s.leaf) && LeafMatchesOrder(s, e)
    && MakerIsOther(s) && !SameAccount(s) && !MakerExpired(s, e) && !SwitchTriggered(s.maker, e.timestamp)
    && (s.order.reduceOnly ==> !WrongWay(s.makerPosition.size, s.order.isAsk))
    && e.betterBase == 0 && e.feesInRange && e.feesAllowed && FeeCollectorOk(e)
    && KeepsCancel(s, e) && !OpenInterestBad(s, e, base) && PerpsTrade(InputFor(s, e, base), e.risk).fee >= 0
  }

  /** Such an execution is accepted and trades, whatever the sides and prices of the two orders. */
  lemma PlainMeetingTrades(s: State, e: Env, judge: Judge)
    requires PlainMeeting(s, e) && !judge(TradeBase(s)).takerBad && !judge(TradeBase(s)).makerBad
    ensures ReduceOnlyIsPerps(s, e) && Accepts(s, e, judge) && Decide(s, e, judge).live
  {
    assert FirstRule(s, e) == Continue;
  }

  /** With a reduce-only maker on the taker's side it trades without ending either order. */
  lemma SameSideExecution(s: State, e: Env, judge: Judge)
    requires PlainMeeting(s, e) && !judge(TradeBase(s)).takerBad && !judge(TradeBase(s)).makerBad
    requires s.order.reduceOnly && !OppositeSides(s)
    requires Abs(s.makerPosition.size) < Front(s).size && Abs(s.makerPosition.size) < s.order.remaining
    ensures SameSideStuck(s, e, judge(TradeBase(s)))
    ensures Decide(s, e, judge) == Decision(true, false, Abs(s.makerPosition.size), false, false, false)
  {
    assert FirstRule(s, e) == Continue && TradeBase(s) == Abs(s.makerPosition.size);
    PositionsMove(s, e, TradeBase(s));
  }

  const SMALL_MARKET: nat := 1000

  /** No fees, and no maximum is reached with a small open interest. */
  predicate Roomy(e: Env) {
    && e.takerFee == 0 && e.makerFee == 0
    && NotionalOf(SMALL_MARKET, e.risk) <= e.openInterestLimit <= MAX_NOTIONAL
  }

  /** Room for some more open interest below all maxima. */
  predicate FarFromCaps(s: State, e: Env, room: nat) {
    Roomy(e) && s.openInterest + room <= SMALL_MARKET
  }

  /** A trade adds at most twice its base to the open interest. */
  lemma OpenInterestGrows(s: State, e: Env, base: nat)
    requires Valid(s)
    ensures OpenInterestAfter(s, e, base) <= s.openInterest + 2 * base
  {
    var t := InputFor(s, e, base);
    SideKeepsCollateral(t.taker, t.takerType, e.risk, TakerDelta(t), t.quote, t.base, FeeOf(t, t.takerFee));
    SideKeepsCollateral(t.maker, t.makerType, e.risk, -TakerDelta(t), t.quote, t.base, FeeOf(t, t.makerFee));
  }

  lemma SmallNotional(openInterest: int, e: Env)
    requires Roomy(e) && openInterest <= SMALL_MARKET
    ensures NotionalOf(openInterest, e.risk) <= e.openInterestLimit <= MAX_NOTIONAL
  {
    Arith.MulMonotone(openInterest, SMALL_MARKET, e.risk.markPrice * e.risk.quoteMultiplier);
  }

  /** A fee-less trade far from both open interest maxima. */
  lemma SmallTrade(s: State, e: Env, base: nat)
    requires Valid(s) && e.perps && FarFromCaps(s, e, 2 * base)
    ensures KeepsCancel(s, e) && !OpenInterestBad(s, e, base) && PerpsTrade(InputFor(s, e, base), e.risk).fee == 0
  {
    OpenInterestGrows(s, e, base);
    SmallNotional(OpenInterestAfter(s, e, base), e);
    SmallNotional(s.openInterest, e);
  }

  /** A seller at 100, without a position, meets an order of the same size of an account that is long. */
  lemma MeetingExists(price: nat, isAsk: bool, reduceOnly: bool, size: nat, position: nat) returns (s: State, e: Env)
    requires reduceOnly ==> isAsk
    requires 0 < size <= 100 && 0 < position <= 100
    ensures PlainMeeting(s, e) && Front(s).isAsk && Front(s).price == 100 && Front(s).size == s.order.remaining == size
    ensures s.order.isAsk == isAsk && s.order.reduceOnly == reduceOnly && s.makerPosition.size == position
    ensures s.order.price == price && s.leaf == WithRemaining(EmptyLeaf(price, 8), isAsk, size)
    ensures s.openInterest == 0 && FarFromCaps(s, e, 1000)
  {
    var r := EMPTY_REGISTER.(account := 1, size := size, price := 100, nonce := 7, isAsk := true, timeInForce := 1);
    var o := OrderOf(r).(owner := 2, index0 := NONCE_RANGE, price := price, nonce := 8, isAsk := isAsk,
                         reduceOnly := reduceOnly, expiry := 20);
    var a, p := Account(1, 1, 0, 0, 0, 0), Position(position, 0, 0, 0, 0, 0, 0, 0, 0);
    s := State(true, [r], 1, WithRemaining(EmptyLeaf(price, 8), isAsk, size), o, a, a.(index := 2), p.(size := 0), p,
               [], [], 0, 0, []);
    e := StuckEnv();
    SmallTrade(s, e, TradeBase(s));
  }

  /** It may be a reduce-only order of its own side, and then neither order ends. */
  lemma SameSideExists() returns (s: State, e: Env)
    ensures PlainMeeting(s, e) && s.order.reduceOnly && !OppositeSides(s)
    ensures Abs(s.makerPosition.size) < Front(s).size && Abs(s.makerPosition.size) < s.order.remaining
  {
    s, e := MeetingExists(100, true, true, 10, 5);
  }

  /** What a trade leaves that ends neither order: both shrunk, and the maker's position grown. */
  predicate BothShrunk(s: State, x: State, base: nat)
    requires Valid(s)
  {
    && x.matching == s.matching && x.count == s.count && x.taker == s.taker && x.maker == s.maker
    && x.order == s.order.(remaining := s.order.remaining - base)
    && |x.registers| == |s.registers| && x.registers[1..] == s.registers[1..]
    && x.registers[0] == Front(s).(size := Front(s).size - base)
    && x.leaf == WithRemaining(s.leaf, s.order.isAsk, s.order.remaining - base)
    && Abs(x.makerPosition.size) == Abs(s.makerPosition.size) + base
    && (WrongWay(x.makerPosition.size, s.order.isAsk) <==> WrongWay(s.makerPosition.size, s.order.isAsk))
    && x.openInterest <= s.openInterest + 2 * base
  }

  lemma SameSideShrinks(s: State, e: Env, judge: Judge)
    requires PlainMeeting(s, e) && !judge(TradeBase(s)).takerBad && !judge(TradeBase(s)).makerBad
    requires s.order.reduceOnly && !OppositeSides(s)
    requires Abs(s.makerPosition.size) < Front(s).size && Abs(s.makerPosition.size) < s.order.remaining
    ensures BothShrunk(s, Execute(s, e, judge), Abs(s.makerPosition.size))
  {
    var base := Abs(s.makerPosition.size);
    SameSideExecution(s, e, judge);
    NeitherEnds(s, e, judge);
    PositionsMove(s, e, base);
    OpenInterestGrows(s, e, base);
  }

  lemma StillPlain(s: State, x: State, e: Env, base: nat, room: nat)
    requires PlainMeeting(s, e) && s.order.reduceOnly && BothShrunk(s, x, base)
    requires base < Front(s).size && base < s.order.remaining
    requires FarFromCaps(s, e, room) && 2 * base + 2 * Abs(x.makerPosition.size) <= room
    ensures PlainMeeting(x, e) && FarFromCaps(x, e, room - 2 * base)
  {
    assert forall i :: 0 < i < |x.registers| ==> x.registers[i] == s.registers[1..][i - 1];
    SmallTrade(x, e, TradeBase(x));
  }

  /** The state after a trade with a reduce-only maker on the taker's side is one more such meeting. */
  lemma MeetsAgain(s: State, e: Env, judge: Judge, room: nat)
    requires PlainMeeting(s, e) && !judge(TradeBase(s)).takerBad && !judge(TradeBase(s)).makerBad
    requires s.order.reduceOnly && !OppositeSides(s)
    requires Abs(s.makerPosition.size) < Front(s).size && Abs(s.makerPosition.size) < s.order.remaining
    requires FarFromCaps(s, e, room) && 6 * Abs(s.makerPosition.size) <= room
    ensures BothShrunk(s, Execute(s, e, judge), Abs(s.makerPosition.size))
    ensures PlainMeeting(Execute(s, e, judge), e)
    ensures FarFromCaps(Execute(s, e, judge), e, room - 2 * Abs(s.makerPosition.size))
  {
    SameSideShrinks(s, e, judge);
    StillPlain(s, Execute(s, e, judge), e, Abs(s.makerPosition.size), room);
  }

  // ---------- counters ----------

  /** All order counters changed together. */
  predicate CountersMoved(s: State, t: State, e: Env, change: int) {
    && t.totalOrders == s.totalOrders + change
    && t.taker.orders + t.maker.orders == s.taker.orders + s.maker.orders + change
    && (e.perps ==> t.takerPosition.orders + t.makerPosition.orders
                    == s.takerPosition.orders + s.makerPosition.orders + change)
  }

  lemma ChildrenOnlyWrite(s: State, enabled: bool, market: nat, owner: nat, child0: nat, child1: nat, filled: int,
                          top: nat)
    requires top > 0
    ensures var t := PutOrderChildren(s, enabled, market, owner, child0, child1, filled, top);
            t == s.(writes := t.writes)
  {
  }

  lemma RemoveCounts(s: State, e: Env, removes: bool, ofTaker: bool, market: nat)
    ensures CountersMoved(s, RemoveStep(s, e, removes, ofTaker, market), e, -Bit(removes))
    ensures RemoveStep(s, e, removes, ofTaker, market).count == s.count
    ensures RemoveStep(s, e, removes, ofTaker, market).openInterest == s.openInterest
  {
    var o, released := s.order, Released(s, e, ofTaker);
    ChildrenOnlyWrite(released, true, market, o.owner, o.child0, o.child1, o.initial - o.remaining, 7);
    assert CountersMoved(s, released, e, -1);
  }

  lemma InsertCounts(s: State, e: Env, inserts: bool, r: Register)
    ensures CountersMoved(s, InsertStep(s, e, inserts, r), e, Bit(inserts))
    ensures InsertStep(s, e, inserts, r).count == s.count && InsertStep(s, e, inserts, r).openInterest == s.openInterest
  {
  }

  lemma FollowUpOnlyWrites(s: State, m: State, e: Env, d: Decision, j: Judgement)
    requires Valid(s)
    ensures var t := FollowUp(s, m, e, d, j); t == m.(writes := t.writes)
  {
  }

  lemma MiddleKeepsCounts(s: State, e: Env, d: Decision)
    requires Valid(s)
    ensures CountersMoved(s, Middle(s, e, d), e, 0) && Middle(s, e, d).count == s.count
  {
  }

  lemma BeforeCounts(m: State, e: Env, pops: bool, removes: bool, leaves: bool, ofTaker: bool)
    requires |m.registers| > 0
    ensures var before := BeforeInsert(m, e, pops, removes, leaves, ofTaker);
            && CountersMoved(m, before, e, -Bit(removes))
            && before.count == m.count - Bit(pops) && before.openInterest == m.openInterest
  {
    var r, popped := m.registers[0], PopStep(m, pops);
    var removed := RemoveStep(popped, e, removes, ofTaker, r.market);
    RemoveCounts(popped, e, removes, ofTaker, r.market);
    ChildrenOnlyWrite(removed, leaves, r.market, r.account, r.child0, r.child1, r.initialSize - r.size, 5);
  }

  lemma CountersAdd(s: State, t: State, u: State, e: Env, first: int, second: int)
    requires CountersMoved(s, t, e, first) && CountersMoved(t, u, e, second)
    ensures CountersMoved(s, u, e, first + second)
  {
  }

  lemma FinishCounts(s: State, m: State, e: Env, d: Decision)
    requires Valid(s) && |m.registers| > 0
    ensures CountersMoved(m, Finish(s, m, e, d), e, Bit(d.insertTaker) - Bit(d.cancelMaker))
    ensures Finish(s, m, e, d).count == m.count - Bit(Pops(d)) && Finish(s, m, e, d).openInterest == m.openInterest
  {
    var before := BeforeInsert(m, e, Pops(d), d.cancelMaker, d.cancelTaker, SameAccount(s));
    BeforeCounts(m, e, Pops(d), d.cancelMaker, d.cancelTaker, SameAccount(s));
    InsertCounts(before, e, d.insertTaker, m.registers[0]);
    CountersAdd(m, before, Finish(s, m, e, d), e, -Bit(d.cancelMaker), Bit(d.insertTaker));
  }

  /** Order counters move with the orders that are removed and inserted. */
  lemma CountsFollow(s: State, e: Env, judge: Judge)
    requires Valid(s)
    ensures var d, x := Decide(s, e, judge), Execute(s, e, judge);
            CountersMoved(s, x, e, Bit(d.insertTaker) - Bit(d.cancelMaker)) && x.count == s.count - Bit(Pops(d))
  {
    var d := Decide(s, e, judge);
    var m := Middle(s, e, d);
    MiddleKeepsCounts(s, e, d);
    FinishCounts(s, m, e, d);
    FollowUpOnlyWrites(s, Finish(s, m, e, d), e, d, judge(d.base));
  }

  // ---------- instruction slots ----------

  /** Slots fall strictly along the writes. */
  predicate SlotsFall(w: seq<Write>) {
    forall i, j :: 0 <= i < j < |w| ==> w[i].slot > w[j].slot
  }

  predicate Above(w: seq<Write>, slot: nat) {
    SlotsFall(w) && forall i :: 0 <= i < |w| ==> 8 > w[i].slot >= slot
  }

  lemma PutFalls(s: State, enabled: bool, slot: nat, instruction: Register)
    requires slot < 8 && Above(s.writes, slot + 1)
    ensures Above(Put(s, enabled, slot, instruction).writes, slot)
  {
  }

  lemma ChildrenFall(s: State, enabled: bool, market: nat, owner: nat, child0: nat, child1: nat, filled: int, top: nat)
    requires 0 < top < 8 && Above(s.writes, top + 1)
    ensures Above(PutOrderChildren(s, enabled, market, owner, child0, child1, filled, top).writes, top - 1)
  {
    var kind := if filled == 0 then CANCEL_SINGLE_ORDER else TRIGGER_CHILD_ORDER;
    var first := Put(s, enabled && child0 != 0, top, ChildInstruction(kind, market, owner, child0, filled));
    PutFalls(s, enabled && child0 != 0, top, ChildInstruction(kind, market, owner, child0, filled));
    PutFalls(first, enabled && child1 != 0, top - 1, ChildInstruction(kind, market, owner, child1, filled));
  }

  /** No slot is written twice: one execution's instructions take falling slots below eight. */
  lemma NoSlotOverwritten(s: State, e: Env, judge: Judge)
    requires Valid(s) && s.writes == []
    ensures SlotsFall(Execute(s, e, judge).writes)
    ensures forall i :: 0 <= i < |Execute(s, e, judge).writes| ==> Execute(s, e, judge).writes[i].slot < 8
  {
    var d := Decide(s, e, judge);
    var m := Middle(s, e, d);
    assert m.writes == [];
    FinishFalls(s, m, e, d);
    FollowUpFalls(s, Finish(s, m, e, d), e, d, judge(d.base));
  }

  lemma FinishFalls(s: State, m: State, e: Env, d: Decision)
    requires Valid(s) && |m.registers| > 0 && m.writes == []
    ensures Above(Finish(s, m, e, d).writes, 4)
  {
    var r := m.registers[0];
    var popped := PopStep(m, Pops(d));
    var removed := RemoveStep(popped, e, d.cancelMaker, SameAccount(s), r.market);
    RemovalFalls(popped, e, d.cancelMaker, SameAccount(s), r.market);
    LeaveFalls(removed, d.cancelTaker, r);
    InsertKeepsWrites(LeaveStep(removed, d.cancelTaker, r), e, d.insertTaker, r);
  }

  lemma LeaveFalls(s: State, leaves: bool, r: Register)
    requires Above(s.writes, 6)
    ensures Above(LeaveStep(s, leaves, r).writes, 4)
  {
    ChildrenFall(s, leaves, r.market, r.account, r.child0, r.child1, r.initialSize - r.size, 5);
  }

  lemma InsertKeepsWrites(s: State, e: Env, inserts: bool, r: Register)
    ensures InsertStep(s, e, inserts, r).writes == s.writes
  {
  }

  lemma RemovalFalls(s: State, e: Env, removes: bool, ofTaker: bool, market: nat)
    requires s.writes == []
    ensures Above(RemoveStep(s, e, removes, ofTaker, market).writes, 6)
  {
    if removes {
      var o, released := s.order, Released(s, e, ofTaker);
      ReleasedKeepsWrites(s, e, ofTaker);
      ChildrenFall(released, true, market, o.owner, o.child0, o.child1, o.initial - o.remaining, 7);
    }
  }

  lemma ReleasedKeepsWrites(s: State, e: Env, ofTaker: bool)
    ensures Released(s, e, ofTaker).writes == s.writes
  {
  }

  lemma FollowUpFalls(s: State, m: State, e: Env, d: Decision, j: Judgement)
    requires Valid(s) && Above(m.writes, 4)
    ensures Above(FollowUp(s, m, e, d, j).writes, 0)
  {
    var r, o := Front(s), s.order;
    TiedFalls(m, d.live, r, o, s.takerPosition, s.makerPosition);
    FeeFalls(TiedStep(m, d.live, r, o, s.takerPosition, s.makerPosition), e,
             d.live && d.base != 0 && e.feeAccountExists, r, o, j);
  }

  lemma TiedFalls(m: State, live: bool, r: Register, o: AccountOrder, taker: Position, maker: Position)
    requires Above(m.writes, 4)
    ensures Above(TiedStep(m, live, r, o, taker, maker).writes, 2)
  {
    assert Above(PutTied(m, live, r.market, r.account, taker, m.takerPosition, 3).writes, 3);
  }

  lemma FeeFalls(m: State, e: Env, enabled: bool, r: Register, o: AccountOrder, j: Judgement)
    requires Above(m.writes, 2)
    ensures Above(FeeStep(m, e, enabled, r, o, j).writes, 0)
  {
    assert Above(PutFee(m, enabled, e, r.collector, j.takerFeeOut, 1).writes, 1);
  }
}
