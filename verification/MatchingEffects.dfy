/** What one execution leaves behind, field by field: registers, order, counters, balances and instructions. */
module MatchingEffects {
  import opened Positions
  import Trades
  import opened Orders
  import opened MatchingRules
  import opened MatchingTheorems
  import opened MatchingBalances

  // ---------- registers ----------

  /**
   What a market taker has left of its allowance: it gains what the maker's price is better, and pays what
   it is worse.
   */
  function AllowanceLeft(s: State, base: nat): int
    requires Valid(s)
  {
    var r := s.registers[0];
    r.slippage + base * if r.isAsk then s.leaf.price - r.price else r.price - s.leaf.price
  }

  /** A taker that leaves or rests is popped; one that stays has the fill taken off. */
  lemma RegistersAfter(s: State, e: Env, judge: Judge)
    requires Valid(s)
    ensures var r, d, x := s.registers[0], Decide(s, e, judge), Execute(s, e, judge);
            var slippage := if d.live && MarketType(r.orderType) then AllowanceLeft(s, d.base) else r.slippage;
            if d.cancelTaker || d.insertTaker then
              x.registers == s.registers[1..] + [EMPTY_REGISTER] && x.count == s.count - 1
            else
              && x.registers == s.registers[0 := r.(size := r.size - d.base, slippage := slippage)]
              && x.count == s.count
  {
    var d := Decide(s, e, judge);
    var m := Middle(s, e, d);
    CountsFollow(s, e, judge);
    MiddleRegisters(s, e, judge);
    FinishRegisters(s, m, e, d);
    FollowUpOnlyWrites(s, Finish(s, m, e, d), e, d, judge(d.base));
  }

  lemma MiddleRegisters(s: State, e: Env, judge: Judge)
    requires Valid(s)
    ensures var r, d := s.registers[0], Decide(s, e, judge);
            var slippage := if d.live && MarketType(r.orderType) then AllowanceLeft(s, d.base) else r.slippage;
            Middle(s, e, d).registers == s.registers[0 := r.(size := r.size - d.base, slippage := slippage)]
  {
    var d := Decide(s, e, judge);
    assert s.registers[0 := s.registers[0]] == s.registers;
    if d.live {
      assert PriceGain(s) * d.base == d.base * PriceGain(s);
    }
  }

  lemma FinishRegisters(s: State, m: State, e: Env, d: Decision)
    requires Valid(s) && |m.registers| > 0
    ensures Finish(s, m, e, d).registers == if Pops(d) then m.registers[1..] + [EMPTY_REGISTER] else m.registers
  {
    var r, popped := m.registers[0], PopStep(m, Pops(d));
    var removed := RemoveStep(popped, e, d.cancelMaker, SameAccount(s), r.market);
    RemoveKeepsRegisters(popped, e, d.cancelMaker, SameAccount(s), r.market);
    ChildrenOnlyWrite(removed, d.cancelTaker, r.market, r.account, r.child0, r.child1, r.initialSize - r.size, 5);
    InsertKeepsRegisters(LeaveStep(removed, d.cancelTaker, r), e, d.insertTaker, r);
  }

  // ---------- the order and its leaf ----------

  /** An order that rests carries over what the register says; flags share their field with the taker fee. */
  predicate Rests(o: AccountOrder, r: Register) {
    && o.index0 == o.orderIndex == r.orderIndex && o.index1 == o.clientOrderIndex == r.clientOrderIndex
    && o.owner == r.account && o.initial == r.initialSize && o.remaining == r.size
    && o.price == r.price && o.nonce == r.nonce && o.isAsk == r.isAsk
    && o.expiry == r.expiry && o.timeInForce == r.timeInForce && o.orderType == r.orderType
    && o.reduceOnly == r.reduceOnly && o.triggerPrice == r.triggerPrice && o.triggerStatus == r.triggerStatus
    && o.child0 == r.child0 && o.child1 == r.child1 && o.toCancel == r.toCancel && o.collector == r.collector
    && if r.collector == NO_COLLECTOR then o.flags == r.takerFeeOrFlags && o.takerFee == 0 && o.makerFee == 0
       else o.flags == 0 && o.takerFee == r.takerFeeOrFlags && o.makerFee == r.makerFee
  }

  /** A leaf shows a size and its value at the leaf's price on one side, and keeps the other. */
  predicate Shows(l: Leaf, price: nat, nonce: nat, isAsk: bool, size: int, otherBase: int, otherQuote: int) {
    && l.price == price && l.nonce == nonce
    && if isAsk then l.askBase == size && l.askQuote == price * size && l.bidBase == otherBase
       && l.bidQuote == otherQuote
       else l.bidBase == size && l.bidQuote == price * size && l.askBase == otherBase && l.askQuote == otherQuote
  }

  /** The place of a removed order keeps its indices and owner, and nothing else. */
  predicate Vacated(before: AccountOrder, after: AccountOrder) {
    && after.index0 == before.index0 && after.index1 == before.index1 && after.owner == before.owner
    && after.orderIndex == 0 && after.clientOrderIndex == 0 && after.initial == 0 && after.remaining == 0
    && after.price == 0 && after.nonce == 0 && !after.isAsk && after.expiry == 0 && after.timeInForce == 0
    && after.orderType == 0 && !after.reduceOnly && after.triggerPrice == 0 && after.triggerStatus == 0
    && after.child0 == 0 && after.child1 == 0 && after.toCancel == 0 && after.collector == 0
    && after.takerFee == 0 && after.makerFee == 0 && after.flags == 0
  }

  /** The order and leaf after an execution: inserted, put aside for a trigger, removed, filled or left alone. */
  lemma OrderAfter(s: State, e: Env, judge: Judge)
    requires Valid(s)
    ensures var r, d, x := s.registers[0], Decide(s, e, judge), Execute(s, e, judge);
            && (d.insertTaker ==> Rests(x.order, r))
            && (d.insertTaker && r.triggerStatus == TRIGGER_NA
                ==> Shows(x.leaf, r.price, r.nonce, r.isAsk, r.size, 0, 0))
            && (d.insertTaker && r.triggerStatus != TRIGGER_NA ==> x.leaf == s.leaf)
            && (d.cancelMaker ==> Vacated(s.order, x.order) && Shows(x.leaf, s.leaf.price, s.leaf.nonce, true, 0, 0, 0))
            && (!d.insertTaker && !d.cancelMaker ==> x.order == s.order.(remaining := s.order.remaining - d.base))
            && (!d.cancelMaker && (d.live || d.reduces) ==>
                  Shows(x.leaf, s.leaf.price, s.leaf.nonce, s.order.isAsk, s.order.remaining - d.base,
                        if s.order.isAsk then s.leaf.bidBase else s.leaf.askBase,
                        if s.order.isAsk then s.leaf.bidQuote else s.leaf.askQuote))
            && (!d.insertTaker && !d.cancelMaker && !d.live && !d.reduces ==> x.leaf == s.leaf)
  {
    var d := Decide(s, e, judge);
    var m := Middle(s, e, d);
    NeverBoth(s, e, judge);
    LeafAfter(s, e, judge);
    MiddleLeaf(s, e, judge);
    FinishLeaf(s, m, e, d);
    FinishOrder(s, m, e, d);
    FollowUpOnlyWrites(s, Finish(s, m, e, d), e, d, judge(d.base));
  }

  lemma FinishOrder(s: State, m: State, e: Env, d: Decision)
    requires Valid(s) && |m.registers| > 0 && !(d.cancelMaker && d.insertTaker)
    ensures var x := Finish(s, m, e, d);
            && (d.cancelMaker ==> x.order == EmptyOrder(m.order))
            && (d.insertTaker ==> x.order == OrderOf(m.registers[0]))
  {
    var r := m.registers[0];
    var removed := RemoveStep(PopStep(m, Pops(d)), e, d.cancelMaker, SameAccount(s), r.market);
    RemovedOrder(PopStep(m, Pops(d)), e, SameAccount(s), r.market);
    ChildrenOnlyWrite(removed, d.cancelTaker, r.market, r.account, r.child0, r.child1, r.initialSize - r.size, 5);
  }

  lemma RemovedOrder(m: State, e: Env, ofTaker: bool, market: nat)
    ensures WithoutMaker(m, e, ofTaker, market).order == EmptyOrder(m.order)
  {
  }

  // ---------- counters ----------

  /** An account with some orders more, which also count apart from cross margin in some markets. */
  predicate AccountMoved(before: Account, after: Account, change: int, apart: bool) {
    after == before.(orders := before.orders + change,
                     nonCrossOrders := before.nonCrossOrders + if apart then change else 0)
  }

  /** An order that a position is tied to: reduce-only, and not waiting for its parent. */
  predicate Tied(reduceOnly: bool, triggerStatus: nat) {
    reduceOnly && triggerStatus != TRIGGER_PARENT_ORDER
  }

  /** The orders of one position moved. */
  predicate PositionMoved(before: Position, after: Position, change: int, tied: int) {
    after.orders == before.orders + change && after.tiedOrders == before.tiedOrders + tied
  }

  /** All counters after orders were removed and inserted, account by account. */
  predicate CountersAfter(s: State, x: State, e: Env, own: bool, removes: bool, inserts: bool, o: AccountOrder,
                          r: Register) {
    var fromTaker, fromMaker := Bit(removes && own), Bit(removes && !own);
    && AccountMoved(s.taker, x.taker, Bit(inserts) - fromTaker,
                    !e.perps || x.takerPosition.marginMode == ISOLATED_MARGIN)
    && AccountMoved(s.maker, x.maker, 0 - fromMaker, !e.perps || x.makerPosition.marginMode == ISOLATED_MARGIN)
    && x.totalOrders == s.totalOrders + Bit(inserts) - Bit(removes) && x.matching == s.matching
    && (e.perps ==>
          && PositionMoved(s.takerPosition, x.takerPosition, Bit(inserts) - fromTaker,
                           Bit(inserts && Tied(r.reduceOnly, r.triggerStatus))
                           - Bit(removes && own && Tied(o.reduceOnly, o.triggerStatus)))
          && PositionMoved(s.makerPosition, x.makerPosition, 0 - fromMaker,
                           0 - Bit(removes && !own && Tied(o.reduceOnly, o.triggerStatus))))
    && (!e.perps ==> x.takerPosition == s.takerPosition && x.makerPosition == s.makerPosition)
  }

  /** A fill moves no counter and leaves what an order counts as. */
  lemma MiddleCounters(s: State, e: Env, judge: Judge)
    requires Valid(s)
    ensures var r, d, m := s.registers[0], Decide(s, e, judge), Middle(s, e, Decide(s, e, judge));
            && m.taker == s.taker && m.maker == s.maker && m.totalOrders == s.totalOrders && m.matching == s.matching
            && |m.registers| > 0
            && PositionMoved(s.takerPosition, m.takerPosition, 0, 0)
               && PositionMoved(s.makerPosition, m.makerPosition, 0, 0)
            && (!e.perps ==> m.takerPosition == s.takerPosition && m.makerPosition == s.makerPosition)
            && m.order.reduceOnly == s.order.reduceOnly && m.order.triggerStatus == s.order.triggerStatus
            && m.registers[0].reduceOnly == r.reduceOnly && m.registers[0].triggerStatus == r.triggerStatus
  {
    var d := Decide(s, e, judge);
    if d.live && e.perps {
      var t := InputFor(s, e, d.base);
      Trades.ModeAndFraction(t.taker, t.takerType, e.risk, Trades.TakerDelta(t), t.quote, t.base,
                             Trades.FeeOf(t, t.takerFee));
      Trades.ModeAndFraction(t.maker, t.makerType, e.risk, -Trades.TakerDelta(t), t.quote, t.base,
                             Trades.FeeOf(t, t.makerFee));
    }
  }

  /** Two states with the same accounts, positions and total count the same, and go on alike. */
  predicate SameCounters(x: State, y: State) {
    && x.taker == y.taker && x.maker == y.maker && x.totalOrders == y.totalOrders && x.matching == y.matching
    && x.takerPosition == y.takerPosition && x.makerPosition == y.makerPosition
  }

  lemma CountersOfSame(s: State, t: State, x: State, y: State, e: Env, own: bool, removes: bool, inserts: bool,
                       o: AccountOrder, r: Register)
    requires CountersAfter(s, x, e, own, removes, inserts, o, r) && SameCounters(s, t) && SameCounters(x, y)
    ensures CountersAfter(t, y, e, own, removes, inserts, o, r)
  {
  }

  lemma UncountedCounters(m: State, e: Env, ofTaker: bool, r: Register)
    ensures CountersAfter(m, Uncounted(m, e, ofTaker), e, ofTaker, true, false, m.order, r)
  {
  }

  lemma RemovalCounts(m: State, e: Env, ofTaker: bool, market: nat)
    ensures SameCounters(Uncounted(m, e, ofTaker), WithoutMaker(m, e, ofTaker, market))
  {
    var o, released := m.order, Released(m, e, ofTaker);
    ChildrenOnlyWrite(released, true, market, o.owner, o.child0, o.child1, o.initial - o.remaining, 7);
  }

  lemma RemoveCounters(m: State, e: Env, ofTaker: bool, market: nat, r: Register)
    ensures CountersAfter(m, WithoutMaker(m, e, ofTaker, market), e, ofTaker, true, false, m.order, r)
  {
    UncountedCounters(m, e, ofTaker, r);
    RemovalCounts(m, e, ofTaker, market);
    CountersOfSame(m, m, Uncounted(m, e, ofTaker), WithoutMaker(m, e, ofTaker, market), e, ofTaker, true, false,
                   m.order, r);
  }

  lemma InsertCounters(m: State, e: Env, r: Register, own: bool, o: AccountOrder)
    ensures CountersAfter(m, WithTaker(m, e, r), e, own, false, true, o, r)
  {
  }

  lemma LeaveCounts(m: State, leaves: bool, r: Register)
    ensures SameCounters(m, LeaveStep(m, leaves, r))
  {
    ChildrenOnlyWrite(m, leaves, r.market, r.account, r.child0, r.child1, r.initialSize - r.size, 5);
  }

  lemma PopCounts(m: State, pops: bool)
    requires |m.registers| > 0
    ensures SameCounters(m, PopStep(m, pops)) && PopStep(m, pops).order == m.order
  {
  }

  lemma FinishCounters(s: State, m: State, e: Env, d: Decision)
    requires Valid(s) && |m.registers| > 0 && !(d.cancelMaker && d.insertTaker)
    ensures CountersAfter(m, Finish(s, m, e, d), e, SameAccount(s), d.cancelMaker, d.insertTaker, m.order,
                          m.registers[0])
  {
    var r, popped, own := m.registers[0], PopStep(m, Pops(d)), SameAccount(s);
    var removed := RemoveStep(popped, e, d.cancelMaker, own, r.market);
    var left, x := LeaveStep(removed, d.cancelTaker, r), Finish(s, m, e, d);
    PopCounts(m, Pops(d));
    LeaveCounts(removed, d.cancelTaker, r);
    if d.cancelMaker {
      RemoveCounters(popped, e, own, r.market, r);
      CountersOfSame(popped, m, removed, x, e, own, true, false, m.order, r);
    } else if d.insertTaker {
      InsertCounters(left, e, r, own, m.order);
      CountersOfSame(left, m, x, x, e, own, false, true, m.order, r);
    }
  }

  lemma CountersFromFill(s: State, m: State, x: State, e: Env, own: bool, d: Decision)
    requires |s.registers| > 0 && |m.registers| > 0
    requires CountersAfter(m, x, e, own, d.cancelMaker, d.insertTaker, m.order, m.registers[0])
    requires m.taker == s.taker && m.maker == s.maker && m.totalOrders == s.totalOrders && m.matching == s.matching
    requires PositionMoved(s.takerPosition, m.takerPosition, 0, 0)
             && PositionMoved(s.makerPosition, m.makerPosition, 0, 0)
    requires !e.perps ==> m.takerPosition == s.takerPosition && m.makerPosition == s.makerPosition
    requires m.order.reduceOnly == s.order.reduceOnly && m.order.triggerStatus == s.order.triggerStatus
    requires m.registers[0].reduceOnly == s.registers[0].reduceOnly
    requires m.registers[0].triggerStatus == s.registers[0].triggerStatus
    ensures CountersAfter(s, x, e, own, d.cancelMaker, d.insertTaker, s.order, s.registers[0])
  {
  }

  /**
   Counters: a removed order is taken off its owner's account and position, an inserted one is added to the
   taker's; nobody else's move.
   */
  lemma CountersExactly(s: State, e: Env, judge: Judge)
    requires Valid(s)
    ensures var r, d := s.registers[0], Decide(s, e, judge);
            CountersAfter(s, Execute(s, e, judge), e, s.order.owner == r.account, d.cancelMaker, d.insertTaker, s.order,
                          r)
  {
    var r, d := s.registers[0], Decide(s, e, judge);
    var m := Middle(s, e, d);
    var x := Finish(s, m, e, d);
    NeverBoth(s, e, judge);
    MiddleCounters(s, e, judge);
    FinishCounters(s, m, e, d);
    CountersFromFill(s, m, x, e, SameAccount(s), d);
    FollowUpOnlyWrites(s, x, e, d, judge(d.base));
    CountersOfSame(s, s, x, Execute(s, e, judge), e, SameAccount(s), d.cancelMaker, d.insertTaker, s.order, r);
  }

  // ---------- positions and open interest ----------

  /** The same position, whatever its counters. */
  predicate SamePosition(p: Position, q: Position) {
    p == q.(orders := p.orders, tiedOrders := p.tiedOrders)
  }

  /** The trade of two positions: the quote is that of the base at the maker's price. */
  function TradeOf(s: State, e: Env, base: nat): Trades.TradeEffect
    requires Valid(s)
  {
    var quote := base * s.leaf.price * e.risk.quoteMultiplier;
    Trades.PerpsTrade(Trades.TradeInput(s.registers[0].isAsk, base, quote, s.takerPosition, s.makerPosition,
                                        s.taker.accountType, s.maker.accountType, e.takerFee, e.makerFee), e.risk)
  }

  /**
   Only a perps trade changes positions and open interest, and it changes them as the settlement says: the
   taker's position by the base down for an ask and up for a bid, the maker's the other way.
   */
  lemma PositionsAfter(s: State, e: Env, judge: Judge)
    requires Valid(s)
    ensures var d, x := Decide(s, e, judge), Execute(s, e, judge);
            if d.live && e.perps then
              var move := if s.registers[0].isAsk then 0 - d.base else d.base;
              && SamePosition(x.takerPosition, TradeOf(s, e, d.base).taker.position)
              && SamePosition(x.makerPosition, TradeOf(s, e, d.base).maker.position)
              && x.takerPosition.size == s.takerPosition.size + move
              && x.makerPosition.size == s.makerPosition.size - move
              && x.openInterest == s.openInterest + Abs(x.takerPosition.size) - Abs(s.takerPosition.size)
                                   + Abs(x.makerPosition.size) - Abs(s.makerPosition.size)
            else
              && x.openInterest == s.openInterest && SamePosition(x.makerPosition, s.makerPosition)
              && SamePosition(x.takerPosition, if d.insertTaker && e.perps
                                               then InitIfEmpty(s.takerPosition, s.taker.accountType,
                                                                e.risk.defaultMarginMode)
                                               else s.takerPosition)
  {
    var d := Decide(s, e, judge);
    var m := Middle(s, e, d);
    NeverBoth(s, e, judge);
    FinishPositions(s, m, e, d);
    FollowUpOnlyWrites(s, Finish(s, m, e, d), e, d, judge(d.base));
    if d.live && e.perps {
      TradePositions(s, e, d.base);
    }
  }

  lemma TradePositions(s: State, e: Env, base: nat)
    requires Valid(s) && e.perps
    ensures var m, effect := AfterTrade(s, e, base), TradeOf(s, e, base);
            var move := if s.registers[0].isAsk then 0 - base else base;
            && m.takerPosition == effect.taker.position && m.makerPosition == effect.maker.position
            && m.takerPosition.size == s.takerPosition.size + move
            && m.makerPosition.size == s.makerPosition.size - move
            && m.openInterest == s.openInterest + Abs(m.takerPosition.size) - Abs(s.takerPosition.size)
                                 + Abs(m.makerPosition.size) - Abs(s.makerPosition.size)
            && |m.registers| > 0 && m.taker == s.taker
  {
    PositionsMove(s, e, base);
    var t := InputFor(s, e, base);
    Trades.SideKeepsCollateral(t.taker, t.takerType, e.risk, Trades.TakerDelta(t), t.quote, t.base,
                               Trades.FeeOf(t, t.takerFee));
    Trades.SideKeepsCollateral(t.maker, t.makerType, e.risk, -Trades.TakerDelta(t), t.quote, t.base,
                               Trades.FeeOf(t, t.makerFee));
  }

  lemma FinishPositions(s: State, m: State, e: Env, d: Decision)
    requires Valid(s) && |m.registers| > 0 && !(d.cancelMaker && d.insertTaker)
    ensures var x := Finish(s, m, e, d);
            && x.openInterest == m.openInterest && SamePosition(x.makerPosition, m.makerPosition)
            && SamePosition(x.takerPosition, if d.insertTaker && e.perps
                                             then InitIfEmpty(m.takerPosition, m.taker.accountType,
                                                              e.risk.defaultMarginMode)
                                             else m.takerPosition)
  {
    var r, popped := m.registers[0], PopStep(m, Pops(d));
    var removed := RemoveStep(popped, e, d.cancelMaker, SameAccount(s), r.market);
    PopCounts(m, Pops(d));
    LeaveCounts(removed, d.cancelTaker, r);
    FinishCounts(s, m, e, d);
    if d.cancelMaker {
      RemovalCounts(popped, e, SameAccount(s), r.market);
    }
  }

  // ---------- instructions ----------

  /** One more instruction at a slot, under a condition. */
  function With(w: seq<Write>, condition: bool, slot: nat, instruction: Register): seq<Write> {
    if condition then w + [Write(slot, instruction)] else w
  }

  /** The children of an order that leaves: cancelled if nothing of it was filled, else triggered for what was. */
  function WithChildren(w: seq<Write>, leaves: bool, market: nat, owner: nat, child0: nat, child1: nat, filled: int,
                        top: nat): seq<Write>
    requires top > 0
  {
    var kind := if filled == 0 then CANCEL_SINGLE_ORDER else TRIGGER_CHILD_ORDER;
    var any := EMPTY_REGISTER.(instruction := kind, market := market, account := owner, size := filled);
    With(With(w, leaves && child0 != 0, top, any.(orderIndex := child0)),
         leaves && child1 != 0, top - 1, any.(orderIndex := child1))
  }

  /** A position that changed its side takes the orders tied to it with it. */
  function WithTied(w: seq<Write>, live: bool, market: nat, owner: nat, before: Position, after: Position, slot: nat):
      seq<Write>
  {
    With(w, live && Sign(before.size) != Sign(after.size) && after.tiedOrders != 0, slot,
         EMPTY_REGISTER.(instruction := CANCEL_POSITION_TIED_ORDERS, market := market, account := owner,
                         size := after.tiedOrders))
  }

  /** An integrator's fee goes from the fee account to its collector, unless they are the same. */
  function WithFee(w: seq<Write>, paid: bool, feeAccount: nat, collector: nat, amount: nat, slot: nat): seq<Write> {
    With(w, paid && amount != 0 && collector != feeAccount, slot,
         EMPTY_REGISTER.(instruction := TRANSFER_ASSET, account := feeAccount, slippage := collector, size := amount))
  }

  /** The instructions of both orders that leave, with what is left of them. */
  function LeaveWrites(w: seq<Write>, d: Decision, r: Register, o: AccountOrder, size: int,
                       remaining: int): seq<Write> {
    WithChildren(WithChildren(w, d.cancelMaker, r.market, o.owner, o.child0, o.child1, o.initial - remaining, 7),
                 d.cancelTaker, r.market, r.account, r.child0, r.child1, r.initialSize - size, 5)
  }

  /** The instructions that follow a trade, from the positions it leaves. */
  function TradeWrites(w: seq<Write>, s: State, e: Env, d: Decision, j: Judgement, taker: Position, maker: Position):
      seq<Write>
    requires Valid(s)
  {
    var r, o, paid := s.registers[0], s.order, d.live && d.base != 0 && e.feeAccountExists;
    var tied := WithTied(WithTied(w, d.live, r.market, r.account, s.takerPosition, taker, 3),
                         d.live, r.market, o.owner, s.makerPosition, maker, 2);
    WithFee(WithFee(tied, paid, e.feeAccount.index, r.collector, j.takerFeeOut, 1),
            paid, e.feeAccount.index, o.collector, j.makerFeeOut, 0)
  }

  lemma ChildrenWrite(s: State, leaves: bool, market: nat, owner: nat, child0: nat, child1: nat, filled: int, top: nat)
    requires top > 0
    ensures PutOrderChildren(s, leaves, market, owner, child0, child1, filled, top).writes
            == WithChildren(s.writes, leaves, market, owner, child0, child1, filled, top)
  {
  }

  lemma RemoveWrites(m: State, e: Env, removes: bool, ofTaker: bool, market: nat)
    ensures var o := m.order;
            RemoveStep(m, e, removes, ofTaker, market).writes
            == WithChildren(m.writes, removes, market, o.owner, o.child0, o.child1, o.initial - o.remaining, 7)
  {
    var o, released := m.order, Released(m, e, ofTaker);
    if removes {
      ReleasedKeepsWrites(m, e, ofTaker);
      ChildrenWrite(released, true, market, o.owner, o.child0, o.child1, o.initial - o.remaining, 7);
    }
  }

  lemma BeforeWrites(m: State, e: Env, d: Decision, own: bool)
    requires |m.registers| > 0
    ensures var r, o := m.registers[0], m.order;
            BeforeInsert(m, e, Pops(d), d.cancelMaker, d.cancelTaker, own).writes
            == LeaveWrites(m.writes, d, r, o, r.size, o.remaining)
  {
    var r, popped := m.registers[0], PopStep(m, Pops(d));
    var removed := RemoveStep(popped, e, d.cancelMaker, own, r.market);
    RemoveWrites(popped, e, d.cancelMaker, own, r.market);
    ChildrenWrite(removed, d.cancelTaker, r.market, r.account, r.child0, r.child1, r.initialSize - r.size, 5);
  }

  lemma FinishWrites(s: State, m: State, e: Env, d: Decision)
    requires Valid(s) && |m.registers| > 0
    ensures var r, o := m.registers[0], m.order;
            Finish(s, m, e, d).writes == LeaveWrites(m.writes, d, r, o, r.size, o.remaining)
  {
    BeforeWrites(m, e, d, SameAccount(s));
    InsertKeepsWrites(BeforeInsert(m, e, Pops(d), d.cancelMaker, d.cancelTaker, SameAccount(s)), e, d.insertTaker,
                      m.registers[0]);
  }

  lemma FollowUpWrites(s: State, m: State, e: Env, d: Decision, j: Judgement)
    requires Valid(s)
    ensures FollowUp(s, m, e, d, j).writes == TradeWrites(m.writes, s, e, d, j, m.takerPosition, m.makerPosition)
  {
  }

  /** A fill takes its base off both orders and keeps what their instructions are made of. */
  lemma MiddleInstructions(s: State, e: Env, judge: Judge)
    requires Valid(s)
    ensures var r, o, d, m := s.registers[0], s.order, Decide(s, e, judge), Middle(s, e, Decide(s, e, judge));
            && |m.registers| > 0
            && LeaveWrites(m.writes, d, m.registers[0], m.order, m.registers[0].size, m.order.remaining)
               == LeaveWrites(s.writes, d, r, o, r.size - d.base, o.remaining - d.base)
  {
    MiddleLeaf(s, e, judge);
    MiddleRegisters(s, e, judge);
  }

  /**
   The instructions of one execution, each in its own slot: the children of both orders that leave, the orders
   tied to positions that turned around, and the integrators' fees of a trade.
   */
  lemma InstructionsExactly(s: State, e: Env, judge: Judge)
    requires Valid(s)
    ensures var r, o, d, x := s.registers[0], s.order, Decide(s, e, judge), Execute(s, e, judge);
            var left := LeaveWrites(s.writes, d, r, o, r.size - d.base, o.remaining - d.base);
            x.writes == TradeWrites(left, s, e, d, judge(d.base), x.takerPosition, x.makerPosition)
  {
    var d := Decide(s, e, judge);
    var m := Middle(s, e, d);
    MiddleInstructions(s, e, judge);
    FinishWrites(s, m, e, d);
    FollowUpWrites(s, Finish(s, m, e, d), e, d, judge(d.base));
    FollowUpOnlyWrites(s, Finish(s, m, e, d), e, d, judge(d.base));
  }
}
