/**
 The matching executions as the circuit runs them: one pass over all cases, threading a flag that
 says whether anything has been decided yet, and updating the transaction state in place.
 */
module MatchingEngine {
  import opened Positions
  import opened Trades
  import opened PreExecution
  import opened Orders
  import opened MatchingRules
  import opened MatchingLight
  import opened MatchingTheorems

  class TxState {
    var matching: bool
    var registers: seq<Register>
    var count: int
    var leaf: Leaf
    var order: AccountOrder
    var taker: Account
    var maker: Account
    var takerPosition: Position
    var makerPosition: Position
    var takerAssets: seq<Asset>
    var makerAssets: seq<Asset>
    var totalOrders: int
    var openInterest: int
    var writes: seq<Write>
    const env: Env

    /** The state as a value. */
    function Value(): State
      reads this
    {
      State(matching, registers, count, leaf, order, taker, maker, takerPosition, makerPosition,
            takerAssets, makerAssets, totalOrders, openInterest, writes)
    }

    constructor (s: State, e: Env)
      ensures Value() == s && env == e
    {
      matching, registers, count, leaf, order := s.matching, s.registers, s.count, s.leaf, s.order;
      taker, maker, takerPosition, makerPosition := s.taker, s.maker, s.takerPosition, s.makerPosition;
      takerAssets, makerAssets, totalOrders := s.takerAssets, s.makerAssets, s.totalOrders;
      openInterest, writes, env := s.openInterest, s.writes, e;
    }

    /** The cases that need no maker order. */
    method EarlyCases() returns (ok: bool, live: bool, cancelTaker: bool, insertTaker: bool)
      requires Valid(Value())
      ensures ok <==> EarlyChecks(Value(), env)
      ensures live <==> EarlyRule(Value(), env) == Continue
      ensures cancelTaker <==> EarlyRule(Value(), env) == CancelTaker
      ensures insertTaker <==> EarlyRule(Value(), env) == Insert
    {
      var r := registers[0];
      ok, live, cancelTaker, insertTaker := true, matching, false, false;
      if live && r.triggerStatus != TRIGGER_NA {
        insertTaker, live := live, false;
      }
      if live && env.perps && WrongWay(takerPosition.size, r.isAsk) && r.reduceOnly {
        cancelTaker, live := live, false;
      }
      var empty := LeafEmpty(leaf);
      if live && empty {
        ok := leaf.price == r.price && leaf.nonce == r.nonce && order.owner == r.account
              && order.index0 == r.orderIndex && order.index1 == r.clientOrderIndex;
      }
      if live && r.timeInForce == IOC && env.oppositeTotal == 0 {
        cancelTaker, live := live, false;
      }
      ok := ok && (live ==> env.betterBase == 0);
      if live && r.timeInForce == IOC && empty {
        cancelTaker, live := live, false;
      }
      if live && empty {
        ok := ok && LimitType(r.orderType);
        insertTaker, live := live, false;
      }
      ok := ok && (live ==> leaf.price == order.price && leaf.nonce == order.nonce
                            && MarketOfOrder(order.index0) == env.market.index);
    }

    /** Takes a base off the register and the maker order, and shows the rest on the leaf. */
    method Fill(base: nat, slippage: int)
      requires Valid(Value())
      modifies this`registers, this`order, this`leaf
      ensures Value() == Filled(old(Value()), base, slippage)
    {
      registers := registers[0 := registers[0].(size := registers[0].size - base, slippage := slippage)];
      order := order.(remaining := order.remaining - base);
      leaf := WithRemaining(leaf, order.isAsk, order.remaining);
    }

    /** Unlocks what some base of the maker order had locked, for a spot limit order of an ordinary account. */
    method Unlock(assets: seq<Asset>, owner: Account, base: int) returns (ok: bool, after: seq<Asset>)
      ensures ok <==> CanUnlock(assets, env, order, base, owner)
      ensures after == Unlocked(assets, env, order, base, owner)
    {
      var locks := !env.perps && order.orderType == LIMIT_ORDER && owner.accountType != INSURANCE_FUND;
      var amount := LockedAmount(env.market, order.isAsk, base, order.price);
      ok, after := ChangeLockedBalance(locks, assets, LockedAsset(env.market, order.isAsk), amount, false);
    }

    /** Taker and maker of one account: both shrink, unless the taker is post-only. */
    method ApplySelfTradeReduce(flag: bool, base: nat, live: bool, cancelTaker: bool, cancelMaker: bool)
        returns (ok: bool, live': bool, cancelTaker': bool, cancelMaker': bool)
      requires Valid(Value()) && base == FullBase(Value())
      modifies this
      ensures var s, rule := old(Value()), ReduceRule(old(Value()));
              if live && flag then
                && !live'
                && Value() == (if rule == Reduce then AfterReduce(s, env, base) else s)
                && (ok <==> rule == Reduce ==> CanUnlock(s.takerAssets, env, s.order, base, s.taker))
                && cancelTaker' == (cancelTaker || rule == CancelTaker || Front(s).size == base)
                && cancelMaker' == (cancelMaker || (rule == Reduce && s.order.remaining == base))
              else
                ok && Value() == s && live' == live && cancelTaker' == cancelTaker && cancelMaker' == cancelMaker
    {
      ok, live', cancelTaker', cancelMaker' := true, live, cancelTaker, cancelMaker;
      if live' && flag && registers[0].timeInForce == POST_ONLY {
        cancelTaker', live' := live', false;
      }
      if live' && flag {
        ok, takerAssets := Unlock(takerAssets, taker, base);
        Fill(base, registers[0].slippage);
        if registers[0].size == 0 {
          cancelTaker' := live';
        }
        if order.remaining == 0 {
          cancelMaker' := live';
        }
        live' := false;
      }
    }

    /** A maker order the taker must not trade with: self-trades, expiry, and accounts of one master. */
    method SelfTradeCases(live: bool, cancelTaker: bool)
        returns (ok: bool, live': bool, cancelTaker': bool, cancelMaker': bool)
      requires Valid(Value())
      modifies this
      ensures var s, rule := old(Value()), SelfRule(old(Value()), env);
              if live then
                && (live' <==> rule == Continue)
                && Value() == (if rule == Reduce then AfterReduce(s, env, FullBase(s)) else s)
                && (ok <==> rule == Reduce ==> CanUnlock(s.takerAssets, env, s.order, FullBase(s), s.taker))
                && cancelTaker' == (cancelTaker || rule == CancelTaker || rule == CancelBoth
                                    || (rule == Reduce && Front(s).size == FullBase(s)))
                && cancelMaker' == (rule == CancelMaker || rule == CancelBoth
                                    || (rule == Reduce && s.order.remaining == FullBase(s)))
              else
                ok && Value() == s && !live' && cancelTaker' == cancelTaker && !cancelMaker'
    {
      live', cancelTaker', cancelMaker' := live, cancelTaker, false;
      var r, base := registers[0], FullBase(Value());
      var feesOff := FeeDisabled(r.collector);
      var flags := if feesOff then r.takerFeeOrFlags else 0;
      var mode, masterMode := flags % 4, flags / 4 % 2 == 1;
      var expired := order.expiry <= env.timestamp;
      var sameAccount := order.owner == r.account;
      var feeSelfTrade := sameAccount && !feesOff;

      if live' && feeSelfTrade && expired {
        cancelMaker', live' := live', false;
      }
      ok, live', cancelTaker', cancelMaker' :=
          ApplySelfTradeReduce(feeSelfTrade, base, live', cancelTaker', cancelMaker');

      var selfTrade := !masterMode && sameAccount;
      if live' && selfTrade && expired {
        cancelMaker', live' := live', false;
      }
      live', cancelTaker', cancelMaker' := ExpireModes(selfTrade, mode, live', cancelTaker', cancelMaker');
      var ok2;
      if live' {
        ok2, live', cancelTaker', cancelMaker' :=
          ApplySelfTradeReduce(selfTrade && mode == 3, base, live', cancelTaker', cancelMaker');
        ok := ok && ok2;
      }

      if live' && (SwitchTriggered(maker, env.timestamp) || expired) {
        cancelMaker', live' := live', false;
      }
      var sameMaster := masterMode && maker.master == taker.master && feesOff;
      live', cancelTaker', cancelMaker' := ExpireModes(sameMaster, mode, live', cancelTaker', cancelMaker');
    }

    /** The three expiring self-trade behaviours. */
    method ExpireModes(flag: bool, mode: nat, live: bool, cancelTaker: bool, cancelMaker: bool)
        returns (live': bool, cancelTaker': bool, cancelMaker': bool)
      ensures live' <==> live && !(flag && mode < 3)
      ensures cancelMaker' <==> cancelMaker || (live && flag && (mode == 0 || mode == 2))
      ensures cancelTaker' <==> cancelTaker || (live && flag && (mode == 1 || mode == 2))
    {
      live', cancelTaker', cancelMaker' := live, cancelTaker, cancelMaker;
      if live' && flag && mode == 0 {
        cancelMaker', live' := live', false;
      }
      if live' && flag && mode == 1 {
        cancelTaker', live' := live', false;
      }
      if live' && flag && mode == 2 {
        cancelTaker', cancelMaker', live' := live', live', false;
      }
    }

    /** The remaining cases before a trade is sized. */
    method LateCases(live: bool, cancelTaker: bool)
        returns (ok: bool, live': bool, cancelTaker': bool, cancelMaker': bool)
      requires Valid(Value())
      ensures ok <==> live ==> MakerIsOther(Value())
      ensures var r := Front(Value());
              var postOnly := r.timeInForce == POST_ONLY;
              var wrongWay := env.perps && order.reduceOnly && WrongWay(makerPosition.size, order.isAsk);
              && (live' <==> live && !postOnly && !wrongWay)
              && (cancelTaker' <==> cancelTaker || (live && postOnly))
              && (cancelMaker' <==> live && !postOnly && wrongWay)
    {
      live', cancelTaker', cancelMaker' := live, cancelTaker, false;
      ok := live' ==> order.owner == maker.index && taker.index != maker.index;
      if live' && registers[0].timeInForce == POST_ONLY {
        cancelTaker', live' := live', false;
      }
      if env.perps && live' && WrongWay(makerPosition.size, order.isAsk) && order.reduceOnly {
        cancelMaker', live' := live', false;
      }
    }

    /** The base both orders allow, capped by the positions that reduce-only orders may not cross. */
    method CapBase(live: bool) returns (base: nat)
      requires Valid(Value())
      ensures live ==> base == CappedBase(Value())
    {
      var r := registers[0];
      base := Min(order.remaining, r.size);
      if live && order.reduceOnly && Abs(makerPosition.size) < base {
        base := Abs(makerPosition.size);
      }
      if live && r.reduceOnly && Abs(takerPosition.size) < base {
        base := Abs(takerPosition.size);
      }
    }

    /** The trade's size: a market order trades no further than its slippage allowance lasts. */
    method SizeTrade(live: bool, cancelTaker: bool)
        returns (ok: bool, live': bool, cancelTaker': bool, base: nat, tooMuch: bool)
      requires Valid(Value())
      ensures var s := Value();
              var empty := MarketType(Front(s).orderType) && TradeBase(s) == 0;
              && (live' <==> live && !empty)
              && (cancelTaker' <==> cancelTaker || (live && empty))
              && (ok <==> live' ==> FeeCollectorOk(env))
              && (live' ==> base == TradeBase(s) && tooMuch == TooMuchSlippage(s))
    {
      live', cancelTaker' := live, cancelTaker;
      base := CapBase(live);
      var r := registers[0];
      var market := live' && MarketType(r.orderType);
      var askSlips, bidSlips := r.isAsk && r.price > leaf.price, !r.isAsk && r.price < leaf.price;
      var slips := askSlips || bidSlips;
      var difference := (r.price - leaf.price) * if askSlips then 1 else -1;
      var allowed := base;
      if slips {
        allowed := r.slippage / difference;
      }
      var different := allowed != base;
      if market {
        base := Min(allowed, base);
      }
      if market && base == 0 {
        cancelTaker', live' := live', false;
      }
      tooMuch := market && slips && base == allowed && different;
      ok := live' ==> env.feeAccount.accountType == INSURANCE_FUND || env.feeAccount.index == TREASURY;
    }

    /** The perps checks; the notional test is not masked by whether a perps trade is computed. */
    method IsValidPerpsTrade(live: bool, newTaker: Position, newOpenInterest: int, j: Judgement, cancelTaker: bool,
                             cancelMaker: bool)
        returns (live': bool, cancelTaker': bool, cancelMaker': bool)
      ensures var enabled := live && env.perps;
              var full := NotionalOf(openInterest, env.risk) > env.openInterestLimit;
              var after := NotionalOf(newOpenInterest, env.risk);
              var fund := taker.accountType == INSURANCE_FUND || maker.accountType == INSURANCE_FUND;
              var bad := j.takerBad
                         || (!fund && if full then GrowsOrFlips(takerPosition, newTaker)
                             else after > env.openInterestLimit)
                         || newOpenInterest > MAX_OPEN_INTEREST || after > MAX_NOTIONAL;
              && cancelTaker' == (if enabled then cancelTaker || bad else cancelTaker && after <= MAX_NOTIONAL)
              && cancelMaker' == (cancelMaker || (enabled && j.makerBad))
              && (live' <==> live && !cancelTaker' && !cancelMaker')
    {
      var enabled := live && env.perps;
      var growsOrFlips := Abs(newTaker.size) >= Abs(takerPosition.size)
          || -Sign(takerPosition.size) == Sign(newTaker.size);
      var unit := env.risk.markPrice * env.risk.quoteMultiplier;
      var before, after := openInterest * unit, newOpenInterest * unit;
      assert before == NotionalOf(openInterest, env.risk) && after == NotionalOf(newOpenInterest, env.risk);
      var notFund := !(taker.accountType == INSURANCE_FUND || maker.accountType == INSURANCE_FUND);
      var full := before > env.openInterestLimit;
      var cancel := full && growsOrFlips && notFund && enabled;
      cancel := cancel || (!full && after > env.openInterestLimit && notFund && enabled);
      cancel := cancel || (newOpenInterest > MAX_OPEN_INTEREST && enabled);
      cancel := cancel || after > MAX_NOTIONAL;
      cancel := cancel || (enabled && j.takerBad);
      cancelTaker' := if cancel then enabled else cancelTaker;
      cancelMaker' := if enabled && j.makerBad then enabled else cancelMaker;
      live' := live && !cancelTaker';
      live' := live' && !cancelMaker';
    }

    /** The spot checks. */
    method IsValidSpotTrade(live: bool, j: Judgement, cancelTaker: bool, cancelMaker: bool)
        returns (live': bool, cancelTaker': bool, cancelMaker': bool)
      ensures cancelTaker' == (cancelTaker || (live && !env.perps && j.takerBad))
      ensures cancelMaker' == (cancelMaker || (live && !env.perps && j.makerBad))
      ensures live' <==> live && !cancelTaker' && !cancelMaker'
    {
      var enabled := live && !env.perps;
      cancelTaker' := (enabled && j.takerBad) || cancelTaker;
      live' := live && !cancelTaker';
      cancelMaker' := (enabled && j.makerBad) || cancelMaker;
      live' := live' && !cancelMaker';
    }

    /** A market order's slippage allowance after a trade at the maker's price. */
    method Slip(base: nat) returns (slippage: int)
      requires Valid(Value())
      ensures slippage == SlippageAfter(Value(), base)
    {
      var r := registers[0];
      var ask, bid := leaf.price - r.price, r.price - leaf.price;
      var delta := (if r.isAsk then ask else bid) * base;
      slippage := if MarketType(r.orderType) then r.slippage + delta else r.slippage;
    }

    /** Applies a trade: open interest, sizes, slippage, the maker's locked balance and both positions. */
    method Settle(base: nat, newTaker: Position, newMaker: Position, newOpenInterest: int) returns (ok: bool)
      requires Valid(Value())
      modifies this
      ensures ok <==> CanUnlock(old(makerAssets), env, old(order), base, old(maker))
      ensures Value() == Traded(old(Value()), env, base, newTaker, newMaker, newOpenInterest)
    {
      var slippage := Slip(base);
      openInterest := newOpenInterest;
      ok, makerAssets := Unlock(makerAssets, maker, base);
      Fill(base, slippage);
      takerPosition, makerPosition := newTaker, newMaker;
    }

    /** Computes a trade and asks whether it may happen. */
    method JudgeTrade(j: Judgement, base: nat, live: bool, cancelTaker: bool, cancelMaker: bool)
        returns (ok: bool, live': bool, cancelTaker': bool, cancelMaker': bool,
                 newTaker: Position, newMaker: Position, newOpenInterest: int)
      requires Valid(Value()) && (live ==> !cancelTaker && !cancelMaker)
      ensures ok <==> live && env.perps ==> PerpsTrade(InputFor(Value(), env, base), env.risk).fee >= 0
      ensures var verdict := VerdictRule(Value(), env, base, j);
              if live then
                && (live' <==> verdict == Continue)
                && (cancelTaker' <==> verdict == CancelTaker || verdict == CancelBoth)
                && (cancelMaker' <==> verdict == CancelMaker || verdict == CancelBoth)
                && AfterTrade(Value(), env, base) == Traded(Value(), env, base, newTaker, newMaker, newOpenInterest)
              else
                !live' && cancelTaker' == (cancelTaker && KeepsCancel(Value(), env)) && cancelMaker' == cancelMaker
    {
      ok := true;
      newTaker, newMaker, newOpenInterest := takerPosition, makerPosition, openInterest;
      if live && env.perps {
        var effect;
        ok, effect := ApplyPerpsTrade(InputFor(Value(), env, base), env.risk);
        newTaker, newMaker := effect.taker.position, effect.maker.position;
        newOpenInterest := openInterest + effect.taker.openInterest + effect.maker.openInterest;
      }
      live', cancelTaker', cancelMaker' :=
          IsValidPerpsTrade(live, newTaker, newOpenInterest, j, cancelTaker, cancelMaker);
      live', cancelTaker', cancelMaker' := IsValidSpotTrade(live', j, cancelTaker', cancelMaker');
    }

    /** The trade: checked and settled; afterwards either order may leave. */
    method TradeCases(j: Judgement, base: nat, tooMuch: bool, live: bool, cancelTaker: bool, cancelMaker: bool)
        returns (ok: bool, live': bool, cancelTaker': bool, cancelMaker': bool)
      requires Valid(Value()) && (live ==> !cancelTaker && !cancelMaker && tooMuch == TooMuchSlippage(Value()))
      modifies this
      ensures var s := old(Value());
              var verdict := VerdictRule(s, env, base, j);
              if live then
                && (live' <==> verdict == Continue)
                && Value() == (if live' then AfterTrade(s, env, base) else s)
                && cancelTaker' == (if live' then TakerLeaves(s, env, base, j)
                                    else verdict == CancelTaker || verdict == CancelBoth)
                && cancelMaker' == (if live' then MakerLeaves(s, env, base)
                                    else verdict == CancelMaker || verdict == CancelBoth)
                && (ok <==> && (env.perps ==> PerpsTrade(InputFor(s, env, base), env.risk).fee >= 0)
                            && (live' ==> env.feesAllowed && CanUnlock(s.makerAssets, env, s.order, base, s.maker)))
              else
                ok && !live' && Value() == s && cancelTaker' == (cancelTaker && KeepsCancel(s, env))
                    && cancelMaker' == cancelMaker
    {
      var newTaker, newMaker, newOpenInterest;
      ok, live', cancelTaker', cancelMaker', newTaker, newMaker, newOpenInterest :=
        JudgeTrade(j, base, live, cancelTaker, cancelMaker);
      if live' {
        var unlocked := Settle(base, newTaker, newMaker, newOpenInterest);
        ok := ok && env.feesAllowed && unlocked;
        var r := registers[0];
        if r.size == 0 || (r.reduceOnly && WrongWay(newTaker.size, r.isAsk)) || tooMuch
           || (r.orderType == LIQUIDATION_ORDER && !j.inLiquidation)
        {
          cancelTaker' := live';
        }
        if order.remaining == 0 || (order.reduceOnly && WrongWay(newMaker.size, order.isAsk)) {
          cancelMaker' := live';
        }
      }
    }

    method PopFront(enabled: bool) returns (ok: bool)
      requires |registers| > 0
      modifies this`registers, this`count
      ensures ok <==> enabled ==> old(count) != 0
      ensures Value() == PopStep(old(Value()), enabled)
    {
      ok := enabled ==> count != 0;
      if enabled {
        var i := 0;
        ghost var was := registers;
        while i + 1 < |registers|
          invariant 0 <= i < |registers| == |was|
          invariant forall k :: 0 <= k < i ==> registers[k] == was[k + 1]
          invariant forall k :: i <= k < |was| ==> registers[k] == was[k]
          invariant count == old(count)
        {
          registers := registers[i := registers[i + 1]];
          i := i + 1;
        }
        registers := registers[i := EMPTY_REGISTER];
        assert registers == Popped(was);
        count := count - 1;
      }
    }

    /** Takes one order off the counters of the account at a slot. */
    method DecrementOrderCount(ofTaker: bool)
      modifies this`totalOrders, this`taker, this`maker, this`takerPosition, this`makerPosition
      ensures Value() == Uncounted(old(Value()), env, ofTaker)
    {
      totalOrders := totalOrders - 1;
      var isolated := IsIsolated(if ofTaker then takerPosition else makerPosition);
      if ofTaker {
        taker := CountedAccount(taker, env.perps, isolated, -1);
        if env.perps {
          takerPosition := CountedPosition(takerPosition, order.triggerStatus, order.reduceOnly, -1);
        }
      } else {
        maker := CountedAccount(maker, env.perps, isolated, -1);
        if env.perps {
          makerPosition := CountedPosition(makerPosition, order.triggerStatus, order.reduceOnly, -1);
        }
      }
    }

    method PutInstruction(enabled: bool, slot: nat, instruction: Register)
      modifies this`writes
      ensures Value() == Put(old(Value()), enabled, slot, instruction)
    {
      if enabled {
        writes := writes + [Write(slot, instruction)];
      }
    }

    method CancelChildOrders(enabled: bool, market: nat, owner: nat, child0: nat, child1: nat, top: nat)
      requires top > 0
      modifies this`writes
      ensures Value() == PutChildren(old(Value()), enabled, CANCEL_SINGLE_ORDER, market, owner, child0, child1, 0, top)
    {
      PutInstruction(enabled && child0 != 0, top, ChildInstruction(CANCEL_SINGLE_ORDER, market, owner, child0, 0));
      PutInstruction(enabled && child1 != 0, top - 1, ChildInstruction(CANCEL_SINGLE_ORDER, market, owner, child1, 0));
    }

    method TriggerChildOrders(enabled: bool, market: nat, owner: nat, child0: nat, child1: nat, size: int, top: nat)
      requires top > 0
      modifies this`writes
      ensures Value() == PutChildren(old(Value()), enabled, TRIGGER_CHILD_ORDER, market, owner, child0, child1, size,
                                     top)
    {
      PutInstruction(enabled && child0 != 0, top, ChildInstruction(TRIGGER_CHILD_ORDER, market, owner, child0, size));
      PutInstruction(enabled && child1 != 0, top - 1,
                     ChildInstruction(TRIGGER_CHILD_ORDER, market, owner, child1, size));
    }

    /** Both child passes; one of them writes nothing. */
    method HandleChildren(enabled: bool, market: nat, owner: nat, child0: nat, child1: nat, filled: int, top: nat)
      requires top > 0
      modifies this`writes
      ensures Value() == PutOrderChildren(old(Value()), enabled, market, owner, child0, child1, filled, top)
    {
      CancelChildOrders(enabled && filled == 0, market, owner, child0, child1, top);
      TriggerChildOrders(enabled && filled != 0, market, owner, child0, child1, filled, top);
    }

    /** Counts and locked balance of the maker order. */
    method ReleaseMaker(ofTaker: bool) returns (ok: bool)
      modifies this
      ensures ok <==> CanRemoveMaker(old(Value()), env, ofTaker)
      ensures Value() == Released(old(Value()), env, ofTaker)
    {
      if ofTaker {
        ok, takerAssets := Unlock(takerAssets, taker, order.remaining);
      } else {
        ok, makerAssets := Unlock(makerAssets, maker, order.remaining);
      }
      DecrementOrderCount(ofTaker);
    }

    /** Removes the maker order from its account and from the book. */
    method RemoveMaker(enabled: bool, ofTaker: bool, market: nat) returns (ok: bool)
      modifies this
      ensures ok <==> enabled ==> CanRemoveMaker(old(Value()), env, ofTaker)
      ensures Value() == RemoveStep(old(Value()), env, enabled, ofTaker, market)
    {
      ok := true;
      if enabled {
        var o := order;
        ok := ReleaseMaker(ofTaker);
        HandleChildren(true, market, o.owner, o.child0, o.child1, o.initial - o.remaining, 7);
        order := EmptyOrder(o);
        leaf := EmptyLeaf(leaf.price, leaf.nonce);
      }
    }

    /** Adds one order to the counters of the taker. */
    method IncrementOrderCount(r: Register)
      modifies this`totalOrders, this`taker, this`takerPosition
      ensures Value() == Counted(old(Value()), env, r)
    {
      totalOrders := totalOrders + 1;
      var position := InitIfEmpty(takerPosition, taker.accountType, env.risk.defaultMarginMode);
      if env.perps {
        takerPosition := CountedPosition(position, r.triggerStatus, r.reduceOnly, 1);
      }
      taker := CountedAccount(taker, env.perps, IsIsolated(position), 1);
    }

    /** Lets the taker's order rest, on the book or until its trigger. */
    method RestTaker(r: Register, onBook: bool, locks: bool) returns (ok: bool)
      modifies this
      ensures var s, o := old(Value()), OrderOf(r);
              var amount := LockedAmount(env.market, o.isAsk, o.remaining, o.price);
              && (ok <==> locks ==> CanChange(s.takerAssets, LockedAsset(env.market, o.isAsk), amount, true))
              && Value() == Rested(s, env, r, onBook, locks)
    {
      if onBook {
        leaf := LeafOf(r);
      }
      order := OrderOf(r);
      IncrementOrderCount(r);
      var amount := LockedAmount(env.market, order.isAsk, order.remaining, order.price);
      ok, takerAssets := ChangeLockedBalance(locks, takerAssets, LockedAsset(env.market, order.isAsk), amount, true);
    }

    method InsertTaker(enabled: bool, r: Register) returns (ok: bool)
      modifies this
      ensures ok <==> enabled ==> CanInsert(old(Value()), env, r)
      ensures Value() == InsertStep(old(Value()), env, enabled, r)
    {
      ok := true;
      if enabled {
        var onBook := r.triggerStatus == TRIGGER_NA;
        var locks := onBook && !env.perps && r.orderType == LIMIT_ORDER && taker.accountType != INSURANCE_FUND;
        ok := RestTaker(r, onBook, locks);
      }
    }

    /** Pops the register, removes the maker, and inserts the taker, as decided. */
    method FinishOrders(cancelTaker: bool, cancelMaker: bool, insertTaker: bool, sameAccount: bool) returns (ok: bool)
      requires Valid(Value())
      modifies this
      ensures var m, r, pops := old(Value()), Front(old(Value())), cancelTaker || insertTaker;
              var left := BeforeInsert(m, env, pops, cancelMaker, cancelTaker, sameAccount);
              && Value() == InsertStep(left, env, insertTaker, r)
              && (ok <==> && (pops ==> m.count != 0)
                          && (cancelMaker ==> CanRemoveMaker(PopStep(m, pops), env, sameAccount))
                          && (insertTaker ==> CanInsert(left, env, r)))
    {
      var r := registers[0];
      var popped := PopFront(cancelTaker || insertTaker);
      var removed := RemoveMaker(cancelMaker, sameAccount, r.market);
      HandleChildren(cancelTaker, r.market, r.account, r.child0, r.child1, r.initialSize - r.size, 5);
      var inserted := InsertTaker(insertTaker, r);
      ok := popped && removed && inserted;
    }

    /** Instructions after a trade: tied orders of positions that changed sign, and integrator fees. */
    method FollowTrade(live: bool, fees: bool, r: Register, o: AccountOrder, takerBefore: Position,
                       makerBefore: Position, j: Judgement)
      modifies this`writes
      ensures Value() == FeeStep(TiedStep(old(Value()), live, r, o, takerBefore, makerBefore), env, fees, r, o, j)
    {
      PutInstruction(live && Sign(takerBefore.size) != Sign(takerPosition.size) && takerPosition.tiedOrders != 0, 3,
                     TiedInstruction(r.market, r.account, takerPosition.tiedOrders));
      PutInstruction(live && Sign(makerBefore.size) != Sign(makerPosition.size) && makerPosition.tiedOrders != 0, 2,
                     TiedInstruction(r.market, o.owner, makerPosition.tiedOrders));
      PutInstruction(fees && j.takerFeeOut != 0 && r.collector != env.feeAccount.index, 1,
                     FeeInstruction(env, r.collector, j.takerFeeOut));
      PutInstruction(fees && j.makerFeeOut != 0 && o.collector != env.feeAccount.index, 0,
                     FeeInstruction(env, o.collector, j.makerFeeOut));
    }

    /** The cases before a trade: the rule that applies, or a sized trade. */
    method CasesBeforeTrade()
        returns (ok: bool, live: bool, cancelTaker: bool, cancelMaker: bool, insertTaker: bool, base: nat,
                 tooMuch: bool)
      requires Valid(Value())
      modifies this
      ensures var s, rule := old(Value()), FirstRule(old(Value()), env);
              && live == (rule == Continue)
              && insertTaker == (rule == Insert)
              && cancelTaker == (rule == CancelTaker || rule == CancelBoth
                                 || (rule == Reduce && Front(s).size == FullBase(s)))
              && cancelMaker == (rule == CancelMaker || rule == CancelBoth
                                 || (rule == Reduce && s.order.remaining == FullBase(s)))
              && Value() == (if rule == Reduce then AfterReduce(s, env, FullBase(s)) else s)
              && (live ==> base == TradeBase(s) && tooMuch == TooMuchSlippage(s))
              && (ok <==> RuleChecks(s, env)
                          && (rule == Reduce ==> CanUnlock(s.takerAssets, env, s.order, FullBase(s), s.taker)))
    {
      var r := registers[0];
      var flags := if FeeDisabled(r.collector) then r.takerFeeOrFlags else 0;
      ok, live, cancelTaker, insertTaker := EarlyCases();
      ok := ok && flags < 8 && env.feesInRange;
      base, tooMuch, cancelMaker := 0, false, false;
      if live {
        var step, lateMaker;
        step, live, cancelTaker, cancelMaker := SelfTradeCases(live, cancelTaker);
        ok := ok && step;
        if live {
          step, live, cancelTaker, lateMaker := LateCases(live, cancelTaker);
          cancelMaker := cancelMaker || lateMaker;
          ok := ok && step;
          step, live, cancelTaker, base, tooMuch := SizeTrade(live, cancelTaker);
          ok := ok && step;
        }
      }
    }

    /** All cases of one execution, up to the point where orders are removed and inserted. */
    method RunCases(judge: Judge)
        returns (ok: bool, live: bool, base: nat, cancelTaker: bool, cancelMaker: bool, insertTaker: bool)
      requires Valid(Value())
      modifies this
      ensures var s, d := old(Value()), Decide(old(Value()), env, judge);
              && live == d.live && cancelTaker == d.cancelTaker && cancelMaker == d.cancelMaker
                 && insertTaker == d.insertTaker
              && (live ==> base == d.base)
              && Value() == Middle(s, env, d)
              && (ok <==> && RuleChecks(s, env) && TradeChecks(s, env)
                          && (d.reduces ==> CanUnlock(s.takerAssets, env, s.order, d.base, s.taker))
                          && (d.live ==> env.feesAllowed && CanUnlock(s.makerAssets, env, s.order, d.base, s.maker)))
    {
      var tooMuch, step;
      ok, live, cancelTaker, cancelMaker, insertTaker, base, tooMuch := CasesBeforeTrade();
      assert Valid(Value());
      step, live, cancelTaker, cancelMaker := TradeCases(judge(base), base, tooMuch, live, cancelTaker, cancelMaker);
      ok := ok && step;
    }

    /** One execution without the instructions that follow a trade. */
    method RunOrders(judge: Judge) returns (ok: bool, live: bool, base: nat)
      requires Valid(Value())
      modifies this
      ensures var s, d := old(Value()), Decide(old(Value()), env, judge);
              && live == d.live && (live ==> base == d.base)
              && Value() == Finish(s, Middle(s, env, d), env, d)
              && (ok <==> Accepts(s, env, judge))
    {
      ghost var s, d := Value(), Decide(Value(), env, judge);
      NeverInsertAndRemove(s, env, judge);
      var sameAccount := order.owner == registers[0].account;
      var cancelTaker, cancelMaker, insertTaker;
      ok, live, base, cancelTaker, cancelMaker, insertTaker := RunCases(judge);
      MiddleStaysValid(s, env, judge);
      assert Value() == Middle(s, env, d);
      var finished := FinishOrders(cancelTaker, cancelMaker, insertTaker, sameAccount);
      assert finished <==> FinishChecks(s, Middle(s, env, d), env, d);
      ok := ok && finished;
    }

    /** One matching execution. */
    method ExecuteMatching(judge: Judge) returns (ok: bool)
      requires Valid(Value())
      modifies this
      ensures ok <==> Accepts(old(Value()), env, judge)
      ensures Value() == Execute(old(Value()), env, judge)
    {
      ghost var s := Value();
      var r, o, takerBefore, makerBefore := registers[0], order, takerPosition, makerPosition;
      var live, base;
      ok, live, base := RunOrders(judge);
      Assemble(s, Value(), env, judge, base);
      FollowTrade(live, live && base != 0 && env.feeAccountExists, r, o, takerBefore, makerBefore, judge(base));
    }

    /** One light execution. */
    method ExecuteMatchingLight() returns (ok: bool)
      requires Valid(Value())
      modifies this
      ensures ok <==> LightAccepts(old(Value()), env)
      ensures ok ==> Value() == LightExecute(old(Value()), env)
    {
      var r := registers[0];
      var live, cancelTaker, insertTaker := matching, false, false;
      ok := live ==> r.orderType == LIMIT_ORDER && r.triggerStatus == TRIGGER_NA;
      if live && env.perps && WrongWay(takerPosition.size, r.isAsk) && r.reduceOnly {
        cancelTaker, live := live, false;
      }
      var empty := LeafEmpty(leaf);
      if live && empty {
        ok := ok && leaf.price == r.price && leaf.nonce == r.nonce && order.owner == r.account
              && order.index0 == r.orderIndex && order.index1 == r.clientOrderIndex;
      }
      if live && r.timeInForce == IOC && env.oppositeTotal == 0 {
        cancelTaker, live := live, false;
      }
      ok := ok && (live ==> env.betterBase == 0);
      if live && r.timeInForce == IOC && empty {
        cancelTaker, live := live, false;
      }
      if live && empty {
        insertTaker, live := live, false;
      }
      ok := ok && !live;
      var popped := PopFront(cancelTaker || insertTaker);
      HandleChildren(cancelTaker, r.market, r.account, r.child0, r.child1, r.initialSize - r.size, 5);
      var inserted := true;
      if insertTaker {
        inserted := InsertLight(r);
      }
      ok := ok && popped && inserted;
    }

    /** Lets a limit order rest on the book. */
    method InsertLight(r: Register) returns (ok: bool)
      modifies this
      ensures ok <==> CanInsertLight(old(Value()), env, r)
      ensures Value() == LightInserted(old(Value()), env, r)
    {
      ok := RestTaker(r, true, !env.perps && taker.accountType != INSURANCE_FUND);
    }
  }

  lemma NeverInsertAndRemove(s: State, e: Env, judge: Judge)
    requires Valid(s)
    ensures !(Decide(s, e, judge).cancelMaker && Decide(s, e, judge).insertTaker)
  {
  }

  lemma Assemble(s: State, m: State, e: Env, judge: Judge, base: nat)
    requires Valid(s) && m == Finish(s, Middle(s, e, Decide(s, e, judge)), e, Decide(s, e, judge))
    requires Decide(s, e, judge).live ==> base == Decide(s, e, judge).base
    ensures var live := Decide(s, e, judge).live;
            FeeStep(TiedStep(m, live, Front(s), s.order, s.takerPosition, s.makerPosition), e,
                    live && base != 0 && e.feeAccountExists, Front(s), s.order, judge(base))
            == Execute(s, e, judge)
  {
  }
}
