/** The light matcher, which only takes executions without a trade, and its refinement by the full one. */
module MatchingLight {
  import opened Orders
  import opened MatchingRules

  function LightRule(s: State, e: Env): Rule
    requires Valid(s)
  {
    var r := Front(s);
    if !s.matching then Idle
    else if e.perps && r.reduceOnly && WrongWay(s.takerPosition.size, r.isAsk) then CancelTaker
    else if r.timeInForce == IOC && (e.oppositeTotal == 0 || LeafEmpty(s.leaf)) then CancelTaker
    else if LeafEmpty(s.leaf) then Insert
    else Continue
  }

  /** A resting order of the light matcher is a limit order on the book. */
  function LightInserted(s: State, e: Env, r: Register): State {
    Rested(s, e, r, true, !e.perps && !IsFund(s.taker))
  }

  predicate CanInsertLight(s: State, e: Env, r: Register) {
    var o := OrderOf(r);
    !e.perps && !IsFund(s.taker) ==>
      CanChange(s.takerAssets, LockedAsset(e.market, o.isAsk), LockedAmount(e.market, o.isAsk, o.remaining, o.price),
                true)
  }

  function LightExecute(s: State, e: Env): State
    requires Valid(s)
  {
    var d, r := OfRule(LightRule(s, e)), Front(s);
    var left := LeaveStep(PopStep(s, d.cancelTaker || d.insertTaker), d.cancelTaker, r);
    if d.insertTaker then LightInserted(left, e, r) else left
  }

  predicate LightAccepts(s: State, e: Env)
    requires Valid(s)
  {
    var r, rule := Front(s), LightRule(s, e);
    && (s.matching ==> r.orderType == LIMIT_ORDER && r.triggerStatus == TRIGGER_NA)
    && (s.matching && !(e.perps && r.reduceOnly && WrongWay(s.takerPosition.size, r.isAsk)) ==>
          && (LeafEmpty(s.leaf) ==> LeafIsTakers(s))
          && (!(r.timeInForce == IOC && e.oppositeTotal == 0) ==> e.betterBase == 0))
    && rule != Continue
    && (rule == CancelTaker || rule == Insert ==> s.count != 0)
    && (rule == Insert ==> CanInsertLight(s, e, r))
  }

  lemma LightDecides(s: State, e: Env, judge: Judge)
    requires Valid(s) && LightAccepts(s, e)
    ensures FirstRule(s, e) == LightRule(s, e)
    ensures KeepsCancel(s, e) || !OfRule(LightRule(s, e)).cancelTaker ==> Decide(s, e, judge) == OfRule(LightRule(s, e))
    ensures !KeepsCancel(s, e) && OfRule(LightRule(s, e)).cancelTaker ==> Decide(s, e, judge) == OfRule(Idle)
  {
  }

  /** The inserted order of a limit taker is the same in both. */
  lemma SameInsert(s: State, e: Env, r: Register)
    requires r.orderType == LIMIT_ORDER && r.triggerStatus == TRIGGER_NA
    ensures LightInserted(s, e, r) == WithTaker(s, e, r)
    ensures CanInsertLight(s, e, r) <==> CanInsert(s, e, r)
  {
  }

  lemma NothingFollows(s: State, m: State, e: Env, d: Decision, j: Judgement)
    requires Valid(s) && !d.live
    ensures FollowUp(s, m, e, d, j) == m
  {
  }

  lemma QuietFinish(s: State, e: Env, d: Decision)
    requires Valid(s) && !d.cancelMaker && !d.live && !d.reduces
    requires d.insertTaker ==> Front(s).orderType == LIMIT_ORDER && Front(s).triggerStatus == TRIGGER_NA
    ensures Finish(s, Middle(s, e, d), e, d)
            == var left := LeaveStep(PopStep(s, d.cancelTaker || d.insertTaker), d.cancelTaker, Front(s));
               if d.insertTaker then LightInserted(left, e, Front(s)) else left
  {
    if d.insertTaker {
      SameInsert(LeaveStep(PopStep(s, d.cancelTaker || d.insertTaker), d.cancelTaker, Front(s)), e, Front(s));
    }
  }

  /**
   Light refines full: what the light matcher accepts, the full one accepts exactly when flags and fee
   rates are in the ranges only it checks, and does the same exactly when the unmasked open interest
   test does not take a cancellation back.
   */
  lemma LightRefinesFull(s: State, e: Env, judge: Judge)
    requires Valid(s) && LightAccepts(s, e)
    ensures Accepts(s, e, judge) <==> FlagsValue(s) < 8 && e.feesInRange
    ensures Execute(s, e, judge) == LightExecute(s, e) <==> KeepsCancel(s, e) || LightRule(s, e) != CancelTaker
  {
    LightDecides(s, e, judge);
    var d := Decide(s, e, judge);
    if d.insertTaker {
      SameInsert(s, e, Front(s));
    }
    QuietFinish(s, e, d);
    NothingFollows(s, Finish(s, Middle(s, e, d), e, d), e, d, judge(d.base));
    if !KeepsCancel(s, e) && LightRule(s, e) == CancelTaker {
      LightCounts(s, e);
      assert Execute(s, e, judge) == LeaveStep(PopStep(s, d.cancelTaker || d.insertTaker), d.cancelTaker, Front(s))
             == s;
    }
  }

  lemma LightCounts(s: State, e: Env)
    requires Valid(s) && LightRule(s, e) == CancelTaker
    ensures LightExecute(s, e).count == s.count - 1
  {
  }
}
