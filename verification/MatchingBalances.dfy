/** Locked balances of a spot market follow the orders that rest on its book. */
module MatchingBalances {
  import opened Positions
  import opened Orders
  import opened MatchingRules
  import opened MatchingTheorems

  lemma {:induction false} FindByIndex(a: seq<Asset>, b: seq<Asset>, index: nat)
    requires |a| == |b| && forall i :: 0 <= i < |a| ==> a[i].index == b[i].index
    ensures FindAsset(a, index) == FindAsset(b, index)
  {
    if a != [] && a[0].index != index {
      FindByIndex(a[1..], b[1..], index);
    }
  }

  /** Changing one asset's locked balance changes that asset only. */
  lemma {:induction false} ChangeLockedOf(assets: seq<Asset>, index: nat, amount: int, add: bool, asset: nat)
    requires FindAsset(assets, index) < |assets|
    ensures LockedOf(ChangeLocked(assets, index, amount, add), asset)
            == LockedOf(assets, asset) + if asset == index then Signed(amount, add) else 0
  {
    FindByIndex(assets, ChangeLocked(assets, index, amount, add), asset);
  }

  /** What an order resting at a leaf locks of an asset. */
  function RestingLock(l: Leaf, o: AccountOrder, e: Env, owner: Account, asset: nat): int {
    if LeafEmpty(l) then 0 else OrderLock(o, e, owner, o.remaining, asset)
  }

  function OrderLock(o: AccountOrder, e: Env, owner: Account, base: int, asset: nat): int {
    if Locks(e, o.orderType, owner) && LockedAsset(e.market, o.isAsk) == asset
    then LockedAmount(e.market, o.isAsk, base, o.price) else 0
  }

  function TotalLocked(s: State, asset: nat): int {
    LockedOf(s.takerAssets, asset) + LockedOf(s.makerAssets, asset)
  }

  function Owner(s: State): Account
    requires Valid(s)
  {
    if SameAccount(s) then s.taker else s.maker
  }

  lemma UnlockedOf(assets: seq<Asset>, e: Env, o: AccountOrder, base: int, owner: Account, asset: nat)
    requires CanUnlock(assets, e, o, base, owner)
    ensures LockedOf(Unlocked(assets, e, o, base, owner), asset)
            == LockedOf(assets, asset) - OrderLock(o, e, owner, base, asset)
  {
    if Locks(e, o.orderType, owner) {
      ChangeLockedOf(assets, LockedAsset(e.market, o.isAsk), LockedAmount(e.market, o.isAsk, base, o.price), false,
                     asset);
    }
  }

  lemma OrderLockSplit(o: AccountOrder, e: Env, owner: Account, base: int, asset: nat)
    ensures OrderLock(o, e, owner, o.remaining, asset)
            == OrderLock(o, e, owner, base, asset)
                + OrderLock(o.(remaining := o.remaining - base), e, owner, o.remaining - base, asset)
  {
    var unit := if o.isAsk then e.market.sizeMultiplier else o.price * e.market.quoteMultiplier;
    assert o.remaining * unit == base * unit + (o.remaining - base) * unit;
  }

  /** What both accounts have locked of an asset falls by these amounts. */
  predicate LockedLess(before: State, after: State, asset: nat, taker: int, maker: int) {
    && LockedOf(after.takerAssets, asset) == LockedOf(before.takerAssets, asset) - taker
    && LockedOf(after.makerAssets, asset) == LockedOf(before.makerAssets, asset) - maker
  }

  /** A fill unlocks what it takes off the resting order, of the account that owns it. */
  lemma MiddleLocked(s: State, e: Env, d: Decision, asset: nat)
    requires Valid(s) && EffectChecks(s, e, d) && !(d.reduces && d.live)
    ensures LockedLess(s, Middle(s, e, d), asset,
                       if d.reduces then OrderLock(s.order, e, s.taker, d.base, asset) else 0,
                       if d.live then OrderLock(s.order, e, s.maker, d.base, asset) else 0)
  {
    if d.reduces {
      UnlockedOf(s.takerAssets, e, s.order, d.base, s.taker, asset);
    } else if d.live {
      UnlockedOf(s.makerAssets, e, s.order, d.base, s.maker, asset);
    }
  }

  /** A removed order frees the rest of what it locks. */
  lemma RemoveLocked(m: State, e: Env, removes: bool, ofTaker: bool, market: nat, asset: nat)
    requires removes ==> CanRemoveMaker(m, e, ofTaker)
    ensures LockedLess(m, RemoveStep(m, e, removes, ofTaker, market), asset,
                       if removes && ofTaker then OrderLock(m.order, e, m.taker, m.order.remaining, asset) else 0,
                       if removes && !ofTaker then OrderLock(m.order, e, m.maker, m.order.remaining, asset) else 0)
  {
    if removes {
      var o, released := m.order, Released(m, e, ofTaker);
      ChildrenOnlyWrite(released, true, market, o.owner, o.child0, o.child1, o.initial - o.remaining, 7);
      ReleasedLocked(m, e, ofTaker, asset);
    }
  }

  lemma ReleasedLocked(m: State, e: Env, ofTaker: bool, asset: nat)
    requires CanRemoveMaker(m, e, ofTaker)
    ensures LockedLess(m, Released(m, e, ofTaker), asset,
                       if ofTaker then OrderLock(m.order, e, m.taker, m.order.remaining, asset) else 0,
                       if ofTaker then 0 else OrderLock(m.order, e, m.maker, m.order.remaining, asset))
  {
    if ofTaker {
      UnlockedOf(m.takerAssets, e, m.order, m.order.remaining, m.taker, asset);
    } else {
      UnlockedOf(m.makerAssets, e, m.order, m.order.remaining, m.maker, asset);
    }
  }

  lemma InsertLocked(m: State, e: Env, inserts: bool, r: Register, asset: nat)
    requires inserts ==> CanInsert(m, e, r)
    ensures LockedLess(m, InsertStep(m, e, inserts, r), asset,
                       if RestsOnBook(r, inserts) then 0 - OrderLock(OrderOf(r), e, m.taker, r.size, asset) else 0, 0)
  {
    var o := OrderOf(r);
    if RestsOnBook(r, inserts) && Locks(e, r.orderType, m.taker) {
      ChangeLockedOf(m.takerAssets, LockedAsset(e.market, o.isAsk),
                     LockedAmount(e.market, o.isAsk, o.remaining, o.price), true, asset);
    }
  }

  /** Popping, removing and leaving free what the removed order locks, and keep who the taker is. */
  lemma BeforeLocked(m: State, e: Env, pops: bool, removes: bool, leaves: bool, ofTaker: bool, asset: nat)
    requires |m.registers| > 0 && (removes ==> CanRemoveMaker(PopStep(m, pops), e, ofTaker))
    ensures var before := BeforeInsert(m, e, pops, removes, leaves, ofTaker);
            && before.taker.accountType == m.taker.accountType
            && LockedLess(m, before, asset,
                          if removes && ofTaker then OrderLock(m.order, e, m.taker, m.order.remaining, asset) else 0,
                          if removes && !ofTaker then OrderLock(m.order, e, m.maker, m.order.remaining, asset) else 0)
  {
    var r, popped := m.registers[0], PopStep(m, pops);
    var removed := RemoveStep(popped, e, removes, ofTaker, r.market);
    RemoveLocked(popped, e, removes, ofTaker, r.market, asset);
    RemoveKeepsTaker(popped, e, removes, ofTaker, r.market);
    ChildrenOnlyWrite(removed, leaves, r.market, r.account, r.child0, r.child1, r.initialSize - r.size, 5);
  }

  lemma RemoveKeepsTaker(m: State, e: Env, removes: bool, ofTaker: bool, market: nat)
    ensures RemoveStep(m, e, removes, ofTaker, market).taker.accountType == m.taker.accountType
  {
    var o, released := m.order, Released(m, e, ofTaker);
    ChildrenOnlyWrite(released, true, market, o.owner, o.child0, o.child1, o.initial - o.remaining, 7);
  }

  lemma SameKindLocks(o: AccountOrder, e: Env, a: Account, b: Account, base: int, asset: nat)
    requires a.accountType == b.accountType
    ensures OrderLock(o, e, a, base, asset) == OrderLock(o, e, b, base, asset)
  {
  }

  lemma FinishLocked(s: State, m: State, e: Env, d: Decision, asset: nat)
    requires Valid(s) && Valid(m) && FinishChecks(s, m, e, d) && !(d.cancelMaker && d.insertTaker)
    ensures var own := SameAccount(s);
            LockedLess(m, Finish(s, m, e, d), asset,
                       (if d.cancelMaker && own then OrderLock(m.order, e, m.taker, m.order.remaining, asset) else 0)
                       - (if RestsOnBook(Front(m), d.insertTaker)
                          then OrderLock(OrderOf(Front(m)), e, m.taker, Front(m).size, asset) else 0),
                       if d.cancelMaker && !own then OrderLock(m.order, e, m.maker, m.order.remaining, asset) else 0)
  {
    var r, before := Front(m), BeforeInsert(m, e, Pops(d), d.cancelMaker, d.cancelTaker, SameAccount(s));
    BeforeLocked(m, e, Pops(d), d.cancelMaker, d.cancelTaker, SameAccount(s), asset);
    InsertLocked(before, e, d.insertTaker, r, asset);
    SameKindLocks(OrderOf(r), e, before.taker, m.taker, r.size, asset);
  }

  // ---------- account by account ----------

  /**
   What an order locks of an asset for some base: only limit orders on a spot market lock, and not those of the
   insurance fund. An ask locks base in the market's units of the base asset, a bid its price of the quote asset.
   */
  function Locked(isAsk: bool, orderType: nat, price: nat, e: Env, owner: Account, base: int, asset: nat): int {
    if e.perps || orderType != LIMIT_ORDER || owner.accountType == INSURANCE_FUND then 0
    else if isAsk then if asset == e.market.baseAsset then base * e.market.sizeMultiplier else 0
    else if asset == e.market.quoteAsset then base * (price * e.market.quoteMultiplier) else 0
  }

  lemma LocksAre(o: AccountOrder, e: Env, owner: Account, base: int, asset: nat)
    ensures OrderLock(o, e, owner, base, asset) == Locked(o.isAsk, o.orderType, o.price, e, owner, base, asset)
  {
  }

  /**
   Balances, account by account: a fill and a removal free what the order locked for its owner, and an inserted
   order locks for the taker, unless it waits for a trigger. Nothing else is locked or freed.
   */
  lemma BalancesExactly(s: State, e: Env, judge: Judge, asset: nat)
    requires Valid(s) && Accepts(s, e, judge)
    ensures var r, o, d := s.registers[0], s.order, Decide(s, e, judge);
            var own, rest := o.owner == r.account, o.remaining - d.base;
            LockedLess(s, Execute(s, e, judge), asset,
                       (if d.reduces then Locked(o.isAsk, o.orderType, o.price, e, s.taker, d.base, asset) else 0)
                       + (if d.cancelMaker && own then Locked(o.isAsk, o.orderType, o.price, e, s.taker, rest, asset)
                          else 0)
                       - (if d.insertTaker && r.triggerStatus == TRIGGER_NA
                          then Locked(r.isAsk, r.orderType, r.price, e, s.taker, r.size, asset) else 0),
                       (if d.live then Locked(o.isAsk, o.orderType, o.price, e, s.maker, d.base, asset) else 0)
                       + (if d.cancelMaker && !own then Locked(o.isAsk, o.orderType, o.price, e, s.maker, rest, asset)
                          else 0))
  {
    var d := Decide(s, e, judge);
    var m := Middle(s, e, d);
    NeverBoth(s, e, judge);
    MiddleStaysValid(s, e, judge);
    MiddleLocked(s, e, d, asset);
    FinishLocked(s, m, e, d, asset);
    FollowUpOnlyWrites(s, Finish(s, m, e, d), e, d, judge(d.base));
    FilledLocks(s, e, judge, asset);
  }

  /** An asset is there, and at least an amount that fits 96 bits of it is locked. */
  predicate Frees(assets: seq<Asset>, asset: nat, amount: int) {
    0 <= amount <= MAX_BALANCE && FindAsset(assets, asset) < |assets| && LockedOf(assets, asset) >= amount
  }

  /** An asset is there, and an amount more of it stays within 96 bits. */
  predicate Takes(assets: seq<Asset>, asset: nat, amount: int) {
    0 <= amount <= MAX_BALANCE && FindAsset(assets, asset) < |assets| && LockedOf(assets, asset) + amount <= MAX_BALANCE
  }

  /** The order is one that locks balance: a limit order on a spot market, not of the insurance fund. */
  predicate Locking(e: Env, orderType: nat, owner: Account) {
    !e.perps && orderType == LIMIT_ORDER && owner.accountType != INSURANCE_FUND
  }

  function Side(e: Env, isAsk: bool): nat {
    if isAsk then e.market.baseAsset else e.market.quoteAsset
  }

  function Unit(e: Env, isAsk: bool, price: nat): nat {
    if isAsk then e.market.sizeMultiplier else price * e.market.quoteMultiplier
  }

  /** A fill, and the removal of what it leaves, free amounts an account has locked. */
  predicate FreesBoth(e: Env, assets: seq<Asset>, o: AccountOrder, owner: Account, base: int, rest: int, fills: bool,
                      removes: bool)
  {
    Locking(e, o.orderType, owner) ==>
      var asset, unit := Side(e, o.isAsk), Unit(e, o.isAsk, o.price);
      && (fills ==> Frees(assets, asset, base * unit))
      && (removes ==>
            && Frees(assets, asset, rest * unit)
            && LockedOf(assets, asset) >= (if fills then base * unit else 0) + rest * unit)
  }

  lemma FreesInTurn(e: Env, assets: seq<Asset>, o: AccountOrder, owner: Account, base: int, rest: int)
    ensures CanUnlock(assets, e, o, base, owner) <==> FreesBoth(e, assets, o, owner, base, rest, true, false)
    ensures CanUnlock(assets, e, o, rest, owner) <==> FreesBoth(e, assets, o, owner, base, rest, false, true)
    ensures CanUnlock(assets, e, o, base, owner)
            && CanUnlock(Unlocked(assets, e, o, base, owner), e, o, rest, owner) <==>
            FreesBoth(e, assets, o, owner, base, rest, true, true)
  {
    var asset, unit := Side(e, o.isAsk), Unit(e, o.isAsk, o.price);
    if Locking(e, o.orderType, owner) && Frees(assets, asset, base * unit) {
      var after := ChangeLocked(assets, asset, base * unit, false);
      ChangeLockedOf(assets, asset, base * unit, false, asset);
      FindByIndex(assets, after, asset);
    }
  }

  /**
   The effects of a decision are allowed exactly when there is a register to pop, a trade's fees are within their
   caps, what is freed is locked, and what is locked fits.
   */
  lemma EffectsExactly(s: State, e: Env, judge: Judge)
    requires Valid(s)
    ensures var r, o, d := s.registers[0], s.order, Decide(s, e, judge);
            var own, rest := o.owner == r.account, o.remaining - d.base;
            EffectChecks(s, e, d) <==>
              && (d.cancelTaker || d.insertTaker ==> s.count != 0)
              && (d.live ==> e.feesAllowed)
              && FreesBoth(e, s.takerAssets, o, s.taker, d.base, rest, d.reduces, d.cancelMaker && own)
              && FreesBoth(e, s.makerAssets, o, s.maker, d.base, rest, d.live, d.cancelMaker && !own)
              && (d.insertTaker && r.triggerStatus == TRIGGER_NA && Locking(e, r.orderType, s.taker) ==>
                    Takes(s.takerAssets, Side(e, r.isAsk), r.size * Unit(e, r.isAsk, r.price)))
  {
    var o, d := s.order, Decide(s, e, judge);
    NeverBoth(s, e, judge);
    MiddleForEffects(s, e, judge);
    FinishFits(s, Middle(s, e, d), e, d);
    SideFits(e, s.takerAssets, Middle(s, e, d).takerAssets, o, s.taker, d.base, d.reduces,
             d.cancelMaker && SameAccount(s));
    SideFits(e, s.makerAssets, Middle(s, e, d).makerAssets, o, s.maker, d.base, d.live,
             d.cancelMaker && !SameAccount(s));
  }

  lemma SideFits(e: Env, assets: seq<Asset>, after: seq<Asset>, o: AccountOrder, owner: Account, base: int, fills: bool,
                 removes: bool)
    requires after == if fills then Unlocked(assets, e, o, base, owner) else assets
    ensures var left := o.(remaining := o.remaining - base);
            (fills ==> CanUnlock(assets, e, o, base, owner))
                && (removes ==> CanUnlock(after, e, left, left.remaining, owner))
            <==> FreesBoth(e, assets, o, owner, base, o.remaining - base, fills, removes)
  {
    FreesInTurn(e, assets, o, owner, base, o.remaining - base);
    SameLock(after, e, o, o.(remaining := o.remaining - base), o.remaining - base, owner);
  }

  lemma SameLock(assets: seq<Asset>, e: Env, o: AccountOrder, p: AccountOrder, base: int, owner: Account)
    requires p == o.(remaining := p.remaining)
    ensures CanUnlock(assets, e, o, base, owner) <==> CanUnlock(assets, e, p, base, owner)
  {
  }

  /** What the state after a fill locks. */
  lemma MiddleForEffects(s: State, e: Env, judge: Judge)
    requires Valid(s)
    ensures var d, m := Decide(s, e, judge), Middle(s, e, Decide(s, e, judge));
            && |m.registers| > 0 && m.count == s.count && m.order == s.order.(remaining := s.order.remaining - d.base)
            && m.taker == s.taker && m.maker == s.maker && (d.insertTaker ==> m == s)
            && m.takerAssets == (if d.reduces then Unlocked(s.takerAssets, e, s.order, d.base, s.taker)
                                 else s.takerAssets)
            && m.makerAssets == (if d.live then Unlocked(s.makerAssets, e, s.order, d.base, s.maker) else s.makerAssets)
  {
    MiddleLeaf(s, e, judge);
    MiddleKeepsTypes(s, e, Decide(s, e, judge));
    NeverBoth(s, e, judge);
  }

  lemma FinishFits(s: State, m: State, e: Env, d: Decision)
    requires Valid(s) && |m.registers| > 0 && !(d.cancelMaker && d.insertTaker)
    ensures var r := m.registers[0];
            FinishChecks(s, m, e, d) <==>
              && (Pops(d) ==> m.count != 0)
              && (d.cancelMaker ==> if SameAccount(s)
                  then CanUnlock(m.takerAssets, e, m.order, m.order.remaining, m.taker)
                                    else CanUnlock(m.makerAssets, e, m.order, m.order.remaining, m.maker))
              && (d.insertTaker && r.triggerStatus == TRIGGER_NA && Locking(e, r.orderType, m.taker) ==>
                    Takes(m.takerAssets, Side(e, r.isAsk), r.size * Unit(e, r.isAsk, r.price)))
  {
    if d.insertTaker {
      var r, left := m.registers[0], BeforeInsert(m, e, true, d.cancelMaker, d.cancelTaker, SameAccount(s));
      ChildrenOnlyWrite(PopStep(m, true), d.cancelTaker, r.market, r.account, r.child0, r.child1,
                        r.initialSize - r.size, 5);
      assert left.takerAssets == m.takerAssets && left.taker == m.taker;
    }
  }

  /** The order left after a fill locks what remains of it. */
  lemma FilledLocks(s: State, e: Env, judge: Judge, asset: nat)
    requires Valid(s)
    ensures var o, d, m := s.order, Decide(s, e, judge), Middle(s, e, Decide(s, e, judge));
            && OrderLock(m.order, e, m.taker, m.order.remaining, asset)
               == Locked(o.isAsk, o.orderType, o.price, e, s.taker, o.remaining - d.base, asset)
            && OrderLock(m.order, e, m.maker, m.order.remaining, asset)
               == Locked(o.isAsk, o.orderType, o.price, e, s.maker, o.remaining - d.base, asset)
            && (d.insertTaker ==> m == s)
  {
    MiddleLeaf(s, e, judge);
    MiddleKeepsTypes(s, e, Decide(s, e, judge));
  }

  /** What the order an execution leaves at its leaf locks; an order that waits for a trigger is put elsewhere. */
  function LockAfter(s: State, e: Env, judge: Judge, asset: nat): int
    requires Valid(s)
  {
    var d, x := Decide(s, e, judge), Execute(s, e, judge);
    if d.insertTaker && !RestsOnBook(Front(s), true) then RestingLock(x.leaf, s.order, e, Owner(s), asset)
    else RestingLock(x.leaf, x.order, e, if d.insertTaker then s.taker else Owner(s), asset)
  }

  /** Trades are between two accounts, reductions within one. */
  lemma FillSides(s: State, e: Env, judge: Judge)
    requires Valid(s) && Accepts(s, e, judge) && Front(s).account == s.taker.index
    ensures Decide(s, e, judge).reduces ==> SameAccount(s)
    ensures Decide(s, e, judge).live ==> !SameAccount(s)
    ensures var d := Decide(s, e, judge); d.live || d.reduces || d.cancelMaker ==> !LeafEmpty(s.leaf)
    ensures Decide(s, e, judge).insertTaker && Front(s).triggerStatus == TRIGGER_NA ==> LeafEmpty(s.leaf)
  {
  }

  /** What stays at the leaf when nobody is inserted. */
  lemma LeftLock(s: State, e: Env, judge: Judge, asset: nat)
    requires Valid(s) && Accepts(s, e, judge) && Front(s).account == s.taker.index
    requires !Decide(s, e, judge).insertTaker
    ensures var d := Decide(s, e, judge);
            LockAfter(s, e, judge, asset)
            == if d.cancelMaker then 0
               else RestingLock(s.leaf, s.order, e, Owner(s), asset)
                    - if d.live || d.reduces then OrderLock(s.order, e, Owner(s), d.base, asset) else 0
  {
    var d := Decide(s, e, judge);
    var m := Middle(s, e, d);
    FillSides(s, e, judge);
    NeverBoth(s, e, judge);
    SizesFallTogether(s, e, judge);
    MiddleStaysValid(s, e, judge);
    FinishLeaf(s, m, e, d);
    FollowUpOnlyWrites(s, Finish(s, m, e, d), e, d, judge(d.base));
    if d.live || d.reduces {
      OrderLockSplit(s.order, e, Owner(s), d.base, asset);
      MakerShrinks(s, e, judge);
    }
  }

  /**
   Locked balances follow the book: an accepted execution on a spot market changes what the two
   accounts have locked of any asset by exactly what the order at the leaf locks more or less.
   */
  lemma LockedFollows(s: State, e: Env, judge: Judge, asset: nat)
    requires Valid(s) && Accepts(s, e, judge)
    requires Front(s).account == s.taker.index
    ensures TotalLocked(Execute(s, e, judge), asset) - TotalLocked(s, asset)
            == LockAfter(s, e, judge, asset) - RestingLock(s.leaf, s.order, e, Owner(s), asset)
  {
    var d := Decide(s, e, judge);
    var m := Middle(s, e, d);
    FillSides(s, e, judge);
    NeverBoth(s, e, judge);
    MiddleStaysValid(s, e, judge);
    MiddleLocked(s, e, d, asset);
    FinishLocked(s, m, e, d, asset);
    FollowUpOnlyWrites(s, Finish(s, m, e, d), e, d, judge(d.base));
    if d.insertTaker {
      FinishLeaf(s, m, e, d);
      InsertedLock(Front(s), e, s.taker, asset);
    } else {
      LeftLock(s, e, judge, asset);
      RemovedLock(s, e, judge, asset);
    }
  }

  lemma InsertedLock(r: Register, e: Env, owner: Account, asset: nat)
    ensures RestingLock(LeafOf(r), OrderOf(r), e, owner, asset) == OrderLock(OrderOf(r), e, owner, r.size, asset)
  {
  }

  /** A removed maker order frees, with the fill before it, all it locked. */
  lemma RemovedLock(s: State, e: Env, judge: Judge, asset: nat)
    requires Valid(s)
    ensures var d := Decide(s, e, judge);
            var m := Middle(s, e, d);
            d.cancelMaker ==>
              OrderLock(m.order, e, if SameAccount(s) then m.taker else m.maker, m.order.remaining, asset)
              + (if d.live || d.reduces then OrderLock(s.order, e, Owner(s), d.base, asset) else 0)
              == OrderLock(s.order, e, Owner(s), s.order.remaining, asset)
  {
    var d := Decide(s, e, judge);
    OrderLockSplit(s.order, e, Owner(s), d.base, asset);
    MakerShrinks(s, e, judge);
    MiddleKeepsCounts(s, e, d);
    MiddleKeepsTypes(s, e, d);
  }

  lemma MiddleKeepsTypes(s: State, e: Env, d: Decision)
    requires Valid(s)
    ensures Middle(s, e, d).taker == s.taker && Middle(s, e, d).maker == s.maker
    ensures !d.live && !d.reduces ==> Middle(s, e, d) == s
  {
  }
}
