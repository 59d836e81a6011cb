/**
 The matching decision as a list of rules, the first that applies deciding, and its effect on the
 state. This is the reference the flag-threading executions are proved against.
 */
module MatchingRules {
  import opened Positions
  import opened Trades
  import opened PreExecution
  import opened Orders

  const MAX_OPEN_INTEREST: nat := 0xff_ffff_ffff_ffff

  datatype State = State(
    matching: bool,
    registers: seq<Register>,
    count: int,
    leaf: Leaf,
    order: AccountOrder,
    taker: Account,
    maker: Account,
    takerPosition: Position,
    makerPosition: Position,
    takerAssets: seq<Asset>,
    makerAssets: seq<Asset>,
    totalOrders: int,
    openInterest: int,
    writes: seq<Write>)

  /** What an execution only reads. */
  datatype Env = Env(
    perps: bool,
    market: Market,
    risk: RiskDetails,
    openInterestLimit: nat,
    oppositeTotal: int,
    betterBase: int,
    timestamp: nat,
    feeAccount: Account,
    feeAccountExists: bool,
    takerFee: int,
    makerFee: int,
    feesInRange: bool,
    feesAllowed: bool)

  /** What the risk and balance checks say of a trade of some size. */
  datatype Judgement = Judgement(takerBad: bool, makerBad: bool, inLiquidation: bool, takerFeeOut: nat,
                                 makerFeeOut: nat)

  type Judge = nat -> Judgement

  datatype Rule = Continue | Idle | Insert | CancelTaker | CancelMaker | CancelBoth | Reduce

  /** Sizes and slippage allowances are range-checked when they are written. */
  predicate Valid(s: State) {
    && |s.registers| > 0 && s.order.remaining >= 0
    && forall i :: 0 <= i < |s.registers| ==> s.registers[i].size >= 0 && s.registers[i].slippage >= 0
  }

  function Front(s: State): Register
    requires Valid(s)
  {
    s.registers[0]
  }

  // ---------- rules before a maker order is looked at ----------

  function EarlyRule(s: State, e: Env): Rule
    requires Valid(s)
  {
    var r := Front(s);
    if !s.matching then Idle
    else if r.triggerStatus != TRIGGER_NA then Insert
    else if e.perps && r.reduceOnly && WrongWay(s.takerPosition.size, r.isAsk) then CancelTaker
    else if r.timeInForce == IOC && e.oppositeTotal == 0 then CancelTaker
    else if LeafEmpty(s.leaf) then if r.timeInForce == IOC then CancelTaker else Insert
    else Continue
  }

  /** An empty leaf is the place of the taker's own order. */
  predicate LeafIsTakers(s: State)
    requires Valid(s)
  {
    var r := Front(s);
    && s.leaf.price == r.price && s.leaf.nonce == r.nonce
    && s.order.owner == r.account && s.order.index0 == r.orderIndex && s.order.index1 == r.clientOrderIndex
  }

  predicate LeafMatchesOrder(s: State, e: Env) {
    && s.leaf.price == s.order.price && s.leaf.nonce == s.order.nonce
    && MarketOfOrder(s.order.index0) == e.market.index
  }

  /** Neither idle, triggered nor reduce-only against its position: the book is looked at. */
  predicate LooksAtBook(s: State, e: Env)
    requires Valid(s)
  {
    var r := Front(s);
    && s.matching && r.triggerStatus == TRIGGER_NA
    && !(e.perps && r.reduceOnly && WrongWay(s.takerPosition.size, r.isAsk))
  }

  predicate EarlyChecks(s: State, e: Env)
    requires Valid(s)
  {
    var r := Front(s);
    LooksAtBook(s, e) ==>
      && (LeafEmpty(s.leaf) ==> LeafIsTakers(s))
      && (!(r.timeInForce == IOC && e.oppositeTotal == 0) ==>
            && e.betterBase == 0
            && (LeafEmpty(s.leaf) && r.timeInForce != IOC ==> LimitType(r.orderType))
            && (!LeafEmpty(s.leaf) ==> LeafMatchesOrder(s, e)))
  }

  // ---------- rules for a maker order that must not trade ----------

  function FeesOff(s: State): bool
    requires Valid(s)
  {
    FeeDisabled(Front(s).collector)
  }

  function FlagsValue(s: State): nat
    requires Valid(s)
  {
    if FeesOff(s) then Front(s).takerFeeOrFlags else 0
  }

  predicate SameAccount(s: State)
    requires Valid(s)
  {
    s.order.owner == Front(s).account
  }

  predicate MasterMode(s: State)
    requires Valid(s)
  {
    FlagsValue(s) / 4 % 2 == 1
  }

  predicate MakerExpired(s: State, e: Env) {
    s.order.expiry <= e.timestamp
  }

  predicate SwitchTriggered(a: Account, timestamp: nat) {
    a.cancelAllTime != 0 && a.cancelAllTime <= timestamp
  }

  function ReduceRule(s: State): Rule
    requires Valid(s)
  {
    if Front(s).timeInForce == POST_ONLY then CancelTaker else Reduce
  }

  /** The self-trade behaviour the taker asked for. */
  function ModeRule(s: State): Rule
    requires Valid(s)
  {
    var mode := FlagsValue(s) % 4;
    if mode == 0 then CancelMaker else if mode == 1 then CancelTaker else if mode == 2 then CancelBoth
    else ReduceRule(s)
  }

  function SelfRule(s: State, e: Env): Rule
    requires Valid(s)
  {
    var expired, mode := MakerExpired(s, e), FlagsValue(s) % 4;
    if SameAccount(s) && !FeesOff(s) then if expired then CancelMaker else ReduceRule(s)
    else if SameAccount(s) && !MasterMode(s) then if expired then CancelMaker else ModeRule(s)
    else if expired || SwitchTriggered(s.maker, e.timestamp) then CancelMaker
    else if MasterMode(s) && s.maker.master == s.taker.master && FeesOff(s) && mode != 3 then ModeRule(s)
    else Continue
  }

  // ---------- the size of a trade ----------

  predicate MakerIsOther(s: State) {
    s.order.owner == s.maker.index && s.taker.index != s.maker.index
  }

  function FullBase(s: State): nat
    requires Valid(s)
  {
    Min(s.order.remaining, Front(s).size)
  }

  function CappedBase(s: State): nat
    requires Valid(s)
  {
    var base := FullBase(s);
    var byMaker := if s.order.reduceOnly then Min(Abs(s.makerPosition.size), base) else base;
    if Front(s).reduceOnly then Min(Abs(s.takerPosition.size), byMaker) else byMaker
  }

  /** The maker's price is worse than the price the taker's slippage is counted from. */
  predicate Slips(s: State)
    requires Valid(s)
  {
    if Front(s).isAsk then Front(s).price > s.leaf.price else Front(s).price < s.leaf.price
  }

  function AllowedBase(s: State): nat
    requires Valid(s)
  {
    if Slips(s) then Front(s).slippage / Abs(Front(s).price - s.leaf.price) else CappedBase(s)
  }

  function TradeBase(s: State): nat
    requires Valid(s)
  {
    if MarketType(Front(s).orderType) then Min(AllowedBase(s), CappedBase(s)) else CappedBase(s)
  }

  predicate TooMuchSlippage(s: State)
    requires Valid(s)
  {
    MarketType(Front(s).orderType) && AllowedBase(s) < CappedBase(s)
  }

  function LateRule(s: State, e: Env): Rule
    requires Valid(s)
  {
    var r := Front(s);
    if r.timeInForce == POST_ONLY then CancelTaker
    else if e.perps && s.order.reduceOnly && WrongWay(s.makerPosition.size, s.order.isAsk) then CancelMaker
    else if MarketType(r.orderType) && TradeBase(s) == 0 then CancelTaker
    else Continue
  }

  predicate FeeCollectorOk(e: Env) {
    e.feeAccount.accountType == INSURANCE_FUND || e.feeAccount.index == TREASURY
  }

  // ---------- the trade ----------

  function InputFor(s: State, e: Env, base: nat): TradeInput
    requires Valid(s)
  {
    TradeInput(Front(s).isAsk, base, base * s.leaf.price * (if e.perps then e.risk.quoteMultiplier else 1),
               s.takerPosition, s.makerPosition, s.taker.accountType, s.maker.accountType, e.takerFee, e.makerFee)
  }

  function OpenInterestAfter(s: State, e: Env, base: nat): int
    requires Valid(s)
  {
    var effect := PerpsTrade(InputFor(s, e, base), e.risk);
    s.openInterest + effect.taker.openInterest + effect.maker.openInterest
  }

  predicate GrowsOrFlips(before: Position, after: Position) {
    Abs(after.size) >= Abs(before.size) || SideFlipped(before, after)
  }

  predicate FundTrade(s: State) {
    s.taker.accountType == INSURANCE_FUND || s.maker.accountType == INSURANCE_FUND
  }

  function NotionalOf(openInterest: int, m: RiskDetails): int {
    openInterest * (m.markPrice * m.quoteMultiplier)
  }

  /** The open interest rules that cancel the taker instead of letting it trade. */
  predicate OpenInterestBad(s: State, e: Env, base: nat)
    requires Valid(s)
  {
    var after := OpenInterestAfter(s, e, base);
    var taker := PerpsTrade(InputFor(s, e, base), e.risk).taker.position;
    var full := NotionalOf(s.openInterest, e.risk) > e.openInterestLimit;
    || (full && GrowsOrFlips(s.takerPosition, taker) && !FundTrade(s))
    || (!full && NotionalOf(after, e.risk) > e.openInterestLimit && !FundTrade(s))
    || after > MAX_OPEN_INTEREST
    || NotionalOf(after, e.risk) > MAX_NOTIONAL
  }

  /** Which order a trade that may not happen is cancelled for. */
  function VerdictRule(s: State, e: Env, base: nat, j: Judgement): Rule
    requires Valid(s)
  {
    var takerBad := j.takerBad || (e.perps && OpenInterestBad(s, e, base));
    if takerBad && j.makerBad then CancelBoth
    else if takerBad then CancelTaker
    else if j.makerBad then CancelMaker
    else Continue
  }

  // ---------- the decision ----------

  datatype Decision = Decision(live: bool, reduces: bool, base: nat, cancelTaker: bool, cancelMaker: bool,
                               insertTaker: bool)

  /** The first rule that applies before a trade is computed. */
  function FirstRule(s: State, e: Env): Rule
    requires Valid(s)
  {
    if EarlyRule(s, e) != Continue then EarlyRule(s, e)
    else if SelfRule(s, e) != Continue then SelfRule(s, e)
    else LateRule(s, e)
  }

  function OfRule(rule: Rule): Decision {
    Decision(false, false, 0, rule == CancelTaker || rule == CancelBoth, rule == CancelMaker || rule == CancelBoth,
             rule == Insert)
  }

  /** A taker leaves after its trade: filled, unable to reduce further, slipped too far, or out of liquidation. */
  predicate TakerLeaves(s: State, e: Env, base: nat, j: Judgement)
    requires Valid(s)
  {
    var r := Front(s);
    || r.size == base
    || (r.reduceOnly && WrongWay(AfterTrade(s, e, base).takerPosition.size, r.isAsk))
    || TooMuchSlippage(s)
    || (r.orderType == LIQUIDATION_ORDER && !j.inLiquidation)
  }

  predicate MakerLeaves(s: State, e: Env, base: nat)
    requires Valid(s)
  {
    || s.order.remaining == base
    || (s.order.reduceOnly && WrongWay(AfterTrade(s, e, base).makerPosition.size, s.order.isAsk))
  }

  function Decide(s: State, e: Env, judge: Judge): Decision
    requires Valid(s)
  {
    var rule := FirstRule(s, e);
    if rule == Reduce then
      var base := FullBase(s);
      OfRule(rule).(reduces := true, base := base, cancelTaker := Front(s).size == base && KeepsCancel(s, e),
                    cancelMaker := s.order.remaining == base)
    else if rule != Continue then
      OfRule(rule).(cancelTaker := OfRule(rule).cancelTaker && KeepsCancel(s, e))
    else
      var base := TradeBase(s);
      var j := judge(base);
      var verdict := VerdictRule(s, e, base, j);
      if verdict != Continue then OfRule(verdict)
      else Decision(true, false, base, TakerLeaves(s, e, base, j), MakerLeaves(s, e, base), false)
  }

  /**
   The open interest test is not masked when no trade is computed; past its maximum it takes back
   a cancellation of the taker that an earlier rule decided.
   */
  predicate KeepsCancel(s: State, e: Env) {
    NotionalOf(s.openInterest, e.risk) <= MAX_NOTIONAL
  }

  // ---------- effects ----------

  predicate IsFund(a: Account) {
    a.accountType == INSURANCE_FUND
  }

  /** Spot limit orders of ordinary accounts lock balance. */
  predicate Locks(e: Env, orderType: nat, owner: Account) {
    !e.perps && orderType == LIMIT_ORDER && !IsFund(owner)
  }

  function Unlocked(assets: seq<Asset>, e: Env, o: AccountOrder, base: int, owner: Account): seq<Asset> {
    if Locks(e, o.orderType, owner) then
      ChangeLocked(assets, LockedAsset(e.market, o.isAsk), LockedAmount(e.market, o.isAsk, base, o.price), false)
    else assets
  }

  predicate CanUnlock(assets: seq<Asset>, e: Env, o: AccountOrder, base: int, owner: Account) {
    Locks(e, o.orderType, owner) ==>
      CanChange(assets, LockedAsset(e.market, o.isAsk), LockedAmount(e.market, o.isAsk, base, o.price), false)
  }

  /** Both sizes fall by the base, and the leaf shows what remains. */
  function Filled(s: State, base: nat, slippage: int): State
    requires Valid(s)
  {
    var remaining := s.order.remaining - base;
    s.(registers := s.registers[0 := Front(s).(size := Front(s).size - base, slippage := slippage)],
       order := s.order.(remaining := remaining),
       leaf := WithRemaining(s.leaf, s.order.isAsk, remaining))
  }

  function AfterReduce(s: State, e: Env, base: nat): State
    requires Valid(s)
  {
    Filled(s, base, Front(s).slippage).(takerAssets := Unlocked(s.takerAssets, e, s.order, base, s.taker))
  }

  /** What a taker gains (or loses) against its own price. */
  function PriceGain(s: State): int
    requires Valid(s)
  {
    if Front(s).isAsk then s.leaf.price - Front(s).price else Front(s).price - s.leaf.price
  }

  function SlippageAfter(s: State, base: nat): int
    requires Valid(s)
  {
    if MarketType(Front(s).orderType) then Front(s).slippage + PriceGain(s) * base else Front(s).slippage
  }

  function Traded(s: State, e: Env, base: nat, takerPosition: Position, makerPosition: Position,
                  openInterest: int): State
    requires Valid(s)
  {
    Filled(s, base, SlippageAfter(s, base))
      .(openInterest := openInterest, takerPosition := takerPosition, makerPosition := makerPosition,
        makerAssets := Unlocked(s.makerAssets, e, s.order, base, s.maker))
  }

  function AfterTrade(s: State, e: Env, base: nat): State
    requires Valid(s)
  {
    if e.perps then
      var effect := PerpsTrade(InputFor(s, e, base), e.risk);
      Traded(s, e, base, effect.taker.position, effect.maker.position, OpenInterestAfter(s, e, base))
    else
      Traded(s, e, base, s.takerPosition, s.makerPosition, s.openInterest)
  }

  /** The state the orders are removed from or inserted into. */
  function Middle(s: State, e: Env, d: Decision): State
    requires Valid(s)
  {
    if d.reduces then AfterReduce(s, e, d.base) else if d.live then AfterTrade(s, e, d.base) else s
  }

  function Put(s: State, enabled: bool, slot: nat, instruction: Register): State {
    if enabled then s.(writes := s.writes + [Write(slot, instruction)]) else s
  }

  function ChildInstruction(kind: nat, market: nat, owner: nat, child: nat, size: int): Register {
    EMPTY_REGISTER.(instruction := kind, market := market, account := owner, orderIndex := child, size := size)
  }

  function PutChildren(s: State, enabled: bool, kind: nat, market: nat, owner: nat, child0: nat, child1: nat, size: int,
                       top: nat): State
    requires top > 0
  {
    Put(Put(s, enabled && child0 != 0, top, ChildInstruction(kind, market, owner, child0, size)),
        enabled && child1 != 0, top - 1, ChildInstruction(kind, market, owner, child1, size))
  }

  /** The children of a leaving order: cancelled when nothing was filled, triggered for the filled size otherwise. */
  function PutOrderChildren(s: State, enabled: bool, market: nat, owner: nat, child0: nat, child1: nat, filled: int,
                            top: nat): State
    requires top > 0
  {
    if filled == 0 then PutChildren(s, enabled, CANCEL_SINGLE_ORDER, market, owner, child0, child1, 0, top)
    else PutChildren(s, enabled, TRIGGER_CHILD_ORDER, market, owner, child0, child1, filled, top)
  }

  function Popped(registers: seq<Register>): seq<Register>
    requires |registers| > 0
  {
    registers[1..] + [EMPTY_REGISTER]
  }

  /** One order fewer for an account and, in a perps market, for its position. */
  function Uncounted(s: State, e: Env, ofTaker: bool): State {
    var o := s.order;
    var base := s.(totalOrders := s.totalOrders - 1);
    if ofTaker then
      base.(taker := CountedAccount(s.taker, e.perps, IsIsolated(s.takerPosition), -1),
            takerPosition := if e.perps then CountedPosition(s.takerPosition, o.triggerStatus, o.reduceOnly, -1)
                else s.takerPosition)
    else
      base.(maker := CountedAccount(s.maker, e.perps, IsIsolated(s.makerPosition), -1),
            makerPosition := if e.perps then CountedPosition(s.makerPosition, o.triggerStatus, o.reduceOnly, -1)
                else s.makerPosition)
  }

  /** The leaving maker order no longer counts and no longer locks balance. */
  function Released(s: State, e: Env, ofTaker: bool): State {
    var counted := Uncounted(s, e, ofTaker);
    if ofTaker then counted.(takerAssets := Unlocked(s.takerAssets, e, s.order, s.order.remaining, s.taker))
    else counted.(makerAssets := Unlocked(s.makerAssets, e, s.order, s.order.remaining, s.maker))
  }

  function MakerChildren(s: State, o: AccountOrder, market: nat): State {
    PutOrderChildren(s, true, market, o.owner, o.child0, o.child1, o.initial - o.remaining, 7)
  }

  /** The maker order leaves: counts, locked balance, children, and the emptied order and leaf. */
  function WithoutMaker(s: State, e: Env, ofTaker: bool, market: nat): State {
    MakerChildren(Released(s, e, ofTaker), s.order, market)
      .(order := EmptyOrder(s.order), leaf := EmptyLeaf(s.leaf.price, s.leaf.nonce))
  }

  predicate CanRemoveMaker(s: State, e: Env, ofTaker: bool) {
    if ofTaker then CanUnlock(s.takerAssets, e, s.order, s.order.remaining, s.taker)
    else CanUnlock(s.makerAssets, e, s.order, s.order.remaining, s.maker)
  }

  /** One order more for the taker's account and position. */
  function Counted(s: State, e: Env, r: Register): State {
    var position := InitIfEmpty(s.takerPosition, s.taker.accountType, e.risk.defaultMarginMode);
    s.(totalOrders := s.totalOrders + 1,
       taker := CountedAccount(s.taker, e.perps, IsIsolated(position), 1),
       takerPosition := if e.perps then CountedPosition(position, r.triggerStatus, r.reduceOnly, 1)
           else s.takerPosition)
  }

  /** The taker's order rests, on the book or not, and locks balance or not. */
  function Rested(s: State, e: Env, r: Register, onBook: bool, locks: bool): State {
    var o := OrderOf(r);
    Counted(s.(leaf := if onBook then LeafOf(r) else s.leaf, order := o), e, r)
      .(takerAssets := if locks then
                         ChangeLocked(s.takerAssets, LockedAsset(e.market, o.isAsk),
                                      LockedAmount(e.market, o.isAsk, o.remaining, o.price), true)
                       else s.takerAssets)
  }

  /** The taker order rests: on the book unless it waits for its trigger. */
  function WithTaker(s: State, e: Env, r: Register): State {
    var onBook := r.triggerStatus == TRIGGER_NA;
    Rested(s, e, r, onBook, onBook && Locks(e, r.orderType, s.taker))
  }

  predicate CanInsert(s: State, e: Env, r: Register) {
    var o := OrderOf(r);
    r.triggerStatus == TRIGGER_NA && Locks(e, r.orderType, s.taker) ==>
      CanChange(s.takerAssets, LockedAsset(e.market, o.isAsk), LockedAmount(e.market, o.isAsk, o.remaining, o.price),
                true)
  }

  function TiedInstruction(market: nat, owner: nat, count: int): Register {
    EMPTY_REGISTER.(instruction := CANCEL_POSITION_TIED_ORDERS, market := market, account := owner, size := count)
  }

  function FeeInstruction(e: Env, collector: nat, amount: nat): Register {
    EMPTY_REGISTER.(instruction := TRANSFER_ASSET, account := e.feeAccount.index, slippage := collector, size := amount)
  }

  /** A position that changed its sign takes its tied orders with it. */
  function PutTied(s: State, enabled: bool, market: nat, owner: nat, before: Position, after: Position,
                   slot: nat): State {
    Put(s, enabled && Sign(before.size) != Sign(after.size) && after.tiedOrders != 0, slot,
        TiedInstruction(market, owner, after.tiedOrders))
  }

  function PutFee(s: State, enabled: bool, e: Env, collector: nat, amount: nat, slot: nat): State {
    Put(s, enabled && amount != 0 && collector != e.feeAccount.index, slot, FeeInstruction(e, collector, amount))
  }

  function PopStep(m: State, pops: bool): State
    requires |m.registers| > 0
  {
    if pops then m.(registers := Popped(m.registers), count := m.count - 1) else m
  }

  function RemoveStep(m: State, e: Env, removes: bool, ofTaker: bool, market: nat): State {
    if removes then WithoutMaker(m, e, ofTaker, market) else m
  }

  function LeaveStep(m: State, leaves: bool, r: Register): State {
    PutOrderChildren(m, leaves, r.market, r.account, r.child0, r.child1, r.initialSize - r.size, 5)
  }

  function InsertStep(m: State, e: Env, inserts: bool, r: Register): State {
    if inserts then WithTaker(m, e, r) else m
  }

  /** The state a taker is inserted into: popped, and without what leaves. */
  function BeforeInsert(m: State, e: Env, pops: bool, removes: bool, leaves: bool, sameAccount: bool): State
    requires |m.registers| > 0
  {
    var r := m.registers[0];
    LeaveStep(RemoveStep(PopStep(m, pops), e, removes, sameAccount, r.market), leaves, r)
  }

  /** Pops, removes and inserts what the decision says, from the state after the fill. */
  function Finish(s: State, m: State, e: Env, d: Decision): State
    requires Valid(s) && |m.registers| > 0
  {
    InsertStep(BeforeInsert(m, e, d.cancelTaker || d.insertTaker, d.cancelMaker, d.cancelTaker, SameAccount(s)),
               e, d.insertTaker, m.registers[0])
  }

  /** The checks while orders are removed and inserted. */
  predicate FinishChecks(s: State, m: State, e: Env, d: Decision)
    requires Valid(s) && |m.registers| > 0
  {
    && (d.cancelTaker || d.insertTaker ==> m.count != 0)
    && (d.cancelMaker ==> CanRemoveMaker(PopStep(m, d.cancelTaker || d.insertTaker), e, SameAccount(s)))
    && (d.insertTaker ==>
          CanInsert(BeforeInsert(m, e, true, d.cancelMaker, d.cancelTaker, SameAccount(s)), e, m.registers[0]))
  }

  function TiedStep(m: State, live: bool, r: Register, o: AccountOrder, taker: Position, maker: Position): State {
    PutTied(PutTied(m, live, r.market, r.account, taker, m.takerPosition, 3), live, r.market, o.owner, maker,
            m.makerPosition, 2)
  }

  function FeeStep(m: State, e: Env, enabled: bool, r: Register, o: AccountOrder, j: Judgement): State {
    PutFee(PutFee(m, enabled, e, r.collector, j.takerFeeOut, 1), enabled, e, o.collector, j.makerFeeOut, 0)
  }

  /** Instructions that follow a trade. */
  function FollowUp(s: State, m: State, e: Env, d: Decision, j: Judgement): State
    requires Valid(s)
  {
    FeeStep(TiedStep(m, d.live, Front(s), s.order, s.takerPosition, s.makerPosition), e,
            d.live && d.base != 0 && e.feeAccountExists, Front(s), s.order, j)
  }

  function Execute(s: State, e: Env, judge: Judge): State
    requires Valid(s)
  {
    var d := Decide(s, e, judge);
    FollowUp(s, Finish(s, Middle(s, e, d), e, d), e, d, judge(d.base))
  }

  // ---------- acceptance ----------

  /** The checks on a state before anything changes. */
  predicate RuleChecks(s: State, e: Env)
    requires Valid(s)
  {
    && FlagsValue(s) < 8 && e.feesInRange
    && EarlyChecks(s, e)
    && (EarlyRule(s, e) == Continue && SelfRule(s, e) == Continue ==>
          && MakerIsOther(s)
          && (LateRule(s, e) == Continue ==> FeeCollectorOk(e)))
  }

  /** The checks on the way: fees of a trade, balances and the register count. */
  predicate EffectChecks(s: State, e: Env, d: Decision)
    requires Valid(s)
  {
    && (d.reduces ==> CanUnlock(s.takerAssets, e, s.order, d.base, s.taker))
    && (d.live ==> e.feesAllowed && CanUnlock(s.makerAssets, e, s.order, d.base, s.maker))
    && FinishChecks(s, Middle(s, e, d), e, d)
  }

  predicate TradeChecks(s: State, e: Env)
    requires Valid(s)
  {
    e.perps && FirstRule(s, e) == Continue ==> PerpsTrade(InputFor(s, e, TradeBase(s)), e.risk).fee >= 0
  }

  predicate Accepts(s: State, e: Env, judge: Judge)
    requires Valid(s)
  {
    RuleChecks(s, e) && TradeChecks(s, e) && EffectChecks(s, e, Decide(s, e, judge))
  }
}
