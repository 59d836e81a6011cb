/** What one matching execution reads and writes: the taker's register, the maker's order, accounts and counters. */
module Orders {
  import opened Positions

  const LIMIT_ORDER: nat := 0
  const MARKET_ORDER: nat := 1
  const STOP_LOSS_ORDER: nat := 2
  const STOP_LOSS_LIMIT_ORDER: nat := 3
  const TAKE_PROFIT_ORDER: nat := 4
  const TAKE_PROFIT_LIMIT_ORDER: nat := 5
  const TWAP_SUB_ORDER: nat := 7
  const LIQUIDATION_ORDER: nat := 8

  const IOC: nat := 0
  const POST_ONLY: nat := 2

  const TRIGGER_NA: nat := 0
  const TRIGGER_PARENT_ORDER: nat := 3

  const CANCEL_SINGLE_ORDER: nat := 3
  const CANCEL_POSITION_TIED_ORDERS: nat := 4
  const TRIGGER_CHILD_ORDER: nat := 5
  const TRANSFER_ASSET: nat := 8

  const TREASURY: nat := 0
  const NO_COLLECTOR: nat := 0
  const NONCE_RANGE: nat := 0x1_0000_0000_0000
  const MAX_BALANCE: nat := 0xffff_ffff_ffff_ffff_ffff_ffff

  /** A pending instruction; the front one holds the taker order while it is matched. */
  datatype Register = Register(
    instruction: nat,
    market: nat,
    account: nat,
    size: int,
    orderIndex: nat,
    clientOrderIndex: nat,
    initialSize: int,
    price: nat,
    nonce: nat,
    isAsk: bool,
    orderType: nat,
    timeInForce: nat,
    reduceOnly: bool,
    expiry: nat,
    slippage: int,
    triggerPrice: nat,
    triggerStatus: nat,
    child0: nat,
    child1: nat,
    toCancel: nat,
    collector: nat,
    takerFeeOrFlags: nat,
    makerFee: nat)

  const EMPTY_REGISTER: Register :=
    Register(0, 0, 0, 0, 0, 0, 0, 0, 0, false, 0, 0, false, 0, 0, 0, 0, 0, 0, 0, 0, 0, 0)

  /** An order book leaf at its price and nonce. */
  datatype Leaf = Leaf(price: nat, nonce: nat, askBase: int, askQuote: int, bidBase: int, bidQuote: int)

  datatype AccountOrder = AccountOrder(
    index0: nat,
    index1: nat,
    owner: nat,
    orderIndex: nat,
    clientOrderIndex: nat,
    initial: int,
    price: nat,
    nonce: nat,
    remaining: int,
    isAsk: bool,
    expiry: nat,
    timeInForce: nat,
    orderType: nat,
    reduceOnly: bool,
    triggerPrice: nat,
    triggerStatus: nat,
    child0: nat,
    child1: nat,
    toCancel: nat,
    collector: nat,
    takerFee: nat,
    makerFee: nat,
    flags: nat)

  datatype Account = Account(index: nat, master: nat, accountType: nat, orders: int, nonCrossOrders: int,
                             cancelAllTime: nat)

  datatype Asset = Asset(index: nat, locked: int)

  datatype Market = Market(
    index: nat,
    baseAsset: nat,
    quoteAsset: nat,
    sizeMultiplier: nat,
    quoteMultiplier: nat)

  /** An instruction put at a slot of the new instructions. */
  datatype Write = Write(slot: nat, instruction: Register)

  // ---------- leaves and orders ----------

  predicate LeafEmpty(l: Leaf) {
    l.askBase == 0 && l.askQuote == 0 && l.bidBase == 0 && l.bidQuote == 0
  }

  function EmptyLeaf(price: nat, nonce: nat): Leaf {
    Leaf(price, nonce, 0, 0, 0, 0)
  }

  function WithRemaining(l: Leaf, isAsk: bool, remaining: int): Leaf {
    if isAsk then l.(askBase := remaining, askQuote := l.price * remaining)
    else l.(bidBase := remaining, bidQuote := l.price * remaining)
  }

  function EmptyOrder(o: AccountOrder): AccountOrder {
    AccountOrder(o.index0, o.index1, o.owner, 0, 0, 0, 0, 0, 0, false, 0, 0, 0, false, 0, 0, 0, 0, 0, 0, 0, 0, 0)
  }

  function LeafOf(r: Register): Leaf {
    if r.isAsk then Leaf(r.price, r.nonce, r.size, r.size * r.price, 0, 0)
    else Leaf(r.price, r.nonce, 0, 0, r.size, r.size * r.price)
  }

  predicate FeeDisabled(collector: nat) {
    collector == NO_COLLECTOR
  }

  function OrderOf(r: Register): AccountOrder {
    var off := FeeDisabled(r.collector);
    AccountOrder(
      r.orderIndex, r.clientOrderIndex, r.account, r.orderIndex, r.clientOrderIndex,
      r.initialSize, r.price, r.nonce, r.size, r.isAsk, r.expiry, r.timeInForce, r.orderType, r.reduceOnly,
      r.triggerPrice, r.triggerStatus, r.child0, r.child1, r.toCancel, r.collector,
      if off then 0 else r.takerFeeOrFlags, if off then 0 else r.makerFee, if off then r.takerFeeOrFlags else 0)
  }

  function MarketOfOrder(index: nat): int {
    index / NONCE_RANGE - 1
  }

  /** The position is not one a reduce-only order of this side could reduce. */
  predicate WrongWay(size: int, isAsk: bool) {
    !((isAsk && size > 0) || (!isAsk && size < 0))
  }

  predicate MarketType(orderType: nat) {
    orderType == MARKET_ORDER || orderType == STOP_LOSS_ORDER || orderType == TAKE_PROFIT_ORDER
        || orderType == TWAP_SUB_ORDER
  }

  predicate LimitType(orderType: nat) {
    orderType == LIMIT_ORDER || orderType == LIQUIDATION_ORDER || orderType == STOP_LOSS_LIMIT_ORDER
    || orderType == TAKE_PROFIT_LIMIT_ORDER
  }

  /** Of the types, four may rest at their price, four trade at the market's, and no type does both. */
  lemma TypesApart(orderType: nat)
    ensures LimitType(orderType) <==> orderType in {0, 3, 5, 8}
    ensures MarketType(orderType) <==> orderType in {1, 2, 4, 7}
    ensures !(LimitType(orderType) && MarketType(orderType))
  {
  }

  // ---------- locked balances ----------

  function LockedAmount(m: Market, isAsk: bool, base: int, price: nat): int {
    base * if isAsk then m.sizeMultiplier else price * m.quoteMultiplier
  }

  function LockedAsset(m: Market, isAsk: bool): nat {
    if isAsk then m.baseAsset else m.quoteAsset
  }

  /** The position of the first asset with an index. */
  function FindAsset(assets: seq<Asset>, index: nat): (k: nat)
    ensures k <= |assets| && (k < |assets| ==> assets[k].index == index)
    ensures forall i :: 0 <= i < k ==> assets[i].index != index
  {
    if assets == [] then 0 else if assets[0].index == index then 0 else 1 + FindAsset(assets[1..], index)
  }

  function LockedOf(assets: seq<Asset>, index: nat): int {
    var k := FindAsset(assets, index);
    if k < |assets| then assets[k].locked else 0
  }

  function Signed(amount: int, add: bool): int {
    if add then amount else -amount
  }

  /** Locked balances after an amount is added to or taken from one asset. */
  function ChangeLocked(assets: seq<Asset>, index: nat, amount: int, add: bool): seq<Asset> {
    var k := FindAsset(assets, index);
    if k < |assets| then assets[k := assets[k].(locked := assets[k].locked + Signed(amount, add))] else assets
  }

  predicate InRange(locked: int, amount: int, add: bool) {
    if add then locked + amount <= MAX_BALANCE else locked - amount >= 0
  }

  /** The amount fits a balance, the asset is there, and its locked balance stays in range. */
  predicate CanChange(assets: seq<Asset>, index: nat, amount: int, add: bool) {
    && 0 <= amount <= MAX_BALANCE
    && FindAsset(assets, index) < |assets|
    && InRange(LockedOf(assets, index), amount, add)
  }

  /** When a change is allowed: a 96-bit amount, of an asset that is there, whose locked balance stays in 96 bits. */
  lemma CanChangeExactly(assets: seq<Asset>, index: nat, amount: int, add: bool)
    ensures CanChange(assets, index, amount, add) <==>
            && 0 <= amount <= 0xffff_ffff_ffff_ffff_ffff_ffff
            && exists k :: 0 <= k < |assets| && assets[k].index == index
                           && (forall i :: 0 <= i < k ==> assets[i].index != index)
                           && if add then assets[k].locked + amount <= 0xffff_ffff_ffff_ffff_ffff_ffff
                              else assets[k].locked >= amount
  {
  }

  /** What a change does: the first asset with the index moves, up or down, and nothing else does. */
  lemma ChangeMovesFirst(assets: seq<Asset>, index: nat, amount: int, add: bool, k: nat)
    requires k < |assets|
    ensures var after := ChangeLocked(assets, index, amount, add);
            && |after| == |assets| && after[k].index == assets[k].index
            && after[k].locked == assets[k].locked
                 + if assets[k].index == index && (forall i :: 0 <= i < k ==> assets[i].index != index)
                   then if add then amount else 0 - amount
                   else 0
  {
  }

  /** The loop over the assets of a transaction: the first with the index is changed. */
  method ChangeLockedBalance(enabled: bool, assets: seq<Asset>, index: nat, amount: int, add: bool)
      returns (ok: bool, after: seq<Asset>)
    ensures ok <==> !enabled || CanChange(assets, index, amount, add)
    ensures after == if enabled then ChangeLocked(assets, index, amount, add) else assets
  {
    after := assets;
    ok := !enabled || 0 <= amount <= MAX_BALANCE;
    var found := false;
    ghost var k := FindAsset(assets, index);
    for i := 0 to |assets|
      invariant |after| == |assets|
      invariant found <==> k < i
      invariant ok <==> !enabled || (0 <= amount <= MAX_BALANCE && (k < i ==> InRange(assets[k].locked, amount, add)))
      invariant after == if enabled && k < i then ChangeLocked(assets, index, amount, add) else assets
    {
      var matched := assets[i].index == index;
      var flag := enabled && matched && !found;
      found := found || matched;
      if flag {
        ok := ok && InRange(assets[i].locked, amount, add);
        after := after[i := assets[i].(locked := assets[i].locked + Signed(amount, add))];
      }
    }
    ok := ok && (!enabled || found);
  }

  // ---------- order counts ----------

  function Bit(b: bool): int {
    if b then 1 else 0
  }

  function CountedAccount(a: Account, perps: bool, isolated: bool, change: int): Account {
    a.(orders := a.orders + change,
       nonCrossOrders := a.nonCrossOrders + if !perps || isolated then change else 0)
  }

  function CountedPosition(p: Position, triggerStatus: nat, reduceOnly: bool, change: int): Position {
    p.(orders := p.orders + change,
       tiedOrders := p.tiedOrders + if triggerStatus != TRIGGER_PARENT_ORDER && reduceOnly then change else 0)
  }
}
