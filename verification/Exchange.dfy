/** One perps market and all its accounts, over any run of trades and of funding and price updates. */
module Exchange {
  import opened Positions
  import opened Trades
  import opened Sums

  datatype Account = Account(cross: int, accountType: nat, position: Position)

  datatype State = State(accounts: seq<Account>, market: RiskDetails, openInterest: int)

  datatype Step =
    | Trade(taker: nat, maker: nat, feeAccount: nat, takerAsk: bool, base: nat, quote: int, takerFee: int,
            makerFee: int)
    | Update(fundingPrefix: int, markPrice: nat)

  function InputOf(x: State, s: Step): TradeInput
    requires s.Trade? && s.taker < |x.accounts| && s.maker < |x.accounts|
  {
    var t, m := x.accounts[s.taker], x.accounts[s.maker];
    TradeInput(s.takerAsk, s.base, s.quote, t.position, m.position, t.accountType, m.accountType, s.takerFee,
               s.makerFee)
  }

  /** A trade takes two different accounts and a fee account, and its total fee is not negative. */
  predicate Allowed(x: State, s: Step) {
    s.Trade? ==>
      && s.taker < |x.accounts| && s.maker < |x.accounts| && s.feeAccount < |x.accounts| && s.taker != s.maker
      && PerpsTrade(InputOf(x, s), x.market).fee >= 0
  }

  function ApplySideEffect(a: Account, e: SideEffect): Account {
    a.(cross := a.cross + e.crossDelta, position := e.position)
  }

  function Credit(a: Account, amount: int): Account {
    a.(cross := a.cross + amount)
  }

  /** Both sides, then the fee on the collateral of the fee account, which may be one of the two. */
  function Settle(accounts: seq<Account>, taker: nat, t: SideEffect, maker: nat, m: SideEffect, feeAccount: nat,
                  fee: int): seq<Account>
    requires taker < |accounts| && maker < |accounts| && feeAccount < |accounts| && taker != maker
  {
    var traded := accounts[taker := ApplySideEffect(accounts[taker], t)][maker := ApplySideEffect(accounts[maker], m)];
    traded[feeAccount := Credit(traded[feeAccount], fee)]
  }

  function Do(x: State, s: Step): State
    requires Allowed(x, s)
  {
    match s
    case Update(prefix, mark) => x.(market := x.market.(fundingPrefix := prefix, markPrice := mark))
    case Trade(taker, maker, feeAccount, _, _, _, _, _) =>
      var effect := PerpsTrade(InputOf(x, s), x.market);
      State(Settle(x.accounts, taker, effect.taker, maker, effect.maker, feeAccount, effect.fee), x.market,
            x.openInterest + effect.taker.openInterest + effect.maker.openInterest)
  }

  predicate RunAllowed(x: State, run: seq<Step>)
    decreases |run|, 0
  {
    run != [] ==> RunAllowed(x, run[..|run| - 1]) && Allowed(DoRun(x, run[..|run| - 1]), run[|run| - 1])
  }

  function DoRun(x: State, run: seq<Step>): State
    requires RunAllowed(x, run)
    decreases |run|, 1
  {
    if run == [] then x else Do(DoRun(x, run[..|run| - 1]), run[|run| - 1])
  }

  // ---------- what is conserved ----------

  function MarkValue(m: RiskDetails): int {
    m.quoteMultiplier * m.markPrice
  }

  /** Collateral, pending funding, and the position's profit at the mark price. */
  function Equity(a: Account, m: RiskDetails): int {
    a.cross + a.position.margin + FundingDelta(a.position, m)
    + (MarkValue(m) * a.position.size - SignedEntry(a.position)) * USDC_TO_COLLATERAL
  }

  function Sizes(x: State): seq<int> {
    seq(|x.accounts|, i requires 0 <= i < |x.accounts| => x.accounts[i].position.size)
  }

  function AbsSizes(x: State): seq<int> {
    seq(|x.accounts|, i requires 0 <= i < |x.accounts| => Abs(x.accounts[i].position.size))
  }

  function Equities(x: State): seq<int> {
    seq(|x.accounts|, i requires 0 <= i < |x.accounts| => Equity(x.accounts[i], x.market))
  }

  /** Longs and shorts balance, and open interest is what all accounts hold. */
  predicate Balanced(x: State) {
    && Sum(Sizes(x)) == 0
    && Sum(AbsSizes(x)) == x.openInterest
  }

  function TotalEquity(x: State): int {
    Sum(Equities(x))
  }

  /** The profit counted in the equity is the unrealized profit of a position without a stale entry quote. */
  lemma ProfitIsUnrealized(p: Position, m: RiskDetails)
    requires p.size == 0 ==> p.entryQuote == 0
    ensures UnrealizedPnl(p, m) == MarkValue(m) * p.size - SignedEntry(p)
  {
  }

  /**
   What a side effect has to satisfy: the size moves by delta, funding is settled, and collateral pays for
   the rest.
   */
  predicate Pays(a: Account, m: RiskDetails, e: SideEffect, delta: int, quote: int, fee: int) {
    && e.position.size == a.position.size + delta
    && e.openInterest == Abs(e.position.size) - Abs(a.position.size)
    && e.position.lastFunding == m.fundingPrefix
    && e.crossDelta + e.position.margin - a.position.margin
       == FundingDelta(a.position, m) - fee
          + (SignedEntry(e.position) - SignedEntry(a.position) - Sign(delta) * quote) * USDC_TO_COLLATERAL
  }

  /** The price difference a side gains: its size change at the mark price, less the quote it pays. */
  function Worth(m: RiskDetails, delta: int, quote: int): int {
    (MarkValue(m) * delta - Sign(delta) * quote) * USDC_TO_COLLATERAL
  }

  lemma WorthOpposite(m: RiskDetails, delta: int, quote: int)
    ensures Worth(m, -delta, quote) == -Worth(m, delta, quote)
  {
    assert MarkValue(m) * -delta == -(MarkValue(m) * delta);
    assert Sign(-delta) * quote == -(Sign(delta) * quote);
  }

  lemma FundingSettled(p: Position, m: RiskDetails)
    requires p.lastFunding == m.fundingPrefix
    ensures FundingDelta(p, m) == 0
  {
  }

  lemma TradeSidePays(a: Account, m: RiskDetails, delta: int, quote: int, base: nat, fee: int)
    ensures Pays(a, m, TradeSide(a.position, a.accountType, m, delta, quote, base, fee), delta, quote, fee)
  {
    SideKeepsCollateral(a.position, a.accountType, m, delta, quote, base, fee);
  }

  /** A trade changes the equity of a side by the price difference, less its fee. */
  lemma SideEquity(a: Account, m: RiskDetails, e: SideEffect, delta: int, quote: int, fee: int)
    requires Pays(a, m, e, delta, quote, fee)
    ensures Equity(ApplySideEffect(a, e), m) == Equity(a, m) + Worth(m, delta, quote) - fee
  {
    FundingSettled(e.position, m);
    Distribute(MarkValue(m), a.position.size, delta);
  }

  lemma Distribute(value: int, a: int, b: int)
    ensures value * (a + b) == value * a + value * b
  {
  }

  /** The columns of sizes and equities after both sides and the fee. */
  lemma SettleColumns(x: State, y: State, taker: nat, t: SideEffect, maker: nat, m: SideEffect,
                      feeAccount: nat, delta: int, quote: int, feeT: int, feeM: int)
    requires taker < |x.accounts| && maker < |x.accounts| && feeAccount < |x.accounts| && taker != maker
    requires Pays(x.accounts[taker], x.market, t, delta, quote, feeT)
    requires Pays(x.accounts[maker], x.market, m, -delta, quote, feeM)
    requires y.market == x.market && y.openInterest == x.openInterest + t.openInterest + m.openInterest
    requires y.accounts == Settle(x.accounts, taker, t, maker, m, feeAccount, feeT + feeM)
    ensures |y.accounts| == |x.accounts|
    ensures Sizes(y) == AddAt(AddAt(Sizes(x), taker, delta), maker, -delta)
    ensures AbsSizes(y) == AddAt(AddAt(AbsSizes(x), taker, t.openInterest), maker, m.openInterest)
    ensures var worth := Worth(x.market, delta, quote);
            Equities(y) == AddAt(AddAt(AddAt(Equities(x), taker, worth - feeT), maker, -worth - feeM), feeAccount,
                                 feeT + feeM)
  {
    SideEquity(x.accounts[taker], x.market, t, delta, quote, feeT);
    SideEquity(x.accounts[maker], x.market, m, -delta, quote, feeM);
    WorthOpposite(x.market, delta, quote);
  }

  function AddAt(s: seq<int>, i: nat, v: int): seq<int>
    requires i < |s|
  {
    s[i := s[i] + v]
  }

  lemma {:induction false} SumAddAt(s: seq<int>, i: nat, v: int)
    requires i < |s|
    ensures Sum(AddAt(s, i, v)) == Sum(s) + v
  {
    SumUpdate(s, i, s[i] + v);
  }

  lemma {:induction false} SumAddTwo(s: seq<int>, i: nat, a: int, j: nat, b: int)
    requires i < |s| && j < |s|
    ensures Sum(AddAt(AddAt(s, i, a), j, b)) == Sum(s) + a + b
  {
    SumAddAt(s, i, a);
    SumAddAt(AddAt(s, i, a), j, b);
  }

  lemma SettleConserves(x: State, y: State, taker: nat, t: SideEffect, maker: nat, m: SideEffect,
                        feeAccount: nat, delta: int, quote: int, feeT: int, feeM: int)
    requires taker < |x.accounts| && maker < |x.accounts| && feeAccount < |x.accounts| && taker != maker
    requires Pays(x.accounts[taker], x.market, t, delta, quote, feeT)
    requires Pays(x.accounts[maker], x.market, m, -delta, quote, feeM)
    requires y.market == x.market && y.openInterest == x.openInterest + t.openInterest + m.openInterest
    requires y.accounts == Settle(x.accounts, taker, t, maker, m, feeAccount, feeT + feeM)
    requires Balanced(x)
    ensures Balanced(y) && TotalEquity(y) == TotalEquity(x)
  {
    SettleColumns(x, y, taker, t, maker, m, feeAccount, delta, quote, feeT, feeM);
    SumAddTwo(Sizes(x), taker, delta, maker, -delta);
    SumAddTwo(AbsSizes(x), taker, t.openInterest, maker, m.openInterest);
    SumAddThree(Equities(x), Equities(y), taker, maker, feeAccount, Worth(x.market, delta, quote), feeT, feeM);
  }

  lemma {:induction false} SumAddThree(s: seq<int>, t: seq<int>, i: nat, j: nat, k: nat, worth: int, a: int, b: int)
    requires i < |s| && j < |s| && k < |s|
    requires t == AddAt(AddAt(AddAt(s, i, worth - a), j, -worth - b), k, a + b)
    ensures Sum(t) == Sum(s)
  {
    SumAddTwo(s, i, worth - a, j, -worth - b);
    SumAddAt(AddAt(AddAt(s, i, worth - a), j, -worth - b), k, a + b);
  }

  lemma TradeConserves(x: State, s: Step)
    requires s.Trade? && Allowed(x, s) && Balanced(x)
    ensures Balanced(Do(x, s)) && TotalEquity(Do(x, s)) == TotalEquity(x)
  {
    var input, taker, maker := InputOf(x, s), x.accounts[s.taker], x.accounts[s.maker];
    var delta, feeT, feeM := TakerDelta(input), FeeOf(input, s.takerFee), FeeOf(input, s.makerFee);
    var effect := PerpsTrade(input, x.market);
    TradeSidePays(taker, x.market, delta, s.quote, s.base, feeT);
    TradeSidePays(maker, x.market, -delta, s.quote, s.base, feeM);
    SettleConserves(x, Do(x, s), s.taker, effect.taker, s.maker, effect.maker, s.feeAccount, delta, s.quote, feeT,
                    feeM);
  }

  /** What one unit of size gains from a market update. */
  function UnitGain(before: RiskDetails, after: RiskDetails): int {
    before.quoteMultiplier * (before.fundingPrefix - after.fundingPrefix)
    + (MarkValue(after) - MarkValue(before)) * USDC_TO_COLLATERAL
  }

  lemma UpdateEquity(a: Account, before: RiskDetails, after: RiskDetails)
    requires before.quoteMultiplier == after.quoteMultiplier
    ensures Equity(a, after) == Equity(a, before) + UnitGain(before, after) * a.position.size
  {
    var size, q, last := a.position.size, before.quoteMultiplier, a.position.lastFunding;
    var value, value' := MarkValue(before), MarkValue(after);
    FundingSplit(size * q, last, before.fundingPrefix, after.fundingPrefix);
    assert size * q * (before.fundingPrefix - after.fundingPrefix)
           == q * (before.fundingPrefix - after.fundingPrefix) * size;
    assert value' * size - value * size == (value' - value) * size;
    assert ((value' - value) * size) * USDC_TO_COLLATERAL == (value' - value) * USDC_TO_COLLATERAL * size;
  }

  lemma FundingSplit(weight: int, last: int, before: int, after: int)
    ensures weight * (last - after) == weight * (last - before) + weight * (before - after)
  {
  }

  lemma UpdateConserves(x: State, s: Step)
    requires s.Update? && Balanced(x)
    ensures Balanced(Do(x, s)) && TotalEquity(Do(x, s)) == TotalEquity(x)
  {
    var y := Do(x, s);
    var gain := UnitGain(x.market, y.market);
    assert Sizes(y) == Sizes(x) && AbsSizes(y) == AbsSizes(x);
    forall i | 0 <= i < |x.accounts| ensures Equities(y)[i] == Equities(x)[i] + gain * Sizes(x)[i] {
      UpdateEquity(x.accounts[i], x.market, y.market);
    }
    SumLinear(Equities(x), Equities(y), Sizes(x), gain);
  }

  /**
   Conservation: over any run of trades and updates, sizes keep summing to zero, open interest stays
   the sum of all absolute sizes, and the equity of all accounts, the fee account among them, is constant.
   */
  lemma {:induction false} RunConserves(x: State, run: seq<Step>)
    requires Balanced(x) && RunAllowed(x, run)
    ensures Balanced(DoRun(x, run)) && TotalEquity(DoRun(x, run)) == TotalEquity(x)
  {
    if run != [] {
      var front, last := run[..|run| - 1], run[|run| - 1];
      RunConserves(x, front);
      if last.Trade? {
        TradeConserves(DoRun(x, front), last);
      } else {
        UpdateConserves(DoRun(x, front), last);
      }
    }
  }
}
