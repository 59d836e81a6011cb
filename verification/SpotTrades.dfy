/** A spot trade: what each account gives and receives, with fees taken from what is received. */
module SpotTrades {
  import opened Positions
  import Arith

  const FEE_TICK: nat := 1_000_000

  datatype SpotInput = SpotInput(
    takerAsk: bool,
    base: nat,
    quote: int,
    takerFee: int,
    makerFee: int,
    sizeMultiplier: nat,
    quoteMultiplier: nat,
    feeIsTaker: bool,
    feeIsMaker: bool)

  /** Changes of base and of quote balance. */
  datatype Deltas = Deltas(base: int, quote: int)

  datatype SpotEffect = SpotEffect(taker: Deltas, maker: Deltas, fee: Deltas)

  predicate SpotAllowed(t: SpotInput) {
    t.quote >= 0 && t.takerFee >= 0 && t.makerFee >= 0
  }

  /** Fees in the units of each asset: the buyer pays on the base it gets, the seller on the quote. */
  function BaseFee(t: SpotInput): int {
    (if t.takerAsk then t.makerFee else t.takerFee) * (t.base * (t.sizeMultiplier / FEE_TICK))
  }

  function QuoteFee(t: SpotInput): int {
    (if t.takerAsk then t.takerFee else t.makerFee) * (Abs(t.quote) * (t.quoteMultiplier / FEE_TICK))
  }

  function BaseMoved(t: SpotInput): int {
    t.base * t.sizeMultiplier
  }

  function QuoteMoved(t: SpotInput): int {
    Abs(t.quote) * t.quoteMultiplier
  }

  /** The seller's changes, the buyer's changes, and what a third fee account receives. */
  function SpotTrade(t: SpotInput): SpotEffect {
    var seller := Deltas(-BaseMoved(t), QuoteMoved(t) - QuoteFee(t));
    var buyer := Deltas(BaseMoved(t) - BaseFee(t), -QuoteMoved(t));
    var taker := if t.takerAsk then seller else buyer;
    var maker := if t.takerAsk then buyer else seller;
    var fee := Deltas(BaseFee(t), QuoteFee(t));
    SpotEffect(if t.feeIsTaker then Plus(taker, fee) else taker,
               if t.feeIsMaker then Plus(maker, fee) else maker,
               if t.feeIsTaker || t.feeIsMaker then Deltas(0, 0) else fee)
  }

  function Plus(a: Deltas, b: Deltas): Deltas {
    Deltas(a.base + b.base, a.quote + b.quote)
  }

  /**
   Conservation: both assets only change hands, exactly unless the fee account is counted as taker
   and maker at once.
   */
  lemma SpotConserves(t: SpotInput)
    ensures var e := SpotTrade(t);
            (e.taker.base + e.maker.base + e.fee.base == 0 && e.taker.quote + e.maker.quote + e.fee.quote == 0)
            <==> !(t.feeIsTaker && t.feeIsMaker) || (BaseFee(t) == 0 && QuoteFee(t) == 0)
  {
  }

  lemma FeeWithin(amount: nat, multiplier: nat, rate: int)
    requires 0 <= rate <= FEE_TICK
    ensures 0 <= rate * (amount * (multiplier / FEE_TICK)) <= amount * multiplier
  {
    var unit := multiplier / FEE_TICK;
    Arith.DivMod(multiplier, FEE_TICK);
    assert amount * unit >= 0;
    Arith.MulMonotone(rate, FEE_TICK, amount * unit);
    Arith.MulMonotone(0, rate, amount * unit);
    assert FEE_TICK * (amount * unit) == FEE_TICK * unit * amount;
    Arith.MulMonotone(FEE_TICK * unit, multiplier, amount);
  }

  /** With fee rates up to one whole nobody who receives an asset ends up paying it, and fees are not negative. */
  lemma ReceiversReceive(t: SpotInput)
    requires SpotAllowed(t) && t.takerFee <= FEE_TICK && t.makerFee <= FEE_TICK
    ensures var e := SpotTrade(t);
            && (if t.takerAsk then e.taker.quote >= 0 && e.maker.base >= 0 else e.taker.base >= 0 && e.maker.quote >= 0)
            && e.fee.base >= 0 && e.fee.quote >= 0
  {
    FeeWithin(t.base, t.sizeMultiplier, if t.takerAsk then t.makerFee else t.takerFee);
    FeeWithin(Abs(t.quote), t.quoteMultiplier, if t.takerAsk then t.takerFee else t.makerFee);
  }

  /** A fee is the whole part of its rate on the amount moved, exact when the multiplier is in whole fee ticks. */
  lemma FeeIsShare(amount: nat, multiplier: nat, rate: int)
    requires rate >= 0
    ensures var fee := rate * (amount * (multiplier / FEE_TICK));
            && fee * FEE_TICK <= rate * (amount * multiplier)
            && (multiplier % FEE_TICK == 0 ==> fee * FEE_TICK == rate * (amount * multiplier))
  {
    var unit := multiplier / FEE_TICK;
    Arith.DivMod(multiplier, FEE_TICK);
    Arith.MulMonotone(FEE_TICK * unit, multiplier, amount);
    assert FEE_TICK * unit * amount == amount * unit * FEE_TICK;
    Arith.MulMonotone(amount * unit * FEE_TICK, amount * multiplier, rate);
    assert rate * (amount * unit) * FEE_TICK == amount * unit * FEE_TICK * rate;
  }

  /** What one side pays out in full, and what it is left with after its own rate on what it receives. */
  predicate PaysOwnRate(given: int, got: int, moved: int, received: int, rate: int, exact: bool) {
    && given == -moved
    && got * FEE_TICK >= received * (FEE_TICK - rate)
    && (exact ==> got * FEE_TICK == received * (FEE_TICK - rate))
  }

  /** The changes before a fee account that is one of the sides is credited. */
  function BeforeCredit(t: SpotInput): SpotEffect {
    SpotTrade(t.(feeIsTaker := false, feeIsMaker := false))
  }

  /**
   The two sides exchange base for quote, and each pays at most its own rate on what it receives, exactly
   that rate when the multipliers are in whole fee ticks. The fee account gets both fees, whoever it is.
   */
  lemma OwnRateOnReceived(t: SpotInput)
    requires SpotAllowed(t)
    ensures var e := BeforeCredit(t);
            var seller, buyer := if t.takerAsk then e.taker else e.maker, if t.takerAsk then e.maker else e.taker;
            var sellerRate := if t.takerAsk then t.takerFee else t.makerFee;
            var buyerRate := if t.takerAsk then t.makerFee else t.takerFee;
            && PaysOwnRate(seller.base, seller.quote, BaseMoved(t), QuoteMoved(t), sellerRate,
                           t.quoteMultiplier % FEE_TICK == 0)
            && PaysOwnRate(buyer.quote, buyer.base, QuoteMoved(t), BaseMoved(t), buyerRate,
                           t.sizeMultiplier % FEE_TICK == 0)
            && e.fee == Deltas(BaseMoved(t) - buyer.base, QuoteMoved(t) - seller.quote)
    ensures var e, f := BeforeCredit(t), SpotTrade(t);
            && f.taker == (if t.feeIsTaker then Plus(e.taker, e.fee) else e.taker)
            && f.maker == (if t.feeIsMaker then Plus(e.maker, e.fee) else e.maker)
            && f.fee == if t.feeIsTaker || t.feeIsMaker then Deltas(0, 0) else e.fee
  {
    FeeIsShare(t.base, t.sizeMultiplier, if t.takerAsk then t.makerFee else t.takerFee);
    FeeIsShare(Abs(t.quote), t.quoteMultiplier, if t.takerAsk then t.takerFee else t.makerFee);
  }
}
