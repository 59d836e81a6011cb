/** The notional of open interest stays within its maximum over any run of price updates and executions. */
module OpenInterestCap {
  import Arith
  import opened Goldilocks
  import opened Positions
  import opened Trades
  import opened PreExecution
  import opened MatchingRules
  import opened MatchingTheorems

  datatype MarketStep =
    | Prices(details: MarketDetails, row: RiskRow, index: nat, mark: nat, appliesFunding: bool, updatesPrices: bool)
    | Matched(state: State, env: Env, judge: Judge)

  /** A step of a perps market with some open interest and risk details. */
  predicate Accepted(openInterest: int, risk: RiskDetails, step: MarketStep) {
    match step
    case Prices(d, row, index, mark, _, updates) =>
      d.openInterest == openInterest && row.risk == risk && RowAccepts(d, row, index, mark, updates)
    case Matched(s, e, judge) =>
      Valid(s) && e.perps && s.openInterest == openInterest && e.risk == risk && Accepts(s, e, judge)
  }

  function OpenInterestOf(openInterest: int, step: MarketStep): int {
    if step.Matched? && Valid(step.state) then Execute(step.state, step.env, step.judge).openInterest else openInterest
  }

  function RiskOf(risk: RiskDetails, step: MarketStep): RiskDetails {
    match step
    case Prices(d, row, _, mark, funding, updates) => RowAfter(d, row, mark, funding, updates).risk
    case Matched(_, _, _) => risk
  }

  predicate RunAccepted(openInterest: int, risk: RiskDetails, run: seq<MarketStep>)
    decreases |run|
  {
    run != [] ==>
      && Accepted(openInterest, risk, run[0])
      && RunAccepted(OpenInterestOf(openInterest, run[0]), RiskOf(risk, run[0]), run[1..])
  }

  function FinalOpenInterest(openInterest: int, run: seq<MarketStep>): int
    decreases |run|
  {
    if run == [] then openInterest else FinalOpenInterest(OpenInterestOf(openInterest, run[0]), run[1..])
  }

  function FinalRisk(risk: RiskDetails, run: seq<MarketStep>): RiskDetails
    decreases |run|
  {
    if run == [] then risk else FinalRisk(RiskOf(risk, run[0]), run[1..])
  }

  predicate Capped(openInterest: int, risk: RiskDetails) {
    NotionalOf(openInterest, risk) <= MAX_NOTIONAL
  }

  lemma StepKeepsCap(openInterest: int, risk: RiskDetails, step: MarketStep)
    requires Accepted(openInterest, risk, step) && Capped(openInterest, risk)
    ensures Capped(OpenInterestOf(openInterest, step), RiskOf(risk, step))
  {
    match step
    case Prices(d, row, index, mark, funding, updates) =>
      if risk.quoteMultiplier > 0 {
        MarkCapExact(d.openInterest, RowAfter(d, row, mark, funding, updates).risk);
      }
    case Matched(s, e, judge) =>
      ExecutionKeepsNotional(s, e, judge);
  }

  /** The cap holds after any accepted run. */
  lemma {:induction false} RunKeepsCap(openInterest: int, risk: RiskDetails, run: seq<MarketStep>)
    requires RunAccepted(openInterest, risk, run) && Capped(openInterest, risk)
    ensures Capped(FinalOpenInterest(openInterest, run), FinalRisk(risk, run))
    decreases |run|
  {
    if run != [] {
      StepKeepsCap(openInterest, risk, run[0]);
      RunKeepsCap(OpenInterestOf(openInterest, run[0]), RiskOf(risk, run[0]), run[1..]);
    }
  }

  // ---------- the comparisons in the field ----------

  /** The circuits' product of open interest, mark price and multiplier. */
  function FieldNotional(openInterest: int, m: RiskDetails): Felt {
    Encode(NotionalOf(openInterest, m))
  }

  /** The open interest rules as the circuit compares them. */
  predicate OpenInterestBadInField(s: State, e: Env, base: nat)
    requires Valid(s)
  {
    var after := OpenInterestAfter(s, e, base);
    var taker := PerpsTrade(InputFor(s, e, base), e.risk).taker.position;
    var full := FieldNotional(s.openInterest, e.risk) > e.openInterestLimit;
    || (full && GrowsOrFlips(s.takerPosition, taker) && !FundTrade(s))
    || (!full && FieldNotional(after, e.risk) > e.openInterestLimit && !FundTrade(s))
    || Encode(after) > MAX_OPEN_INTEREST
    || FieldNotional(after, e.risk) > MAX_NOTIONAL
  }

  lemma FieldNotionalExact(openInterest: int, more: int, m: RiskDetails)
    requires 0 <= openInterest <= more && NotionalOf(more, m) < P
    ensures FieldNotional(openInterest, m) == NotionalOf(openInterest, m)
  {
    var unit := m.markPrice * m.quoteMultiplier;
    Arith.MulMonotone(0, openInterest, unit);
    Arith.MulMonotone(openInterest, more, unit);
    EncodeSmall(NotionalOf(openInterest, m));
  }

  lemma NotionalAdds(a: int, b: int, m: RiskDetails)
    ensures NotionalOf(a + b, m) == NotionalOf(a, m) + NotionalOf(b, m)
  {
  }

  lemma SameDecision(s: State, e: Env, base: nat)
    requires Valid(s)
    requires FieldNotional(s.openInterest, e.risk) == NotionalOf(s.openInterest, e.risk)
    requires FieldNotional(OpenInterestAfter(s, e, base), e.risk) == NotionalOf(OpenInterestAfter(s, e, base), e.risk)
    requires Encode(OpenInterestAfter(s, e, base)) == OpenInterestAfter(s, e, base)
    ensures OpenInterestBadInField(s, e, base) <==> OpenInterestBad(s, e, base)
  {
  }

  /**
   From an open interest within the maximum, the circuit decides as over the integers for every trade that
   at the mark price is worth less than half of what the field leaves above the maximum.
   */
  lemma FieldDecides(s: State, e: Env, base: nat)
    requires Valid(s) && KeepsCancel(s, e) && 0 <= s.openInterest <= MAX_OPEN_INTEREST
    requires 0 <= OpenInterestAfter(s, e, base)
    requires 2 * base < P - MAX_OPEN_INTEREST && NotionalOf(2 * base, e.risk) < P - MAX_NOTIONAL
    ensures OpenInterestBadInField(s, e, base) <==> OpenInterestBad(s, e, base)
  {
    var after, most := OpenInterestAfter(s, e, base), s.openInterest + 2 * base;
    OpenInterestGrows(s, e, base);
    NotionalAdds(s.openInterest, 2 * base, e.risk);
    FieldNotionalExact(s.openInterest, most, e.risk);
    FieldNotionalExact(after, most, e.risk);
    EncodeSmall(after);
    SameDecision(s, e, base);
  }
}
