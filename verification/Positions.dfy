/** A perps position, the market data it is valued with, and its funding. */
module Positions {

  const USDC_TO_COLLATERAL: int := 1_000_000
  const MARGIN_TICK: int := 10_000
  const MARGIN_FRACTION_MULTIPLIER: int := USDC_TO_COLLATERAL / MARGIN_TICK
  const CROSS_MARGIN: nat := 0
  const ISOLATED_MARGIN: nat := 1
  const MARGIN_SET: nat := 1
  const PUBLIC_POOL: nat := 2
  const INSURANCE_FUND: nat := 3

  datatype Position = Position(
    size: int,
    entryQuote: nat,
    lastFunding: int,
    fraction: nat,
    margin: int,
    orders: int,
    tiedOrders: int,
    marginMode: nat,
    marginSet: nat)

  datatype RiskDetails = RiskDetails(
    markPrice: nat,
    quoteMultiplier: nat,
    fundingPrefix: int,
    defaultFraction: nat,
    minFraction: nat,
    defaultMarginMode: nat)

  function Abs(x: int): nat {
    if x < 0 then -x else x
  }

  function Sign(x: int): int {
    if x < 0 then -1 else if x > 0 then 1 else 0
  }

  function Max(x: int, y: int): int {
    if x < y then y else x
  }

  function Min(x: int, y: int): int {
    if x < y then x else y
  }

  /** The circuits' quotient: division by zero yields zero. */
  function Quotient(a: nat, b: nat): nat {
    if b == 0 then 0 else a / b
  }

  function CeilQuotient(a: nat, b: nat): nat {
    if b == 0 then 0 else (a + b - 1) / b
  }

  predicate IsEmpty(p: Position) {
    p == Position(0, 0, 0, 0, 0, 0, 0, 0, 0)
  }

  /** A first use fixes the margin mode: pools and the insurance fund are always cross. */
  function InitIfEmpty(p: Position, accountType: nat, defaultMode: nat): Position {
    if !IsEmpty(p) then p
    else p.(marginMode := if accountType == INSURANCE_FUND || accountType == PUBLIC_POOL then CROSS_MARGIN
            else defaultMode,
            marginSet := MARGIN_SET)
  }

  function InitialFraction(p: Position, m: RiskDetails): nat {
    var own := if p.fraction == 0 then m.defaultFraction else p.fraction;
    if m.minFraction <= own then own else m.minFraction
  }

  /** Collateral the position gains from the funding since it last settled. */
  function FundingDelta(p: Position, m: RiskDetails): int {
    p.size * m.quoteMultiplier * (p.lastFunding - m.fundingPrefix)
  }

  /** Quote the position would gain at the mark price. */
  function UnrealizedPnl(p: Position, m: RiskDetails): int {
    var result := m.quoteMultiplier * m.markPrice * Abs(p.size) - p.entryQuote;
    if p.size > 0 then result else -result
  }

  function SignedEntry(p: Position): int {
    Sign(p.size) * p.entryQuote
  }
}
