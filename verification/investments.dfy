/** The two kinds of investment and their valuation. A C# investment is a
    mutable object; here it is a value, and `CalculateDynamicPrice` returns
    the instrument as it is left alongside the price it computes. */
module Investments {
  import opened Runtime

  /** The risk-free rate every freshly constructed bond starts with. */
  const InitialRiskFreeRate: real := 0.01

  /** A price as the calculator's doubles hold it: a real number, or a
      non-finite value (an infinity or NaN), which absorbs every later sum
      and product. */
  datatype Amount = Finite(value: real) | NonFinite

  function Add(a: Amount, b: Amount): Amount
  {
    if a.Finite? && b.Finite? then Finite(a.value + b.value) else NonFinite
  }

  function Scale(k: real, a: Amount): Amount
  {
    if a.Finite? then Finite(k * a.value) else NonFinite
  }

  datatype Investment =
    | Bond(principalBalance: Int64, interestRatePerAnnum: real, maturityInYears: Int64, riskFreeRatePerAnnum: real)
    | Equity(currentStockPrice: real, numberOfShares: real)

  /** `x` raised to a natural power. */
  function NatPower(x: real, n: nat): (r: real)
    ensures x != 0.0 ==> r != 0.0
    ensures x > 0.0 ==> r > 0.0
  {
    if n == 0 then 1.0 else x * NatPower(x, n - 1)
  }

  /** `Math.Pow(x, e)` for an integral exponent: a negative exponent is the
      reciprocal of the positive power, and zero to a negative power is
      infinite. */
  function Pow(x: real, e: int): (r: Amount)
    ensures r.NonFinite? <==> x == 0.0 && e < 0
    ensures e >= 0 ==> r == Finite(NatPower(x, e))
    ensures e < 0 && x != 0.0 ==> r.Finite? && r.value * NatPower(x, -e) == 1.0
  {
    if e >= 0 then Finite(NatPower(x, e))
    else if x == 0.0 then NonFinite
    else Finite(1.0 / NatPower(x, -e))
  }

  /** The factor a bond's principal grows by per year of maturity. */
  function GrowthFactor(interestRate: real, riskFreeRate: real): real
  {
    1.0 + (interestRate - riskFreeRate)
  }

  /** The `Price` property: a bond is worth its principal compounded at the
      excess of its interest rate over the risk-free rate for its maturity;
      an equity holding is worth its shares at the current stock price. */
  function Price(inv: Investment): Amount
  {
    match inv
    case Bond(p, i, m, rf) => Scale(p as real, Pow(GrowthFactor(i, rf), m))
    case Equity(price, shares) => Finite(price * shares)
  }

  /** The instrument with its risk-free rate replaced; an equity has none. */
  function WithRiskFreeRate(inv: Investment, rate: real): Investment
  {
    if inv.Bond? then inv.(riskFreeRatePerAnnum := rate) else inv
  }

  /** The price a `CalculateDynamicPrice` call returns and the instrument as
      that call leaves it. */
  datatype Valuation = Valuation(price: Amount, updated: Investment)

  /** True when the criteria carry a replacement risk-free rate: a non-null
      array with exactly one entry. */
  predicate SingleCriterion(criteria: StringArray)
  {
    criteria.NonNull? && |criteria.value| == 1
  }

  /** True when two instruments agree on everything but the risk-free rate. */
  predicate SameTerms(a: Investment, b: Investment)
  {
    match a
    case Bond(p, i, m, _) => b.Bond? && b.principalBalance == p && b.interestRatePerAnnum == i && b.maturityInYears == m
    case Equity(_, _) => b == a
  }

  /** `CalculateDynamicPrice(criteria)`. A bond given exactly one criterion
      converts it to a double and keeps it as its risk-free rate from then
      on; with any other criteria it keeps its state. Either way it returns
      the static price of the bond as left. An equity ignores the criteria. */
  function CalculateDynamicPrice(inv: Investment, criteria: StringArray, c: Converter): (r: Result<Valuation>)
    ensures r.Success? ==> r.value.price == Price(r.value.updated)
    ensures r.Success? ==> SameTerms(inv, r.value.updated)
    ensures r.Success? && !SingleCriterion(criteria) ==> r.value.updated == inv
    ensures r.Success? && SingleCriterion(criteria) && inv.Bond? ==>
              ToDouble(c, criteria.value[0]) == Success(r.value.updated.riskFreeRatePerAnnum)
    ensures r.Failure? <==> inv.Bond? && SingleCriterion(criteria) && ToDouble(c, criteria.value[0]).Failure?
    ensures r.Failure? ==> r.error == Conversion
  {
    match inv
    case Equity(_, _) => Success(Valuation(Price(inv), inv))
    case Bond(_, _, _, _) =>
      if SingleCriterion(criteria) then
        var rate :- ToDouble(c, criteria.value[0]);
        var updated := WithRiskFreeRate(inv, rate);
        Success(Valuation(Price(updated), updated))
      else
        Success(Valuation(Price(inv), inv))
  }

  /** A bond's price is non-finite exactly when it is zero raised to a
      negative maturity; an equity's price is always finite. */
  lemma PriceNonFiniteIff(inv: Investment)
    ensures Price(inv).NonFinite? <==>
              inv.Bond? && inv.maturityInYears < 0 && GrowthFactor(inv.interestRatePerAnnum, inv.riskFreeRatePerAnnum) == 0.0
  {
  }

  /** A bond with non-negative maturity is worth P * (1 + (I - rf))^M. */
  lemma BondPriceFormula(inv: Investment)
    requires inv.Bond? && inv.maturityInYears >= 0
    ensures Price(inv) ==
              Finite((inv.principalBalance as real) * NatPower(1.0 + (inv.interestRatePerAnnum - inv.riskFreeRatePerAnnum), inv.maturityInYears))
  {
  }

  /** An equity's dynamic price is its static price whatever the criteria,
      and the call changes nothing. */
  lemma EquityIgnoresCriteria(inv: Investment, criteria: StringArray, c: Converter)
    requires inv.Equity?
    ensures CalculateDynamicPrice(inv, criteria, c) == Success(Valuation(Finite(inv.currentStockPrice * inv.numberOfShares), inv))
  {
    assert Price(inv) == Finite(inv.currentStockPrice * inv.numberOfShares);
  }

  /** A bond given one criterion that converts to `rate` ends with risk-free
      rate `rate` and returns P * (1 + (I - rate))^M, whatever rate it had. */
  lemma BondTakesCriterion(inv: Investment, s: string, rate: real, c: Converter)
    requires inv.Bond?
    requires c.parseDouble(s) == Some(rate)
    ensures var r := CalculateDynamicPrice(inv, ArrayOf([s]), c);
            && r.Success?
            && r.value.updated == Bond(inv.principalBalance, inv.interestRatePerAnnum, inv.maturityInYears, rate)
            && r.value.price == Scale(inv.principalBalance as real, Pow(1.0 + (inv.interestRatePerAnnum - rate), inv.maturityInYears))
  {
  }

  /** The rate is overwritten, not accumulated: repricing at `s1` and then at
      `s2` leaves the same instrument and price as repricing at `s2` alone. */
  lemma RepricingOverwrites(inv: Investment, s1: string, s2: string, c: Converter)
    requires c.parseDouble(s1).Some?
    ensures var first := CalculateDynamicPrice(inv, ArrayOf([s1]), c);
            first.Success? &&
            CalculateDynamicPrice(first.value.updated, ArrayOf([s2]), c) == CalculateDynamicPrice(inv, ArrayOf([s2]), c)
  {
  }

  /** Repricing twice with the same criteria is the same as repricing once. */
  lemma RepricingIdempotent(inv: Investment, criteria: StringArray, c: Converter)
    ensures var first := CalculateDynamicPrice(inv, criteria, c);
            first.Success? ==> CalculateDynamicPrice(first.value.updated, criteria, c) == first
  {
  }
}
