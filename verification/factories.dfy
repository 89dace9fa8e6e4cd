/** Choosing a factory by the first token of a line and building the
    investment from the remaining tokens by position. */
module Factories {
  import opened Runtime
  import opened Tokenizer
  import opened Investments

  /** The two factories, each holding the parameter array it was built with. */
  datatype InvestmentFactory = EquityFactory(parameters: StringArray) | BondFactory(parameters: StringArray)

  /** True when the parameter array is non-null and has a first entry. */
  predicate HasFirst(parameters: StringArray)
  {
    parameters.NonNull? && |parameters.value| > 0
  }

  /** `InvestmentFactoryProvider.GetInvestmentFactory`: "E" selects the
      equity factory and "B" the bond factory; any other first entry,
      including a null one, is an unknown investment type, and a null or
      empty array is invalid. */
  function GetInvestmentFactory(parameters: StringArray): (r: Result<InvestmentFactory>)
    ensures r.Success? ==> r.value.parameters == parameters
    ensures r == Failure(InvalidArguments) <==> !HasFirst(parameters)
    ensures r.Success? && r.value.EquityFactory? <==> HasFirst(parameters) && parameters.value[0] == NonNull("E")
    ensures r.Success? && r.value.BondFactory? <==> HasFirst(parameters) && parameters.value[0] == NonNull("B")
    ensures r == Failure(UnknownInvestmentType) <==>
              HasFirst(parameters) && parameters.value[0] != NonNull("E") && parameters.value[0] != NonNull("B")
  {
    if HasFirst(parameters) then
      match parameters.value[0]
      case NonNull("E") => Success(EquityFactory(parameters))
      case NonNull("B") => Success(BondFactory(parameters))
      case _ => Failure(UnknownInvestmentType)
    else
      Failure(InvalidArguments)
  }

  /** The factories' shared guard: it fires only when the array is non-null,
      its length differs from the expected one, AND some entry is null. */
  predicate GuardFires(parameters: StringArray, expectedLength: nat)
  {
    parameters.NonNull? && |parameters.value| != expectedLength && Null in parameters.value
  }

  /** `BondInvestmentFactory.GetInvestment`: after the guard, entries 1, 2
      and 3 are read and converted in that order to the principal (a long),
      the interest rate (a double) and the maturity (a long); the first
      failing step decides the exception. */
  function GetBondInvestment(parameters: StringArray, c: Converter): Result<Investment>
  {
    if GuardFires(parameters, 4) then Failure(InvalidBondArguments)
    else if parameters.Null? then Failure(NullReference)
    else
      var a := parameters.value;
      var principalToken :- Element(a, 1);
      var principal :- ToInt64(c, principalToken);
      var rateToken :- Element(a, 2);
      var rate :- ToDouble(c, rateToken);
      var maturityToken :- Element(a, 3);
      var maturity :- ToInt64(c, maturityToken);
      Success(Bond(principal, rate, maturity, InitialRiskFreeRate))
  }

  /** `EquityInvestmentFactory.GetInvestment`: after the guard, entry 1 is
      the number of shares and entry 2 the current stock price. */
  function GetEquityInvestment(parameters: StringArray, c: Converter): Result<Investment>
  {
    if GuardFires(parameters, 3) then Failure(InvalidEquityArguments)
    else if parameters.Null? then Failure(NullReference)
    else
      var a := parameters.value;
      var sharesToken :- Element(a, 1);
      var shares :- ToDouble(c, sharesToken);
      var priceToken :- Element(a, 2);
      var price :- ToDouble(c, priceToken);
      Success(Equity(price, shares))
  }

  /** `GetInvestment` of either factory. A bond comes out with the initial
      risk-free rate; the guard's exceptions are raised exactly when it
      fires. */
  function GetInvestment(f: InvestmentFactory, c: Converter): (r: Result<Investment>)
    ensures r.Success? ==> (r.value.Bond? <==> f.BondFactory?)
    ensures r.Success? && r.value.Bond? ==> r.value.riskFreeRatePerAnnum == InitialRiskFreeRate
    ensures r == Failure(InvalidBondArguments) <==> f.BondFactory? && GuardFires(f.parameters, 4)
    ensures r == Failure(InvalidEquityArguments) <==> f.EquityFactory? && GuardFires(f.parameters, 3)
    ensures r.Success? ==> f.parameters.NonNull? && |f.parameters.value| >= (if f.BondFactory? then 4 else 3)
  {
    match f
    case BondFactory(parameters) => GetBondInvestment(parameters, c)
    case EquityFactory(parameters) => GetEquityInvestment(parameters, c)
  }

  /** The bond factory's field mapping: with at least four entries that
      convert, the bond is built from entries 1, 2 and 3 (later entries are
      ignored) and starts at risk-free rate 0.01. */
  lemma BondFieldMapping(parameters: StringArray, c: Converter, principal: Int64, rate: real, maturity: Int64)
    requires parameters.NonNull? && |parameters.value| >= 4 && !GuardFires(parameters, 4)
    requires ToInt64(c, parameters.value[1]) == Success(principal)
    requires ToDouble(c, parameters.value[2]) == Success(rate)
    requires ToInt64(c, parameters.value[3]) == Success(maturity)
    ensures GetInvestment(BondFactory(parameters), c) == Success(Bond(principal, rate, maturity, 0.01))
  {
  }

  /** The equity factory's field mapping: entry 1 is the number of shares
      and entry 2 the stock price. */
  lemma EquityFieldMapping(parameters: StringArray, c: Converter, shares: real, price: real)
    requires parameters.NonNull? && |parameters.value| >= 3 && !GuardFires(parameters, 3)
    requires ToDouble(c, parameters.value[1]) == Success(shares)
    requires ToDouble(c, parameters.value[2]) == Success(price)
    ensures GetInvestment(EquityFactory(parameters), c) == Success(Equity(price, shares))
  {
  }

  /** A successfully built investment comes from exactly these conversions:
      nothing but entries 1..3 (bond) or 1..2 (equity) decides it. */
  lemma GetInvestmentDeterminedByFields(f: InvestmentFactory, c: Converter)
    requires GetInvestment(f, c).Success?
    ensures var inv := GetInvestment(f, c).value;
            var a := f.parameters.value;
            match inv
            case Bond(p, i, m, rf) =>
              ToInt64(c, a[1]) == Success(p) && ToDouble(c, a[2]) == Success(i) && ToInt64(c, a[3]) == Success(m) && rf == 0.01
            case Equity(price, shares) =>
              ToDouble(c, a[1]) == Success(shares) && ToDouble(c, a[2]) == Success(price)
  {
  }

  /** Tokens of a line are never null, so neither guard ever fires on them. */
  lemma GuardSilentOnLines(line: string, expectedLength: nat)
    ensures !GuardFires(ArrayOf(Tokenize(line)), expectedLength)
  {
  }

  /** A line with too few fields for its kind is not caught by the guard: if
      the fields it has convert, it fails on an out-of-range index. */
  lemma ShortLineFailsOnIndex(line: string, f: InvestmentFactory, c: Converter)
    requires f.parameters == ArrayOf(Tokenize(line))
    requires |Tokenize(line)| < (if f.BondFactory? then 4 else 3)
    requires f.BondFactory? && |Tokenize(line)| > 1 ==> ToInt64(c, NonNull(Tokenize(line)[1])).Success?
    requires f.BondFactory? && |Tokenize(line)| > 2 ==> ToDouble(c, NonNull(Tokenize(line)[2])).Success?
    requires f.EquityFactory? && |Tokenize(line)| > 1 ==> ToDouble(c, NonNull(Tokenize(line)[1])).Success?
    ensures GetInvestment(f, c) == Failure(IndexOutOfRange)
  {
    GuardSilentOnLines(line, if f.BondFactory? then 4 else 3);
  }

  /** What the selector does with the tokens of a line, stated on the line
      itself: the bond factory exactly for "B" or a line starting "B ", the
      equity factory exactly for "E" or a line starting "E ", never an
      invalid-arguments error (a split has at least one token), and an
      unknown type for every other line, the empty line included. */
  lemma SelectorOnLine(line: string)
    ensures var r := GetInvestmentFactory(ArrayOf(Tokenize(line)));
            && (r.Success? && r.value.BondFactory? <==> line == "B" || (|line| >= 2 && line[..2] == "B "))
            && (r.Success? && r.value.EquityFactory? <==> line == "E" || (|line| >= 2 && line[..2] == "E "))
            && r != Failure(InvalidArguments)
            && (r.Failure? ==> r.error == UnknownInvestmentType)
  {
    FirstTokenIs(line, 'B');
    FirstTokenIs(line, 'E');
  }

  /** The first token of a line is the single letter `k` exactly when the line
      is that letter or starts with it and a delimiter. */
  lemma FirstTokenIs(line: string, k: char)
    requires k != Delimiter
    ensures Tokenize(line)[0] == [k] <==> line == [k] || (|line| >= 2 && line[..2] == [k, Delimiter])
  {
    var t := Tokenize(line)[0];
    FirstToken(line, Delimiter);
    if line == [k] {
      SplitWithoutDelimiter(line, Delimiter);
    } else if |line| >= 2 && line[..2] == [k, Delimiter] {
      assert line[0] == k && line[1] == Delimiter;
      assert |t| < 2;
      assert |t| != 0;
      assert t == line[..1];
    }
    if t == [k] {
      assert line[0] == k;
      if |line| > 1 {
        assert line[1] == Delimiter;
        assert line[..2] == [k, Delimiter];
      } else {
        assert line == [k];
      }
    }
  }
}
