/** The driver: checking the command line, turning every line of the input
    file into an investment, and computing the portfolio total three times,
    first statically and then at the risk-free rates "0.02" and "0.03". The
    bonds' risk-free rates set in the second pass carry into the third. */
module Program {
  import opened Runtime
  import opened Tokenizer
  import opened Investments
  import opened Factories

  /** The criteria of the second and of the third total. */
  const SecondScenario: string := "0.02"
  const ThirdScenario: string := "0.03"

  /** The input files that exist, each with its lines as `File.ReadAllLines`
      returns them. */
  type FileSystem = map<string, seq<string>>

  /** How a run ends: an unhandled exception (nothing printed), a silent
      exit because the file does not exist, or the three totals printed. */
  datatype Outcome =
    | Crashed(error: Exception)
    | NoOutput
    | Printed(staticTotal: Amount, secondTotal: Amount, thirdTotal: Amount)

  /** One line: tokenise, select a factory, build the investment. */
  function ParseLine(line: string, c: Converter): Result<Investment>
  {
    var factory :- GetInvestmentFactory(ArrayOf(Tokenize(line)));
    GetInvestment(factory, c)
  }

  /** The investments of all lines, in line order; the first line that fails
      aborts the whole file with its exception. */
  function ParseLines(lines: seq<string>, c: Converter): (r: Result<seq<Investment>>)
    ensures r.Success? ==> |r.value| == |lines|
    ensures r.Success? ==> forall i :: 0 <= i < |lines| ==> ParseLine(lines[i], c) == Success(r.value[i])
    ensures r.Failure? ==>
              exists i :: 0 <= i < |lines| && ParseLine(lines[i], c) == Failure(r.error)
                            && forall j :: 0 <= j < i ==> ParseLine(lines[j], c).Success?
  {
    if |lines| == 0 then Success([])
    else
      var first :- ParseLine(lines[0], c);
      var rest :- ParseLines(lines[1..], c);
      assert forall i :: 1 <= i < |lines| ==> lines[i] == lines[1..][i - 1];
      Success([first] + rest)
  }

  /** Every bond in the list still has the initial risk-free rate. */
  predicate FreshlyBuilt(invs: seq<Investment>)
  {
    forall i :: 0 <= i < |invs| && invs[i].Bond? ==> invs[i].riskFreeRatePerAnnum == InitialRiskFreeRate
  }

  /** Every investment a file yields is fresh. */
  lemma ParsedInvestmentsFresh(lines: seq<string>, c: Converter)
    requires ParseLines(lines, c).Success?
    ensures FreshlyBuilt(ParseLines(lines, c).value)
  {
    var invs := ParseLines(lines, c).value;
    forall i | 0 <= i < |invs| && invs[i].Bond?
      ensures invs[i].riskFreeRatePerAnnum == InitialRiskFreeRate
    {
      assert ParseLine(lines[i], c) == Success(invs[i]);
    }
  }

  /** `Sum(i => i.Price)`: the total of the static prices. Exact addition
      is associative, so summing from the right gives LINQ's left-to-right
      total. */
  function StaticTotal(invs: seq<Investment>): Amount
  {
    if |invs| == 0 then Finite(0.0) else Add(Price(invs[0]), StaticTotal(invs[1..]))
  }

  /** A pass `Sum(i => i.CalculateDynamicPrice(criteria))`: its total, and
      the investments as the pass leaves them. */
  datatype Pass = Pass(total: Amount, investments: seq<Investment>)

  /** One dynamic-price pass over the portfolio, in order. Its total is the
      static total of the investments it leaves behind, and each of those is
      what CalculateDynamicPrice made of the corresponding input. It fails
      exactly when some investment's repricing fails. */
  function DynamicPass(invs: seq<Investment>, criteria: StringArray, c: Converter): (r: Result<Pass>)
    ensures r.Success? ==> |r.value.investments| == |invs|
    ensures r.Success? ==> r.value.total == StaticTotal(r.value.investments)
    ensures r.Success? ==>
              forall i :: 0 <= i < |invs| ==>
                CalculateDynamicPrice(invs[i], criteria, c) == Success(Valuation(Price(r.value.investments[i]), r.value.investments[i]))
    ensures r.Failure? <==> exists i :: 0 <= i < |invs| && CalculateDynamicPrice(invs[i], criteria, c).Failure?
    ensures r.Failure? ==> r.error == Conversion
  {
    if |invs| == 0 then Success(Pass(Finite(0.0), []))
    else
      var head :- CalculateDynamicPrice(invs[0], criteria, c);
      var rest :- DynamicPass(invs[1..], criteria, c);
      assert forall i :: 1 <= i < |invs| ==> invs[i] == invs[1..][i - 1];
      var updated := [head.updated] + rest.investments;
      assert updated[1..] == rest.investments;
      Success(Pass(Add(head.price, rest.total), updated))
  }

  /** The state the program reaches once all three totals are computed. */
  datatype Evaluation = Evaluation(staticTotal: Amount, second: Pass, third: Pass)

  /** The three totals of `Main`, in order, threading the instruments the
      second pass leaves into the third. */
  function Evaluate(invs: seq<Investment>, c: Converter): Result<Evaluation>
  {
    var first := StaticTotal(invs);
    var second :- DynamicPass(invs, ArrayOf([SecondScenario]), c);
    var third :- DynamicPass(second.investments, ArrayOf([ThirdScenario]), c);
    Success(Evaluation(first, second, third))
  }

  /** `File.Exists`: false for a null path. */
  predicate FileExists(fs: FileSystem, path: Nullable<string>)
  {
    path.NonNull? && path.value in fs
  }

  /** `Main(args)`. A non-null argument array must hold exactly one path; a
      null one passes that check and fails on `args[0]`. A path that does
      not exist ends the run silently. Otherwise every line becomes an
      investment and the three totals are printed; any exception on the way
      ends the run with nothing printed. */
  function Run(args: StringArray, fs: FileSystem, c: Converter): Outcome
  {
    if args.NonNull? && |args.value| != 1 then Crashed(MissingInputPath)
    else if args.Null? then Crashed(NullReference)
    else if !FileExists(fs, args.value[0]) then NoOutput
    else
      match ParseLines(fs[args.value[0].value], c)
      case Failure(e) => Crashed(e)
      case Success(invs) =>
        match Evaluate(invs, c)
        case Failure(e) => Crashed(e)
        case Success(ev) => Printed(ev.staticTotal, ev.second.total, ev.third.total)
  }

  // Reference definitions: the portfolio's bonds and equities valued apart.

  /** The bonds' total with every bond priced at risk-free rate `rate`,
      whatever rate it carries. */
  function BondTotalAt(invs: seq<Investment>, rate: real): Amount
  {
    if |invs| == 0 then Finite(0.0)
    else Add(if invs[0].Bond? then Price(WithRiskFreeRate(invs[0], rate)) else Finite(0.0), BondTotalAt(invs[1..], rate))
  }

  /** The equities' total. */
  function EquityTotal(invs: seq<Investment>): Amount
  {
    if |invs| == 0 then Finite(0.0)
    else Add(if invs[0].Equity? then Price(invs[0]) else Finite(0.0), EquityTotal(invs[1..]))
  }

  /** Every bond repriced at `rate`; equities as they are. */
  function RepriceAll(invs: seq<Investment>, rate: real): (r: seq<Investment>)
    ensures |r| == |invs|
    ensures forall i :: 0 <= i < |invs| ==> r[i] == WithRiskFreeRate(invs[i], rate)
  {
    if |invs| == 0 then []
    else [WithRiskFreeRate(invs[0], rate)] + RepriceAll(invs[1..], rate)
  }

  lemma AddInterchange(a: Amount, b: Amount, c: Amount, d: Amount)
    ensures Add(Add(a, b), Add(c, d)) == Add(Add(a, c), Add(b, d))
  {
  }

  lemma AddZero(a: Amount)
    ensures Add(Finite(0.0), a) == a && Add(a, Finite(0.0)) == a
  {
  }

  /** The static total of a portfolio whose bonds all carry rate `rate` is
      its bonds' total at `rate` plus its equities' total. */
  lemma {:induction false} StaticTotalSplits(invs: seq<Investment>, rate: real)
    requires forall i :: 0 <= i < |invs| && invs[i].Bond? ==> invs[i].riskFreeRatePerAnnum == rate
    ensures StaticTotal(invs) == Add(BondTotalAt(invs, rate), EquityTotal(invs))
    decreases |invs|
  {
    if |invs| == 0 {
      AddZero(Finite(0.0));
    } else {
      var rest := invs[1..];
      assert forall i :: 0 <= i < |rest| ==> rest[i] == invs[i + 1];
      StaticTotalSplits(rest, rate);
      var head := invs[0];
      if head.Bond? {
        assert WithRiskFreeRate(head, rate) == head;
        AddZero(Price(head));
      } else {
        AddZero(Price(head));
      }
      AddInterchange(if head.Bond? then Price(head) else Finite(0.0), BondTotalAt(rest, rate),
                     if head.Equity? then Price(head) else Finite(0.0), EquityTotal(rest));
    }
  }

  /** A pass whose criterion converts to `rate` succeeds, leaves every bond
      at risk-free rate `rate` and every equity untouched, and totals the
      bonds at `rate` plus the equities. */
  lemma {:induction false} DynamicPassAtRate(invs: seq<Investment>, s: string, rate: real, c: Converter)
    requires c.parseDouble(s) == Some(rate)
    ensures DynamicPass(invs, ArrayOf([s]), c) == Success(Pass(Add(BondTotalAt(invs, rate), EquityTotal(invs)), RepriceAll(invs, rate)))
    decreases |invs|
  {
    if |invs| == 0 {
      AddZero(Finite(0.0));
    } else {
      var rest := invs[1..];
      DynamicPassAtRate(rest, s, rate, c);
      var head := invs[0];
      var v := CalculateDynamicPrice(head, ArrayOf([s]), c);
      if head.Bond? {
        BondTakesCriterion(head, s, rate, c);
        assert v.value == Valuation(Price(WithRiskFreeRate(head, rate)), WithRiskFreeRate(head, rate));
        AddZero(v.value.price);
      } else {
        EquityIgnoresCriteria(head, ArrayOf([s]), c);
        AddZero(v.value.price);
      }
      AddInterchange(if head.Bond? then v.value.price else Finite(0.0), BondTotalAt(rest, rate),
                     if head.Equity? then v.value.price else Finite(0.0), EquityTotal(rest));
    }
  }

  /** A pass ignores the rates the bonds carried before it: whatever rate a
      previous pass left, the next pass gives the same total and the same
      instruments as on the portfolio before that pass (also when its
      criterion fails to convert). */
  lemma {:induction false} PassForgetsPreviousRate(invs: seq<Investment>, previous: real, s: string, c: Converter)
    ensures DynamicPass(RepriceAll(invs, previous), ArrayOf([s]), c) == DynamicPass(invs, ArrayOf([s]), c)
    decreases |invs|
  {
    if |invs| > 0 {
      var repriced := RepriceAll(invs, previous);
      assert repriced[1..] == RepriceAll(invs[1..], previous);
      PassForgetsPreviousRate(invs[1..], previous, s, c);
      assert CalculateDynamicPrice(repriced[0], ArrayOf([s]), c) == CalculateDynamicPrice(invs[0], ArrayOf([s]), c);
    }
  }

  /** The second pass leaves every bond at the second scenario's rate, the
      third at the third's; the third pass gives the same result as if it
      ran on the freshly built portfolio, because the rate is overwritten
      rather than accumulated. */
  lemma EvaluationRates(invs: seq<Investment>, c: Converter, second: real, third: real)
    requires c.parseDouble(SecondScenario) == Some(second)
    requires c.parseDouble(ThirdScenario) == Some(third)
    ensures var ev := Evaluate(invs, c);
            && ev.Success?
            && ev.value.second.investments == RepriceAll(invs, second)
            && ev.value.third.investments == RepriceAll(invs, third)
            && Success(ev.value.third) == DynamicPass(invs, ArrayOf([ThirdScenario]), c)
            && ev.value.staticTotal == StaticTotal(invs)
            && ev.value.second.total == Add(BondTotalAt(invs, second), EquityTotal(invs))
            && ev.value.third.total == Add(BondTotalAt(invs, third), EquityTotal(invs))
  {
    var thirdCriteria := ArrayOf([ThirdScenario]);
    DynamicPassAtRate(invs, SecondScenario, second, c);
    var p2 := Pass(Add(BondTotalAt(invs, second), EquityTotal(invs)), RepriceAll(invs, second));
    PassForgetsPreviousRate(invs, second, ThirdScenario, c);
    DynamicPassAtRate(invs, ThirdScenario, third, c);
    var p3 := Pass(Add(BondTotalAt(invs, third), EquityTotal(invs)), RepriceAll(invs, third));
    assert DynamicPass(p2.investments, thirdCriteria, c) == Success(p3);
    EvaluateSteps(invs, c, p2, p3);
  }

  /** Evaluate in terms of its two passes. */
  lemma EvaluateSteps(invs: seq<Investment>, c: Converter, second: Pass, third: Pass)
    requires DynamicPass(invs, ArrayOf([SecondScenario]), c) == Success(second)
    requires DynamicPass(second.investments, ArrayOf([ThirdScenario]), c) == Success(third)
    ensures Evaluate(invs, c) == Success(Evaluation(StaticTotal(invs), second, third))
  {
  }

  /** A run on one existing path prints the three totals of its file. */
  lemma RunOnFile(path: string, fs: FileSystem, c: Converter, invs: seq<Investment>, ev: Evaluation)
    requires path in fs && ParseLines(fs[path], c) == Success(invs)
    requires Evaluate(invs, c) == Success(ev)
    ensures Run(ArrayOf([path]), fs, c) == Printed(ev.staticTotal, ev.second.total, ev.third.total)
  {
    var args := ArrayOf([path]);
    assert args.value[0] == NonNull(path);
  }

  /** The three printed totals of a file that parses: the bonds at rates
      0.01, then the second scenario's, then the third's, each plus the same
      equities' total. */
  lemma RunPrintsScenarioTotals(path: string, fs: FileSystem, c: Converter, invs: seq<Investment>, second: real, third: real)
    requires path in fs && ParseLines(fs[path], c) == Success(invs)
    requires c.parseDouble(SecondScenario) == Some(second)
    requires c.parseDouble(ThirdScenario) == Some(third)
    ensures Run(ArrayOf([path]), fs, c) ==
              Printed(Add(BondTotalAt(invs, 0.01), EquityTotal(invs)),
                      Add(BondTotalAt(invs, second), EquityTotal(invs)),
                      Add(BondTotalAt(invs, third), EquityTotal(invs)))
  {
    ParsedInvestmentsFresh(fs[path], c);
    StaticTotalSplits(invs, InitialRiskFreeRate);
    EvaluationRates(invs, c, second, third);
    var ev := Evaluate(invs, c).value;
    RunOnFile(path, fs, c, invs, ev);
  }

  /** The errors a line can raise: never the selector's invalid-arguments
      error nor either guard's, since a line always has a first token and its
      tokens are never null. The empty line is an unknown investment type. */
  lemma ParseLineErrors(line: string, c: Converter)
    ensures ParseLine(line, c).Failure? ==>
              ParseLine(line, c).error in {UnknownInvestmentType, IndexOutOfRange, Conversion}
    ensures ParseLine("", c) == Failure(UnknownInvestmentType)
  {
    SelectorOnLine(line);
    SelectorOnLine("");
    GuardSilentOnLines(line, 4);
    GuardSilentOnLines(line, 3);
  }

  /** The argument check comes before any file access: with anything but a
      non-null array of one entry, the run crashes the same way whatever the
      file system and converter, with a null-reference error exactly when
      the array itself is null. */
  lemma ArgumentsCheckedFirst(args: StringArray, fs1: FileSystem, fs2: FileSystem, c1: Converter, c2: Converter)
    requires !(args.NonNull? && |args.value| == 1)
    ensures Run(args, fs1, c1) == Run(args, fs2, c2)
    ensures Run(args, fs1, c1) == Crashed(if args.Null? then NullReference else MissingInputPath)
  {
  }

  /** With one argument the run is silent exactly when the file is missing
      (a null path counts as missing). */
  lemma SilentExactlyWhenMissing(path: Nullable<string>, fs: FileSystem, c: Converter)
    ensures Run(NonNull([path]), fs, c) == NoOutput <==> !(path.NonNull? && path.value in fs)
  {
  }

  /** Every exception a run can end with: the argument errors, and per line
      an unknown type, a missing field or a failed conversion. The
      selector's invalid-arguments error and both factories' guard errors
      never escape. */
  lemma RunErrors(args: StringArray, fs: FileSystem, c: Converter)
    ensures Run(args, fs, c).Crashed? ==>
              Run(args, fs, c).error in {MissingInputPath, NullReference, UnknownInvestmentType, IndexOutOfRange, Conversion}
  {
    if args.NonNull? && |args.value| == 1 && FileExists(fs, args.value[0]) {
      var lines := fs[args.value[0].value];
      var parsed := ParseLines(lines, c);
      if parsed.Failure? {
        var i :| 0 <= i < |lines| && ParseLine(lines[i], c) == Failure(parsed.error);
        ParseLineErrors(lines[i], c);
      }
    }
  }

  /** An equity-only portfolio prints the same total three times, whatever
      the converter makes of the scenario criteria. */
  lemma EquityOnlyPortfolio(path: string, fs: FileSystem, c: Converter, invs: seq<Investment>)
    requires path in fs && ParseLines(fs[path], c) == Success(invs)
    requires forall i :: 0 <= i < |invs| ==> invs[i].Equity?
    ensures Run(ArrayOf([path]), fs, c) == Printed(StaticTotal(invs), StaticTotal(invs), StaticTotal(invs))
  {
    EquitiesUnchanged(invs, ArrayOf([SecondScenario]), c);
    EquitiesUnchanged(invs, ArrayOf([ThirdScenario]), c);
    RunOnFile(path, fs, c, invs, Evaluate(invs, c).value);
  }

  /** A pass over equities alone leaves them as they are and totals their
      static prices. */
  lemma EquitiesUnchanged(invs: seq<Investment>, criteria: StringArray, c: Converter)
    requires forall i :: 0 <= i < |invs| ==> invs[i].Equity?
    ensures DynamicPass(invs, criteria, c) == Success(Pass(StaticTotal(invs), invs))
  {
    var r := DynamicPass(invs, criteria, c);
    forall i | 0 <= i < |invs|
      ensures CalculateDynamicPrice(invs[i], criteria, c) == Success(Valuation(Price(invs[i]), invs[i]))
    {
      EquityIgnoresCriteria(invs[i], criteria, c);
    }
    assert r.value.investments == invs;
  }

  /** Fields after the last one a kind reads are ignored: a trailing
      delimiter, or any further text after one, leaves a line that builds an
      investment building the same investment. */
  lemma ExtraFieldsIgnored(line: string, extra: string, c: Converter)
    requires ParseLine(line, c).Success?
    ensures ParseLine(line + [Delimiter] + extra, c) == ParseLine(line, c)
  {
    var longLine := line + [Delimiter] + extra;
    SplitConcat(line, Delimiter, extra);
    var ts := Tokenize(line);
    var longer := Tokenize(longLine);
    assert longer == ts + Split(extra, Delimiter);
    var a := ArrayOf(ts);
    var b := ArrayOf(longer);
    GuardSilentOnLines(line, 4);
    GuardSilentOnLines(line, 3);
    GuardSilentOnLines(longLine, 4);
    GuardSilentOnLines(longLine, 3);
    var f := GetInvestmentFactory(a).value;
    assert b.value[0] == a.value[0];
    if f.BondFactory? {
      assert |ts| >= 4;
      BondIgnoresTail(a.value, b.value, c);
      LineBuilds(line, a, f, c);
      LineBuilds(longLine, b, BondFactory(b), c);
    } else {
      assert |ts| >= 3;
      EquityIgnoresTail(a.value, b.value, c);
      LineBuilds(line, a, f, c);
      LineBuilds(longLine, b, EquityFactory(b), c);
    }
  }

  /** With no null entry, the bond factory reads nothing past its fourth entry. */
  lemma BondIgnoresTail(a: seq<Nullable<string>>, b: seq<Nullable<string>>, c: Converter)
    requires |a| >= 4 && a <= b && Null !in b
    ensures GetBondInvestment(NonNull(a), c) == GetBondInvestment(NonNull(b), c)
  {
    assert a[1] == b[1] && a[2] == b[2] && a[3] == b[3];
  }

  /** With no null entry, the equity factory reads nothing past its third entry. */
  lemma EquityIgnoresTail(a: seq<Nullable<string>>, b: seq<Nullable<string>>, c: Converter)
    requires |a| >= 3 && a <= b && Null !in b
    ensures GetEquityInvestment(NonNull(a), c) == GetEquityInvestment(NonNull(b), c)
  {
    assert a[1] == b[1] && a[2] == b[2];
  }

  /** The sample portfolio: a bond of principal 1000 at 5% for 10 years and
      50 shares at 20, with a converter that reads these numerals as usual.
      The bond is worth 1000 * 1.04^10 at the initial rate, and the totals
      at rates 0.02 and 0.03 use 1.03^10 and 1.02^10. */
  lemma SamplePortfolio(c: Converter)
    requires SampleConverter(c)
    ensures Run(ArrayOf(["portfolio.txt"]), map["portfolio.txt" := ["B 1000 0.05 10", "E 50 20"]], c) ==
              Printed(Finite(2480.24428491834392576), Finite(2343.91637934412192049), Finite(2218.99441999475713024))
  {
    var fs := map["portfolio.txt" := ["B 1000 0.05 10", "E 50 20"]];
    var invs := [Bond(1000, 0.05, 10, 0.01), Equity(20.0, 50.0)];
    SampleLines(c);
    ParseTwoLines("B 1000 0.05 10", "E 50 20", c, invs[0], invs[1]);
    assert fs["portfolio.txt"] == ["B 1000 0.05 10", "E 50 20"];
    RunPrintsScenarioTotals("portfolio.txt", fs, c, invs, 0.02, 0.03);
    SampleTotals(invs);
  }

  /** The converter reading the sample's numerals and the scenario rates
      as usual. */
  predicate SampleConverter(c: Converter)
  {
    && c.parseInt64("1000") == Some(1000) && c.parseDouble("0.05") == Some(0.05) && c.parseInt64("10") == Some(10)
    && c.parseDouble("50") == Some(50.0) && c.parseDouble("20") == Some(20.0)
    && c.parseDouble(SecondScenario) == Some(0.02) && c.parseDouble(ThirdScenario) == Some(0.03)
  }

  lemma SampleBondTokens()
    ensures Tokenize("B 1000 0.05 10") == ["B", "1000", "0.05", "10"]
  {
    var ts := ["B", "1000", "0.05", "10"];
    JoinSnoc(["B"], "1000", Delimiter);
    JoinSnoc(["B", "1000"], "0.05", Delimiter);
    JoinSnoc(["B", "1000", "0.05"], "10", Delimiter);
    assert ["B"] + ["1000"] == ["B", "1000"];
    assert ["B", "1000"] + ["0.05"] == ["B", "1000", "0.05"];
    assert ["B", "1000", "0.05"] + ["10"] == ts;
    assert Join(ts, Delimiter) == "B 1000 0.05 10";
    assert NoDelimiter(ts, Delimiter);
    SplitJoin(ts, Delimiter);
  }

  lemma SampleEquityTokens()
    ensures Tokenize("E 50 20") == ["E", "50", "20"]
  {
    var ts := ["E", "50", "20"];
    assert ts[..2] == ["E", "50"];
    assert ts[..2][..1] == ["E"];
    assert Join(ts, Delimiter) == "E 50 20";
    assert NoDelimiter(ts, Delimiter);
    SplitJoin(ts, Delimiter);
  }

  lemma SampleLines(c: Converter)
    requires SampleConverter(c)
    ensures ParseLine("B 1000 0.05 10", c) == Success(Bond(1000, 0.05, 10, 0.01))
    ensures ParseLine("E 50 20", c) == Success(Equity(20.0, 50.0))
  {
    SampleBondLine(c);
    SampleEquityLine(c);
  }

  lemma SampleBondLine(c: Converter)
    requires SampleConverter(c)
    ensures ParseLine("B 1000 0.05 10", c) == Success(Bond(1000, 0.05, 10, 0.01))
  {
    SampleBondTokens();
    var args := ArrayOf(["B", "1000", "0.05", "10"]);
    GuardSilentOnLines("B 1000 0.05 10", 4);
    BondFieldMapping(args, c, 1000, 0.05, 10);
    LineBuilds("B 1000 0.05 10", args, BondFactory(args), c);
  }

  lemma SampleEquityLine(c: Converter)
    requires SampleConverter(c)
    ensures ParseLine("E 50 20", c) == Success(Equity(20.0, 50.0))
  {
    SampleEquityTokens();
    var args := ArrayOf(["E", "50", "20"]);
    GuardSilentOnLines("E 50 20", 3);
    EquityFieldMapping(args, c, 50.0, 20.0);
    LineBuilds("E 50 20", args, EquityFactory(args), c);
  }

  /** A line builds what the factory its tokens select builds. */
  lemma LineBuilds(line: string, args: StringArray, f: InvestmentFactory, c: Converter)
    requires ArrayOf(Tokenize(line)) == args && GetInvestmentFactory(args) == Success(f)
    ensures ParseLine(line, c) == GetInvestment(f, c)
  {
  }

  lemma SampleTotals(invs: seq<Investment>)
    requires invs == [Bond(1000, 0.05, 10, 0.01), Equity(20.0, 50.0)]
    ensures Add(BondTotalAt(invs, 0.01), EquityTotal(invs)) == Finite(2480.24428491834392576)
    ensures Add(BondTotalAt(invs, 0.02), EquityTotal(invs)) == Finite(2343.91637934412192049)
    ensures Add(BondTotalAt(invs, 0.03), EquityTotal(invs)) == Finite(2218.99441999475713024)
  {
    SampleEquityTotal(invs);
    SampleBondTotals(invs);
  }

  lemma SampleEquityTotal(invs: seq<Investment>)
    requires invs == [Bond(1000, 0.05, 10, 0.01), Equity(20.0, 50.0)]
    ensures EquityTotal(invs) == Finite(1000.0)
  {
    PairTotals(invs[0], invs[1], 0.0);
    assert invs == [invs[0], invs[1]];
  }

  lemma SampleBondTotals(invs: seq<Investment>)
    requires invs == [Bond(1000, 0.05, 10, 0.01), Equity(20.0, 50.0)]
    ensures BondTotalAt(invs, 0.01) == Finite(1480.24428491834392576)
    ensures BondTotalAt(invs, 0.02) == Finite(1343.91637934412192049)
    ensures BondTotalAt(invs, 0.03) == Finite(1218.99441999475713024)
  {
    assert invs == [invs[0], invs[1]];
    PairTotals(invs[0], invs[1], 0.01);
    PairTotals(invs[0], invs[1], 0.02);
    PairTotals(invs[0], invs[1], 0.03);
    assert Price(Bond(1000, 0.05, 10, 0.01)) == Finite(1480.24428491834392576);
    assert Price(Bond(1000, 0.05, 10, 0.02)) == Finite(1343.91637934412192049);
    assert Price(Bond(1000, 0.05, 10, 0.03)) == Finite(1218.99441999475713024);
  }

  /** A file of two lines that each build an investment. */
  lemma ParseTwoLines(first: string, second: string, c: Converter, a: Investment, b: Investment)
    requires ParseLine(first, c) == Success(a) && ParseLine(second, c) == Success(b)
    ensures ParseLines([first, second], c) == Success([a, b])
  {
    var lines := [first, second];
    var r := ParseLines(lines, c);
    assert r.Success? by {
      if r.Failure? {
        var i :| 0 <= i < |lines| && ParseLine(lines[i], c) == Failure(r.error);
      }
    }
    assert ParseLine(lines[0], c) == Success(r.value[0]);
    assert ParseLine(lines[1], c) == Success(r.value[1]);
    assert r.value == [a, b];
  }

  /** The two totals of a bond followed by an equity. */
  lemma PairTotals(b: Investment, e: Investment, rate: real)
    requires b.Bond? && e.Equity?
    ensures BondTotalAt([b, e], rate) == Price(WithRiskFreeRate(b, rate))
    ensures EquityTotal([b, e]) == Price(e)
  {
    var invs := [b, e];
    assert invs[1..] == [e];
    assert invs[1..][1..] == [];
    AddZero(Finite(0.0));
    AddZero(Price(WithRiskFreeRate(b, rate)));
    AddZero(Price(e));
    assert BondTotalAt([e], rate) == Finite(0.0);
    assert EquityTotal([e]) == Price(e);
    assert BondTotalAt(invs, rate) == Add(Price(WithRiskFreeRate(b, rate)), BondTotalAt([e], rate));
    assert EquityTotal(invs) == Add(Finite(0.0), EquityTotal([e]));
  }

}
