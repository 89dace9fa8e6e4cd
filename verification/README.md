# PortfolioCalculator in Dafny

This is a model of the portfolio calculator, a single-file C# console program. The program reads a
text file with one investment per line: a bond `B <principal> <rate> <maturity>` or an equity
holding `E <shares> <price>`. It builds an investment object per line through a factory chosen by
the line's first token. It then prints three portfolio totals: the static prices, the dynamic
prices at risk-free rate `"0.02"`, and the dynamic prices at `"0.03"`.

The model is functional. A C# investment is a mutable object. Here it is a value of the datatype
`Investment = Bond(...) | Equity(...)`. `CalculateDynamicPrice` returns the price together with the
instrument as the call leaves it. `Main`'s three passes are a fold that threads those instruments
from one pass to the next. This makes the bonds' risk-free rate, which is set in the second pass
and overwritten in the third, visible state.

| file | module | models |
|---|---|---|
| runtime.dfy | `Runtime` | null references, exceptions, `long`, `string[]`, `Convert.ToInt64`/`ToDouble` |
| tokenizer.dfy | `Tokenizer` | `Utilities.GetParametersFromInputString` (`String.Split` on `' '`) and its inverse `Join` |
| investments.dfy | `Investments` | `BondInvestment`, `EquityInvestment`: `Price`, `CalculateDynamicPrice` |
| factories.dfy | `Factories` | `InvestmentFactoryProvider`, `BondInvestmentFactory`, `EquityInvestmentFactory` |
| program.dfy | `Program` | `Program.Main`: argument check, line parsing, three totals |

Modelling choices:

- **Doubles.** Doubles are exact `real`s. A price is an `Amount`: either `Finite(real)` or
  `NonFinite`. `Math.Pow(0, m)` with `m < 0` is infinite, and an infinity or NaN stays non-finite
  through every later sum and product, so `NonFinite` absorbs both.
- **Exponent.** `Math.Pow` only ever receives an integral exponent here, because the maturity is
  converted from a `long`. The model therefore raises to an integer power. A negative exponent is
  the reciprocal of the positive power.
- **Number parsing.** `Convert.ToInt64` and `Convert.ToDouble` are abstract. A `Converter` holds two
  partial parsing functions, and `None` stands for a `FormatException` or `OverflowException`. As in
  .NET, a null string converts to 0.
- **Scenario rates.** Because parsing is abstract, the lemmas about the scenarios take as a
  hypothesis that `"0.02"` and `"0.03"` parse to some rates. The value depends on the culture.
- **Nulls.** Null strings and arrays are `Nullable<T>`. A `switch` on a null first token takes the
  `default` branch, so it is an unknown investment type.
- **Files.** The file system is a map from existing paths to their lines, as `File.ReadAllLines`
  returns them. `File.Exists(null)` is false.
- **Outcome.** A run ends in one of three ways: `Crashed(exception)` with nothing printed,
  `NoOutput` when the file is missing, or `Printed(total1, total2, total3)`.

Behaviour of the code a reader may not expect:

- **Blank lines.** An empty line is not skipped. It splits into `[""]` and the run crashes with
  "Unknown Investment Type" (`Program.ParseLineErrors`).
- **The factories' guard.** It throws only when the array's length is wrong AND some entry is null.
  The model keeps this as written. A line's tokens are never null, so the guard never fires on file
  input (`Factories.GuardSilentOnLines`, `Program.RunErrors`). A short line fails on an array index
  instead (`Factories.ShortLineFailsOnIndex`). Extra fields are ignored (`Program.ExtraFieldsIgnored`).
- **"Invalid arguments".** The selector's error for a null or empty array cannot be reached from
  `Main`, because a split always yields at least one token (`Factories.SelectorOnLine`).
- **Null `args`.** A null argument array passes `Main`'s argument check and then fails on `args[0]`.
  It fails with a null reference, not an argument error.

## Model

| member | source | states |
|---|---|---|
| Tokenizer.Split | PortfolioCalculator.cs:146-149 | a split has at least one token and no token contains the delimiter |
| Tokenizer.JoinSplit | PortfolioCalculator.cs:146-149 | joining a line's tokens with `' '` gives back the line exactly |
| Tokenizer.SplitJoin | PortfolioCalculator.cs:146-149 | splitting the join of delimiter-free tokens gives back those tokens, so a line's split is the only delimiter-free token list that joins to it |
| Tokenizer.SplitCount | PortfolioCalculator.cs:35 | there is one more token than there are `' '` characters, empty tokens included |
| Tokenizer.FirstToken | PortfolioCalculator.cs:146-149 | the first token is the line's prefix up to its first delimiter |
| Tokenizer.SplitConcat | PortfolioCalculator.cs:146-149 | splitting `x + " " + y` gives the tokens of `x` followed by those of `y` |
| Tokenizer.SplitWithoutDelimiter | PortfolioCalculator.cs:146-149 | a line without a space is one token |
| Investments.NatPower | PortfolioCalculator.cs:58 | a power of a non-zero base is non-zero, and a power of a positive base is positive |
| Investments.Pow | PortfolioCalculator.cs:58 | `Math.Pow` with an integral exponent is non-finite exactly for base 0 with a negative exponent; otherwise it is the power, or the reciprocal of the power for a negative exponent |
| Investments.CalculateDynamicPrice | PortfolioCalculator.cs:60-78 | the returned price is the static price of the instrument as left; only the risk-free rate can change; with exactly one criterion a bond takes the converted criterion as its rate, and otherwise nothing changes; the call fails only for a bond whose single criterion fails to convert |
| Investments.PriceNonFiniteIff | PortfolioCalculator.cs:56-74 | a price is non-finite exactly for a bond whose growth factor `1 + (I - rf)` is 0 and whose maturity is negative |
| Investments.BondPriceFormula | PortfolioCalculator.cs:56-59 | a bond with maturity M >= 0 is worth `P * (1 + (I - rf))^M` |
| Investments.EquityIgnoresCriteria | PortfolioCalculator.cs:71-78 | an equity returns `CurrentStockPrice * NumberOfShares` under any criteria and stays unchanged |
| Investments.BondTakesCriterion | PortfolioCalculator.cs:60-65 | a bond given one criterion that converts to `x` ends with rate `x`, keeps P, I and M, and returns `P * (1 + (I - x))^M` |
| Investments.RepricingOverwrites | PortfolioCalculator.cs:60-65 | repricing at s1 and then s2 gives the same result and state as repricing at s2 alone |
| Investments.RepricingIdempotent | PortfolioCalculator.cs:60-65 | repricing twice with the same criteria is the same as repricing once |
| Factories.GetInvestmentFactory | PortfolioCalculator.cs:82-102 | "E" selects the equity factory and "B" the bond factory, each keeping the array; any other first entry, null included, is "Unknown Investment Type"; a null or empty array is "Invalid arguments" |
| Factories.GetInvestment | PortfolioCalculator.cs:111-141 | a bond factory yields a bond and an equity factory yields an equity; a new bond has rate 0.01; each guard exception is raised exactly when its length-and-null condition holds; success needs at least 4 (bond) or 3 (equity) entries |
| Factories.BondFieldMapping | PortfolioCalculator.cs:115-125 | the principal comes from entry 1, the rate from entry 2, the maturity from entry 3, and the rate starts at 0.01 |
| Factories.EquityFieldMapping | PortfolioCalculator.cs:131-141 | the number of shares comes from entry 1 and the stock price from entry 2 |
| Factories.GetInvestmentDeterminedByFields | PortfolioCalculator.cs:115-141 | every field of a built investment is the conversion of its positional entry |
| Factories.GuardSilentOnLines | PortfolioCalculator.cs:119-120 | neither guard fires on the tokens of any line |
| Factories.ShortLineFailsOnIndex | PortfolioCalculator.cs:119-139 | a line with too few fields fails on an out-of-range index, not on the guard, when each field present converts as its factory reads it (a bond's entry 1 as a long and entry 2 as a double, an equity's entry 1 as a double) |
| Factories.SelectorOnLine | PortfolioCalculator.cs:85-100 | a line selects the bond factory exactly when it is "B" or starts with "B ", and the equity factory likewise for "E"; a line never gives "Invalid arguments"; any other line, the empty one included, is an unknown type |
| Factories.FirstTokenIs | PortfolioCalculator.cs:146-149 | a line's first token is the letter k exactly when the line is "k" or starts with "k " |
| Program.ParseLines | PortfolioCalculator.cs:20-22 | a file that parses yields one investment per line, in order, each built from its line; a failure is the exception of the first failing line |
| Program.ParsedInvestmentsFresh | PortfolioCalculator.cs:47-50 | every bond built from a file has risk-free rate 0.01 |
| Program.DynamicPass | PortfolioCalculator.cs:25-26 | a pass's total is the static total of the instruments it leaves; each of them is what `CalculateDynamicPrice` made of its input; a pass fails, with a conversion error, exactly when some repricing fails |
| Program.StaticTotalSplits | PortfolioCalculator.cs:24 | when all bonds carry rate r, the static total is the bonds' total at r plus the equities' total |
| Program.DynamicPassAtRate | PortfolioCalculator.cs:25 | a pass whose criterion converts to x leaves every bond at rate x and every equity unchanged, and totals the bonds at x plus the equities |
| Program.PassForgetsPreviousRate | PortfolioCalculator.cs:25-26 | a pass on instruments that an earlier pass repriced gives the same result as on the originals |
| Program.EvaluationRates | PortfolioCalculator.cs:24-26 | after the second pass every bond has the second rate, and after the third every bond has the third rate; the third pass equals a pass on the freshly built portfolio |
| Program.RunPrintsScenarioTotals | PortfolioCalculator.cs:12-31 | a file that parses prints the bonds' total at 0.01, then at the second rate, then at the third, each plus the same equities' total |
| Program.ParseLineErrors | PortfolioCalculator.cs:22 | a line fails only with an unknown type, an out-of-range index or a conversion error; the empty line is an unknown type |
| Program.ArgumentsCheckedFirst | PortfolioCalculator.cs:14-16 | without exactly one argument the run crashes independently of files and converter, with a null reference exactly when `args` is null |
| Program.SilentExactlyWhenMissing | PortfolioCalculator.cs:16-18 | with one argument the run ends silently without crashing (`NoOutput`) exactly when the path is null or does not exist |
| Program.RunErrors | PortfolioCalculator.cs:12-31 | a run crashes only with an argument error, a null `args`, an unknown type, an out-of-range index or a conversion error, and never with an invalid-arguments or guard error |
| Program.EquityOnlyPortfolio | PortfolioCalculator.cs:24-26 | a portfolio of equities prints the same total three times whatever the scenario criteria convert to |
| Program.EquitiesUnchanged | PortfolioCalculator.cs:75-78 | a pass over equities leaves them unchanged and totals their static prices |
| Program.ExtraFieldsIgnored | PortfolioCalculator.cs:119-139 | appending `" " + extra` to a line that builds an investment builds the same investment |
| Program.BondIgnoresTail | PortfolioCalculator.cs:119-123 | when no entry is null, entries after the fourth change neither what the bond factory builds nor what it raises |
| Program.EquityIgnoresTail | PortfolioCalculator.cs:135-139 | when no entry is null, entries after the third change neither what the equity factory builds nor what it raises |
| Program.ParseTwoLines | PortfolioCalculator.cs:22 | a file of two lines builds the two investments in order |
| Program.SampleLines | PortfolioCalculator.cs:115-141 | "B 1000 0.05 10" builds Bond(1000, 0.05, 10, 0.01) and "E 50 20" builds Equity(price 20, shares 50) |
| Program.SamplePortfolio | PortfolioCalculator.cs:12-31 | the sample file yields `Printed(Finite(2480.24428491834392576), Finite(2343.91637934412192049), Finite(2218.99441999475713024))`, the exact totals before double rounding and formatting |

## Left out

- Console output and the final `Console.ReadLine` pause are left out. `Printed` carries the three totals as numbers, and their `ToString` formatting is not modelled.
- File access is reduced to a map from existing paths to their lines. I/O errors while reading, and paths that `File.Exists` rejects for other reasons, are not modelled.
- IEEE double arithmetic is replaced by exact reals. This leaves out rounding in `Math.Pow`, in the sums and in the `long`-to-`double` conversions, and overflow to infinity. The non-finite values that do arise (zero to a negative power) are kept, as `NonFinite`.
- `Convert.ToDouble` can return NaN or an infinity for tokens such as "NaN". The converter here yields only real numbers, so such tokens are not modelled.
- The internals of `Convert.ToInt64` and `Convert.ToDouble` are left out, including culture-dependent number formats. They are the converter parameter.
- `Investment.Parameters` is never read or written by the program, and the abstract base classes are only plumbing. Both are represented by the `Investment` and `InvestmentFactory` datatypes.
- `Program.StaticTotal`, `Program.DynamicPass`: these sum from the right, while LINQ's `Sum` adds from the left. Exact addition is associative, so the totals agree. A pass that throws part-way is reported only by its exception, because the run then ends.
