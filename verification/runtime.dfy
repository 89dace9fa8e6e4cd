/** The pieces of the .NET runtime that the portfolio calculator leans on:
    nullable references, exceptions, 64-bit integers and the library's
    string-to-number conversions (which this model keeps abstract). */
module Runtime {

  /** A reference that may be null, as a C# string or array may be. */
  datatype Nullable<+T> = Null | NonNull(value: T)

  datatype Option<+T> = None | Some(value: T)

  /** The exceptions the calculator can raise; every one of them is fatal. */
  datatype Exception =
    | NullReference           // indexing a null array
    | IndexOutOfRange         // reading past the end of an array
    | Conversion              // Convert rejects a token (format or overflow)
    | MissingInputPath        // Main: not exactly one command-line argument
    | InvalidArguments        // factory selector: null or empty parameter array
    | UnknownInvestmentType   // factory selector: first token is neither "B" nor "E"
    | InvalidBondArguments    // bond factory guard
    | InvalidEquityArguments  // equity factory guard

  /** Either a value or the exception that aborted the computation. */
  datatype Result<+T> = Success(value: T) | Failure(error: Exception) {

    predicate IsFailure() {
      Failure?
    }

    function PropagateFailure<U>(): Result<U>
      requires Failure?
    {
      Failure(error)
    }

    function Extract(): T
      requires Success?
    {
      value
    }
  }

  const Int64Min: int := -0x8000_0000_0000_0000
  const Int64Max: int := 0x7FFF_FFFF_FFFF_FFFF

  /** The values of a C# `long`. */
  type Int64 = x: int | Int64Min <= x <= Int64Max

  /** A C# `string[]`: the array itself and each of its entries may be null. */
  type StringArray = Nullable<seq<Nullable<string>>>

  /** The non-null array holding exactly the given non-null strings. */
  function ArrayOf(strings: seq<string>): (a: StringArray)
    ensures a.NonNull? && |a.value| == |strings|
    ensures forall i :: 0 <= i < |strings| ==> a.value[i] == NonNull(strings[i])
  {
    NonNull(seq(|strings|, i requires 0 <= i < |strings| => NonNull(strings[i])))
  }

  /** Array indexing, which throws past the end. */
  function Element(a: seq<Nullable<string>>, i: nat): Result<Nullable<string>>
  {
    if i < |a| then Success(a[i]) else Failure(IndexOutOfRange)
  }

  /** The string parsers behind `Convert.ToInt64(string)` and
      `Convert.ToDouble(string)`: partial functions, None where the library
      throws (a malformed token, or a value out of range). */
  datatype Converter = Converter(parseInt64: string -> Option<Int64>, parseDouble: string -> Option<real>)

  /** `Convert.ToInt64(string)`: a null string converts to 0. */
  function ToInt64(c: Converter, s: Nullable<string>): Result<Int64>
  {
    match s
    case Null => Success(0)
    case NonNull(t) =>
      match c.parseInt64(t)
      case Some(n) => Success(n)
      case None => Failure(Conversion)
  }

  /** `Convert.ToDouble(string)`: a null string converts to 0.0. */
  function ToDouble(c: Converter, s: Nullable<string>): Result<real>
  {
    match s
    case Null => Success(0.0)
    case NonNull(t) =>
      match c.parseDouble(t)
      case Some(x) => Success(x)
      case None => Failure(Conversion)
  }
}
