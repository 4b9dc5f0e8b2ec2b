/** The outcome values of Railway/Result.cs: the tri-state `ResultState`,
    the non-generic `Result` and the generic `Result<T>`, their constructors,
    conversions, queries and equality. A default-initialised struct is the
    `Bottom` state; the members that refuse it return `Threw`. */
module Results {
  import opened Prelude
  import opened Errors

  // ---------------------------------------------------------------------
  // ResultState and its bit pattern
  // ---------------------------------------------------------------------

  datatype ResultState = BottomState | ErrorState | SuccessState

  /** The byte each state is stored as: 0, 0b01 and 0b11. */
  function Bits(s: ResultState): bv8 {
    match s
    case BottomState => 0x00
    case ErrorState => 0x01
    case SuccessState => 0x03
  }

  /** The encoding is injective and orders Bottom < Error < Success, the
      order `OrderBy(x => x.State)` sorts by. */
  lemma BitsOrder(a: ResultState, b: ResultState)
    ensures Bits(a) == Bits(b) <==> a == b
    ensures Bits(BottomState) < Bits(ErrorState) < Bits(SuccessState)
  {
  }

  /** The AND of two states is Bottom exactly when an operand is Bottom. */
  lemma AndIsBottomIffOperandIsBottom(a: ResultState, b: ResultState)
    ensures Bits(a) & Bits(b) == Bits(BottomState) <==> a == BottomState || b == BottomState
  {
    match a
    case BottomState =>
    case ErrorState =>
      assert Bits(b) == 0 || Bits(b) == 1 || Bits(b) == 3;
    case SuccessState =>
      assert Bits(b) == 0 || Bits(b) == 1 || Bits(b) == 3;
  }

  /** `s1 & s2 & ... & sn`, the Bottom test of the generated `Combine`. */
  function AndAll(states: seq<ResultState>): bv8
    requires states != []
  {
    if |states| == 1 then Bits(states[0])
    else AndAll(states[..|states| - 1]) & Bits(states[|states| - 1])
  }

  /** The AND of any number of states is Bottom exactly when one of them is;
      otherwise it is the Error bits or the Success bits. */
  lemma {:induction false} AndAllIsBottomIffSomeBottom(states: seq<ResultState>)
    requires states != []
    ensures AndAll(states) == Bits(BottomState) <==> exists i :: 0 <= i < |states| && states[i] == BottomState
    ensures AndAll(states) == Bits(BottomState) || AndAll(states) == Bits(ErrorState) || AndAll(states) == Bits(SuccessState)
  {
    if |states| == 1 {
      assert states[0] == BottomState ==> exists i :: 0 <= i < |states| && states[i] == BottomState;
    } else {
      var prefix := states[..|states| - 1];
      var last := states[|states| - 1];
      AndAllIsBottomIffSomeBottom(prefix);
      var p := AndAll(prefix);
      assert AndAll(states) == p & Bits(last);
      assert p == 0 || p == 1 || p == 3;
      assert Bits(last) == 0 || Bits(last) == 1 || Bits(last) == 3;
      if exists i :: 0 <= i < |prefix| && prefix[i] == BottomState {
        var i :| 0 <= i < |prefix| && prefix[i] == BottomState;
        assert states[i] == BottomState;
      }
      if exists i :: 0 <= i < |states| && states[i] == BottomState {
        var i :| 0 <= i < |states| && states[i] == BottomState;
        if i < |prefix| {
          assert prefix[i] == BottomState;
        }
      }
    }
  }

  // ---------------------------------------------------------------------
  // The non-generic Result
  // ---------------------------------------------------------------------

  /** The non-generic struct: its default value, a success, or a failure. */
  datatype PlainResult = PlainBottom | PlainOk | PlainFail(error: Error)

  /** The `State` field. */
  function PlainState(r: PlainResult): (s: ResultState)
    ensures s == BottomState <==> r.PlainBottom?
    ensures s == SuccessState <==> r.PlainOk?
    ensures s == ErrorState <==> ErrorField(r).Some?
  {
    match r
    case PlainBottom => BottomState
    case PlainOk => SuccessState
    case PlainFail(_) => ErrorState
  }

  /** The `Error` field: null unless the result is a failure. */
  function ErrorField(r: PlainResult): Option<Error> {
    if r.PlainFail? then Some(r.error) else None
  }

  /** `new Result(error)`: a success exactly when `error` is null. */
  function NewPlain(error: Option<Error>): (r: PlainResult)
    ensures PlainState(r) == SuccessState <==> error.None?
    ensures PlainState(r) == ErrorState <==> error.Some?
    ensures ErrorField(r) == error
  {
    if error.None? then PlainOk else PlainFail(error.value)
  }

  /** `Result.Success()`. */
  function PlainSuccess(): (r: PlainResult)
    ensures PlainState(r) == SuccessState && ErrorField(r).None?
  {
    NewPlain(None)
  }

  /** `Result.Failure(error)` and the implicit `Error` to `Result`
      conversion: both reject null. */
  function PlainFailure(error: Option<Error>): (r: Completion<PlainResult>)
    ensures error.None? <==> r == Threw(ArgumentNull("error"))
    ensures error.Some? ==> r.Returned? && PlainState(r.value) == ErrorState && ErrorField(r.value) == error
  {
    if error.None? then Threw(ArgumentNull("error")) else Returned(NewPlain(error))
  }

  /** `IsSuccess`: decided by the error field alone, so the default struct
      reports success. */
  predicate PlainIsSuccess(r: PlainResult)
    ensures PlainIsSuccess(r) <==> PlainState(r) != ErrorState
    ensures r == PlainBottom ==> PlainIsSuccess(r)
  {
    ErrorField(r).None?
  }

  /** `IsFailure`: the error field is set. */
  predicate PlainIsFailure(r: PlainResult)
    ensures PlainIsFailure(r) <==> PlainState(r) == ErrorState
    ensures PlainIsFailure(r) <==> !PlainIsSuccess(r)
  {
    ErrorField(r).Some?
  }

  /** `TryGetError`: (found, error). Because the two flags above are
      complementary, the throwing fall-through is unreachable and the
      default struct answers "no error". */
  function PlainTryGetError(r: PlainResult): (p: (bool, Option<Error>))
    ensures p.0 <==> PlainState(r) == ErrorState
    ensures p.1 == ErrorField(r)
    ensures r == PlainBottom ==> p == (false, None)
  {
    if PlainIsSuccess(r) then (false, None)
    else (true, ErrorField(r))
  }

  /** `Equals`: throws on a Bottom receiver, otherwise compares the error
      fields with the error `==` operator. */
  function PlainEquals(r: PlainResult, other: PlainResult): (c: Completion<bool>)
    ensures r == PlainBottom <==> c == Threw(ResultNotInitialized("this"))
    ensures r == PlainOk ==> c == Returned(!other.PlainFail?)
    ensures r.PlainFail? ==> c == Returned(other.PlainFail? && Equals(r.error, Some(other.error)))
  {
    if PlainState(r) == BottomState then Threw(ResultNotInitialized("this"))
    else Returned(OperatorEquals(ErrorField(r), ErrorField(other)))
  }

  /** Two successes are equal, and a success equals even the default struct,
      whose error field is null too; failures equal exactly when their
      errors do. */
  lemma PlainEqualsCases(e: Error, f: Error)
    ensures PlainEquals(PlainOk, PlainOk) == Returned(true)
    ensures PlainEquals(PlainOk, PlainBottom) == Returned(true)
    ensures PlainEquals(PlainOk, PlainFail(e)) == Returned(false)
    ensures PlainEquals(PlainFail(e), PlainOk) == Returned(false)
    ensures PlainEquals(PlainFail(e), PlainFail(f)) == Returned(Equals(e, Some(f)))
    ensures PlainEquals(PlainFail(e), PlainFail(e)) == Returned(true)
  {
    EqualsReflexive(e);
  }

  // ---------------------------------------------------------------------
  // The generic Result<T>
  // ---------------------------------------------------------------------

  /** `Result<T>`: the default struct, a success with a value, or a failure. */
  datatype Result<T> = Bottom | Ok(value: T) | Fail(error: Error)

  function State<T>(r: Result<T>): (s: ResultState)
    ensures s == BottomState <==> r.Bottom?
    ensures s == SuccessState <==> r.Ok?
    ensures s == ErrorState <==> r.Fail?
  {
    match r
    case Bottom => BottomState
    case Ok(_) => SuccessState
    case Fail(_) => ErrorState
  }

  /** The `Error` field, null unless the result is a failure. */
  function ErrorOf<T>(r: Result<T>): Option<Error> {
    if r.Fail? then Some(r.error) else None
  }

  /** `Result.Success<T>(value)` and the implicit `T` to `Result<T>` conversion. */
  function Success<T>(value: T): (r: Result<T>)
    ensures State(r) == SuccessState && r.value == value
  {
    Ok(value)
  }

  /** `Result.Success<T1, T2>(value1, value2)`: a success holding the pair. */
  function Success2<T1, T2>(value1: T1, value2: T2): (r: Result<(T1, T2)>)
    ensures State(r) == SuccessState && r.value.0 == value1 && r.value.1 == value2
  {
    Ok((value1, value2))
  }

  /** `Result.Failure<T>(error)`, `new Result<T>(error)` and the implicit
      `Error` to `Result<T>` conversion: all reject null. */
  function Failure<T>(error: Option<Error>): (r: Completion<Result<T>>)
    ensures error.None? <==> r == Threw(ArgumentNull("error"))
    ensures error.Some? ==> r.Returned? && State(r.value) == ErrorState && ErrorOf(r.value) == error
  {
    if error.None? then Threw(ArgumentNull("error")) else Returned(Fail(error.value))
  }

  /** `IsSuccess` of `Result<T>` reads the state, so Bottom is neither. */
  predicate IsSuccess<T>(r: Result<T>)
    ensures IsSuccess(r) <==> r.Ok?
  {
    State(r) == SuccessState
  }

  predicate IsFailure<T>(r: Result<T>)
    ensures IsFailure(r) <==> r.Fail?
    ensures IsFailure(r) ==> !IsSuccess(r)
    ensures r.Bottom? ==> !IsFailure(r) && !IsSuccess(r)
  {
    State(r) == ErrorState
  }

  /** `Unwrap(out value, out error)`: (returned flag, value, error). */
  function Unwrap<T>(r: Result<T>): (c: Completion<(bool, Option<T>, Option<Error>)>)
    ensures r.Bottom? <==> c == Threw(ResultNotInitialized("this"))
    ensures c.Returned? ==> (c.value.0 <==> IsSuccess(r)) && (!c.value.0 <==> IsFailure(r))
    ensures c.Returned? && c.value.0 ==> c.value.1 == Some(r.value) && c.value.2.None?
    ensures c.Returned? && !c.value.0 ==> c.value.1.None? && c.value.2 == Some(r.error)
  {
    match r
    case Ok(v) => Returned((true, Some(v), None))
    case Fail(e) => Returned((false, None, Some(e)))
    case Bottom => Threw(ResultNotInitialized("this"))
  }

  /** `TryGetValue(out value)`. */
  function TryGetValue<T>(r: Result<T>): (c: Completion<(bool, Option<T>)>)
    ensures r.Bottom? <==> c == Threw(ResultNotInitialized("this"))
    ensures c.Returned? ==> (c.value.0 <==> IsSuccess(r))
    ensures c.Returned? ==> c.value.1 == (if r.Ok? then Some(r.value) else None)
  {
    match r
    case Ok(v) => Returned((true, Some(v)))
    case Fail(_) => Returned((false, None))
    case Bottom => Threw(ResultNotInitialized("this"))
  }

  /** `TryGetError(out error)`. */
  function TryGetError<T>(r: Result<T>): (c: Completion<(bool, Option<Error>)>)
    ensures r.Bottom? <==> c == Threw(ResultNotInitialized("this"))
    ensures c.Returned? ==> (c.value.0 <==> IsFailure(r))
    ensures c.Returned? ==> c.value.1 == ErrorOf(r)
  {
    match r
    case Ok(_) => Returned((false, None))
    case Fail(e) => Returned((true, Some(e)))
    case Bottom => Threw(ResultNotInitialized("this"))
  }

  /** The three queries agree with one another on every initialised result. */
  lemma QueriesAgree<T>(r: Result<T>)
    ensures Unwrap(r).Returned? <==> TryGetValue(r).Returned?
    ensures Unwrap(r).Returned? <==> TryGetError(r).Returned?
    ensures Unwrap(r).Returned? ==>
              Unwrap(r).value.0 == TryGetValue(r).value.0 == !TryGetError(r).value.0
              && Unwrap(r).value.1 == TryGetValue(r).value.1
              && Unwrap(r).value.2 == TryGetError(r).value.1
  {
  }

  /** `Equals(Result<T>)`: throws on a Bottom receiver; a success never
      equals a non-success; two successes compare values; otherwise the
      error fields are compared with the error `==` operator. */
  function ResultEquals<T(==)>(r: Result<T>, other: Result<T>): (c: Completion<bool>)
    ensures r.Bottom? <==> c == Threw(ResultNotInitialized("this"))
    ensures r.Ok? && !other.Ok? ==> c == Returned(false)
    ensures r.Fail? && other.Ok? ==> c == Returned(false)
    ensures r.Ok? && other.Ok? ==> c == Returned(r.value == other.value)
    ensures r.Fail? && other.Fail? ==> c == Returned(Equals(r.error, Some(other.error)))
    ensures r.Fail? && other.Bottom? ==> c == Returned(false)
  {
    if State(r) == BottomState then Threw(ResultNotInitialized("this"))
    else if IsSuccess(r) != IsSuccess(other) then Returned(false)
    else if IsSuccess(r) then Returned(r.value == other.value)
    else Returned(OperatorEquals(ErrorOf(r), ErrorOf(other)))
  }

  /** Every initialised result equals itself. */
  lemma ResultEqualsReflexive<T>(r: Result<T>)
    requires !r.Bottom?
    ensures ResultEquals(r, r) == Returned(true)
  {
    if r.Fail? {
      EqualsReflexive(r.error);
    }
  }

  // ---------------------------------------------------------------------
  // Conversions
  // ---------------------------------------------------------------------

  /** `SuccessUnit`: the value of a result that carries none. */
  datatype SuccessUnit = SuccessUnit

  /** The explicit `Result<T>` to `Result` conversion: the value is dropped,
      the error kept. */
  function ToPlain<T>(r: Result<T>): (c: Completion<PlainResult>)
    ensures r.Bottom? <==> c == Threw(ResultNotInitialized("result"))
    ensures c.Returned? ==> PlainState(c.value) == State(r) && ErrorField(c.value) == ErrorOf(r)
  {
    match r
    case Ok(_) => Returned(NewPlain(None))
    case Fail(e) => Returned(NewPlain(Some(e)))
    case Bottom => Threw(ResultNotInitialized("result"))
  }

  /** The implicit `Result` to `Result<SuccessUnit>` conversion. */
  function ToUnitResult(r: PlainResult): (c: Completion<Result<SuccessUnit>>)
    ensures r.PlainBottom? <==> c == Threw(ResultNotInitialized("result"))
    ensures c.Returned? ==> State(c.value) == PlainState(r) && ErrorOf(c.value) == ErrorField(r)
  {
    match PlainState(r)
    case SuccessState => Returned(Ok(SuccessUnit))
    case ErrorState => Returned(Fail(r.error))
    case BottomState => Threw(ResultNotInitialized("result"))
  }

  /** Converting to `Result<SuccessUnit>` and back is the identity on
      initialised results, and the other way round as well. */
  lemma ConversionsRoundTrip(r: PlainResult, u: Result<SuccessUnit>)
    ensures !r.PlainBottom? ==> ToUnitResult(r).Returned? && ToPlain(ToUnitResult(r).value) == Returned(r)
    ensures !u.Bottom? ==> ToPlain(u).Returned? && ToUnitResult(ToPlain(u).value) == Returned(u)
  {
    if u.Ok? {
      assert u.value == SuccessUnit;
    }
  }
}
