/** The synchronous combinators of Railway/ResultExtensions.cs at arities
    0 to 2, plus the generated `Combine` (as one definition over a sequence
    of results of one type) and `TryRecover`. Callbacks are Dafny functions;
    a callback with side effects (`Tap`) reports its invocations in a log. */
module Combinators {
  import opened Prelude
  import opened Text
  import opened Errors
  import opened Results

  // ---------------------------------------------------------------------
  // Match, Map, Bind, TryRecover
  // ---------------------------------------------------------------------

  /** `Match` on a non-generic result: exactly one callback's answer. */
  function MatchPlain<R>(result: PlainResult, onSuccess: () -> R, onFailure: Error -> R): (c: Completion<R>)
    ensures result.PlainBottom? <==> c == Threw(ResultNotInitialized("result"))
    ensures result.PlainOk? ==> c == Returned(onSuccess())
    ensures result.PlainFail? ==> c == Returned(onFailure(result.error))
  {
    match PlainState(result)
    case SuccessState => Returned(onSuccess())
    case ErrorState => Returned(onFailure(result.error))
    case BottomState => Threw(ResultNotInitialized("result"))
  }

  /** `Match<T, R>`: `onSuccess` of the value or `onFailure` of the error. */
  function Match<T, R>(result: Result<T>, onSuccess: T -> R, onFailure: Error -> R): (c: Completion<R>)
    ensures result.Bottom? <==> c == Threw(ResultNotInitialized("result"))
    ensures result.Ok? ==> c == Returned(onSuccess(result.value))
    ensures result.Fail? ==> c == Returned(onFailure(result.error))
  {
    match State(result)
    case SuccessState => Returned(onSuccess(result.value))
    case ErrorState => Returned(onFailure(result.error))
    case BottomState => Threw(ResultNotInitialized("result"))
  }

  /** `Match<T1, T2, R>`: the pair is spread over the callback's parameters. */
  function Match2<T1, T2, R>(result: Result<(T1, T2)>, onSuccess: (T1, T2) -> R, onFailure: Error -> R): (c: Completion<R>)
    ensures c == Match(result, (p: (T1, T2)) => onSuccess(p.0, p.1), onFailure)
  {
    match State(result)
    case SuccessState => Returned(onSuccess(result.value.0, result.value.1))
    case ErrorState => Returned(onFailure(result.error))
    case BottomState => Threw(ResultNotInitialized("result"))
  }

  /** `Map<R>` on a non-generic result. */
  function MapPlain<R>(result: PlainResult, mapping: () -> R): (c: Completion<Result<R>>)
    ensures c == MatchPlain(result, () => Ok(mapping()), (e: Error) => Fail(e))
  {
    match PlainState(result)
    case SuccessState => Returned(Ok(mapping()))
    case ErrorState => Returned(Fail(result.error))
    case BottomState => Threw(ResultNotInitialized("result"))
  }

  /** `Map<T, R>`: the value is mapped, the error passed through. */
  function Map<T, R>(result: Result<T>, mapping: T -> R): (c: Completion<Result<R>>)
    ensures c == Match(result, (v: T) => Ok(mapping(v)), (e: Error) => Fail(e))
  {
    match State(result)
    case SuccessState => Returned(Ok(mapping(result.value)))
    case ErrorState => Returned(Fail(result.error))
    case BottomState => Threw(ResultNotInitialized("result"))
  }

  /** `Map<T1, T2, R>`. */
  function Map2<T1, T2, R>(result: Result<(T1, T2)>, mapping: (T1, T2) -> R): (c: Completion<Result<R>>)
    ensures c == Map(result, (p: (T1, T2)) => mapping(p.0, p.1))
  {
    match State(result)
    case SuccessState => Returned(Ok(mapping(result.value.0, result.value.1)))
    case ErrorState => Returned(Fail(result.error))
    case BottomState => Threw(ResultNotInitialized("result"))
  }

  /** `Bind` from a non-generic result to a non-generic result. */
  function BindPlain(result: PlainResult, binding: () -> PlainResult): (c: Completion<PlainResult>)
    ensures c == MatchPlain(result, binding, (e: Error) => PlainFail(e))
  {
    match PlainState(result)
    case SuccessState => Returned(binding())
    case ErrorState => Returned(PlainFail(result.error))
    case BottomState => Threw(ResultNotInitialized("result"))
  }

  /** `Bind<R>` from a non-generic result. */
  function BindPlainTo<R>(result: PlainResult, binding: () -> Result<R>): (c: Completion<Result<R>>)
    ensures c == MatchPlain(result, binding, (e: Error) => Fail(e))
  {
    match PlainState(result)
    case SuccessState => Returned(binding())
    case ErrorState => Returned(Fail(result.error))
    case BottomState => Threw(ResultNotInitialized("result"))
  }

  /** `Bind<T, R>`: the binding's result is returned as it is. */
  function Bind<T, R>(result: Result<T>, binding: T -> Result<R>): (c: Completion<Result<R>>)
    ensures c == Match(result, binding, (e: Error) => Fail(e))
  {
    match State(result)
    case SuccessState => Returned(binding(result.value))
    case ErrorState => Returned(Fail(result.error))
    case BottomState => Threw(ResultNotInitialized("result"))
  }

  /** `Bind<T1, T2, R>`. */
  function Bind2<T1, T2, R>(result: Result<(T1, T2)>, binding: (T1, T2) -> Result<R>): (c: Completion<Result<R>>)
    ensures c == Bind(result, (p: (T1, T2)) => binding(p.0, p.1))
  {
    match State(result)
    case SuccessState => Returned(binding(result.value.0, result.value.1))
    case ErrorState => Returned(Fail(result.error))
    case BottomState => Threw(ResultNotInitialized("result"))
  }

  /** The generated `TryRecover` on a non-generic result. */
  function TryRecoverPlain(result: PlainResult, recover: Error -> PlainResult): (c: Completion<PlainResult>)
    ensures c == MatchPlain(result, () => PlainOk, recover)
  {
    match PlainState(result)
    case SuccessState => Returned(PlainOk)
    case ErrorState => Returned(recover(result.error))
    case BottomState => Threw(ResultNotInitialized("result"))
  }

  /** The generated `TryRecover<T>`: a failure is handed to `recover`. */
  function TryRecover<T>(result: Result<T>, recover: Error -> Result<T>): (c: Completion<Result<T>>)
    ensures c == Match(result, (v: T) => Ok(v), recover)
  {
    match State(result)
    case SuccessState => Returned(Ok(result.value))
    case ErrorState => Returned(recover(result.error))
    case BottomState => Threw(ResultNotInitialized("result"))
  }

  /** Map, Bind and TryRecover never consult their callback on the branch
      that short-circuits. */
  lemma ShortCircuits<T, R>(result: Result<T>, f: T -> R, g: T -> R, b: T -> Result<R>, d: T -> Result<R>,
                            h: Error -> Result<T>, k: Error -> Result<T>)
    ensures !result.Ok? ==> Map(result, f) == Map(result, g) && Bind(result, b) == Bind(result, d)
    ensures result.Fail? ==> Map(result, f) == Returned(Fail(result.error)) && Bind(result, b) == Returned(Fail(result.error))
    ensures !result.Fail? ==> TryRecover(result, h) == TryRecover(result, k)
  {
  }

  /** The functor laws of `Map` on initialised results. */
  lemma MapLaws<T, U, R>(result: Result<T>, f: T -> U, g: U -> R)
    requires !result.Bottom?
    ensures Map(result, (v: T) => v) == Returned(result)
    ensures Map(result, f).Returned?
    ensures Map(Map(result, f).value, g) == Map(result, (v: T) => g(f(v)))
  {
  }

  /** The identity laws of `Bind`, and `Map` as a `Bind` into a success. */
  lemma BindLaws<T, U>(value: T, result: Result<T>, f: T -> Result<U>, m: T -> U)
    ensures Bind(Ok(value), f) == Returned(f(value))
    ensures !result.Bottom? ==> Bind(result, (v: T) => Ok(v)) == Returned(result)
    ensures Bind(result, (v: T) => Ok(m(v))) == Map(result, m)
  {
  }

  /** A failure can always be turned back into itself: recovering with
      `Fail` is the identity on initialised results. */
  lemma TryRecoverWithFailIsIdentity<T>(result: Result<T>)
    requires !result.Bottom?
    ensures TryRecover(result, (e: Error) => Fail(e)) == Returned(result)
  {
  }

  // ---------------------------------------------------------------------
  // Tap
  // ---------------------------------------------------------------------

  /** One invocation of a `Tap` callback, with its argument. */
  datatype Invocation<T> = OnSuccessInvoked(value: T) | OnFailureInvoked(error: Error)

  /** `Tap` on a non-generic result: the same result, and the log of the
      callbacks invoked; a missing (null) callback is not invoked. */
  function TapPlain(result: PlainResult, hasOnSuccess: bool, hasOnFailure: bool): (c: Completion<(PlainResult, seq<Invocation<()>>)>)
    ensures result.PlainBottom? <==> c == Threw(ResultNotInitialized("result"))
    ensures c.Returned? ==> c.value.0 == result && |c.value.1| <= 1
    ensures c.Returned? ==> (c.value.1 == [OnSuccessInvoked(())] <==> result.PlainOk? && hasOnSuccess)
    ensures c.Returned? ==> (c.value.1 != [] && c.value.1[0].OnFailureInvoked? <==> result.PlainFail? && hasOnFailure)
    ensures c.Returned? && c.value.1 != [] && c.value.1[0].OnFailureInvoked? ==> c.value.1[0].error == result.error
  {
    match PlainState(result)
    case SuccessState => Returned((result, if hasOnSuccess then [OnSuccessInvoked(())] else []))
    case ErrorState => Returned((result, if hasOnFailure then [OnFailureInvoked(result.error)] else []))
    case BottomState => Threw(ResultNotInitialized("result"))
  }

  /** `Tap<T>`: the same result, and the log of the callbacks invoked. */
  function Tap<T>(result: Result<T>, hasOnSuccess: bool, hasOnFailure: bool): (c: Completion<(Result<T>, seq<Invocation<T>>)>)
    ensures result.Bottom? <==> c == Threw(ResultNotInitialized("result"))
    ensures c.Returned? ==> c.value.0 == result && |c.value.1| <= 1
    ensures c.Returned? && result.Ok? ==> c.value.1 == (if hasOnSuccess then [OnSuccessInvoked(result.value)] else [])
    ensures c.Returned? && result.Fail? ==> c.value.1 == (if hasOnFailure then [OnFailureInvoked(result.error)] else [])
  {
    match State(result)
    case SuccessState => Returned((result, if hasOnSuccess then [OnSuccessInvoked(result.value)] else []))
    case ErrorState => Returned((result, if hasOnFailure then [OnFailureInvoked(result.error)] else []))
    case BottomState => Threw(ResultNotInitialized("result"))
  }

  /** The callbacks `Tap` invokes are exactly the ones `Match` would choose. */
  lemma TapInvokesWhatMatchChooses<T>(result: Result<T>)
    ensures Tap(result, true, true).Returned? ==>
              Match(result, (v: T) => [OnSuccessInvoked(v)], (e: Error) => [OnFailureInvoked(e)])
              == Returned(Tap(result, true, true).value.1)
  {
  }

  // ---------------------------------------------------------------------
  // Error-accumulating Append
  // ---------------------------------------------------------------------

  /** The names `GetBottom` yields for the two operands of `Append`. */
  function BottomOperands(state1: ResultState, state2: ResultState): seq<string> {
    (if state1 == BottomState then ["result"] else []) + (if state2 == BottomState then ["next"] else [])
  }

  /** The prologue shared by every eager `Append`: the Bottom check on the
      AND of the states, then `error += result.Error` and `error += next.Error`
      for the failing operands, in operand order. Each operand is given by
      its state and error field, which is set exactly in the Error state. */
  function AppendErrors(state1: ResultState, error1: Option<Error>, state2: ResultState, error2: Option<Error>): (c: Completion<Option<Error>>)
    requires state1 == ErrorState <==> error1.Some?
    requires state2 == ErrorState <==> error2.Some?
    ensures c.Threw? <==> state1 == BottomState || state2 == BottomState
    ensures c.Threw? ==> c.fault == ResultNotInitialized(JoinWith(BottomOperands(state1, state2), ";"))
    ensures c.Returned? ==> (c.value.None? <==> state1 == SuccessState && state2 == SuccessState)
    ensures c.Returned? ==> ChildrenOf(c.value) == ChildrenOf(error1) + ChildrenOf(error2)
    ensures c.Returned? && state1 == ErrorState && state2 != ErrorState ==> c.value == error1
    ensures c.Returned? && state1 != ErrorState && state2 == ErrorState ==> c.value == error2
    ensures c.Returned? && state1 == ErrorState && state2 == ErrorState ==> c.value == Some(Append(error1.value, error2))
  {
    AndIsBottomIffOperandIsBottom(state1, state2);
    if Bits(state1) & Bits(state2) == Bits(BottomState) then
      Threw(ResultNotInitialized(JoinWith(BottomOperands(state1, state2), ";")))
    else
      var error: Option<Error> := None;
      var error := if state1 == ErrorState then Plus(error, error1) else error;
      var error := if state2 == ErrorState then Plus(error, error2) else error;
      Returned(error)
  }

  /** `Append(Result, Result)`. */
  function AppendPlain(result: PlainResult, next: PlainResult): (c: Completion<PlainResult>)
    ensures c.Threw? <==> result.PlainBottom? || next.PlainBottom?
    ensures c.Returned? ==> (c.value.PlainOk? <==> result.PlainOk? && next.PlainOk?)
    ensures c.Returned? ==> ChildrenOf(ErrorField(c.value)) == ChildrenOf(ErrorField(result)) + ChildrenOf(ErrorField(next))
    ensures c.Threw? ==> c.fault == ResultNotInitialized(JoinWith(BottomOperands(PlainState(result), PlainState(next)), ";"))
    ensures c.Returned? && c.value.PlainFail? ==> Some(c.value.error) == Plus(ErrorField(result), ErrorField(next))
  {
    match AppendErrors(PlainState(result), ErrorField(result), PlainState(next), ErrorField(next))
    case Threw(fault) => Threw(fault)
    case Returned(error) => Returned(if error.None? then NewPlain(None) else NewPlain(error))
  }

  /** `Append<T>(Result, T value)`: a success takes on the value. */
  function AppendValue<T>(result: PlainResult, value: T): (c: Completion<Result<T>>)
    ensures result.PlainBottom? <==> c == Threw(ResultNotInitialized("result"))
    ensures result.PlainOk? ==> c == Returned(Ok(value))
    ensures result.PlainFail? ==> c == Returned(Fail(result.error))
  {
    match PlainState(result)
    case SuccessState => Returned(Ok(value))
    case ErrorState => Returned(Fail(result.error))
    case BottomState => Threw(ResultNotInitialized("result"))
  }

  /** `Append<T>(Result, Result<T>)`: both operands evaluated; the value is next's. */
  function AppendPlainResult<T>(result: PlainResult, next: Result<T>): (c: Completion<Result<T>>)
    ensures c.Threw? <==> result.PlainBottom? || next.Bottom?
    ensures c.Returned? ==> (c.value.Ok? <==> result.PlainOk? && next.Ok?)
    ensures c.Returned? && c.value.Ok? ==> c.value.value == next.value
    ensures c.Returned? && !c.value.Ok? ==> c.value.Fail?
    ensures c.Returned? ==> ChildrenOf(ErrorOf(c.value)) == ChildrenOf(ErrorField(result)) + ChildrenOf(ErrorOf(next))
    ensures c.Threw? ==> c.fault == ResultNotInitialized(JoinWith(BottomOperands(PlainState(result), State(next)), ";"))
    ensures c.Returned? && c.value.Fail? ==> Some(c.value.error) == Plus(ErrorField(result), ErrorOf(next))
  {
    match AppendErrors(PlainState(result), ErrorField(result), State(next), ErrorOf(next))
    case Threw(fault) => Threw(fault)
    case Returned(error) => Returned(if error.None? then Ok(next.value) else Fail(error.value))
  }

  /** `Append<T>(Result<T>, Result)`, and with `T = (T1, T2)` also
      `Append<T1, T2>(Result<(T1, T2)>, Result)`: the value is the receiver's. */
  function AppendToResult<T>(result: Result<T>, next: PlainResult): (c: Completion<Result<T>>)
    ensures c.Threw? <==> result.Bottom? || next.PlainBottom?
    ensures c.Returned? ==> (c.value.Ok? <==> result.Ok? && next.PlainOk?)
    ensures c.Returned? && c.value.Ok? ==> c.value.value == result.value
    ensures c.Returned? && !c.value.Ok? ==> c.value.Fail?
    ensures c.Returned? ==> ChildrenOf(ErrorOf(c.value)) == ChildrenOf(ErrorOf(result)) + ChildrenOf(ErrorField(next))
    ensures c.Threw? ==> c.fault == ResultNotInitialized(JoinWith(BottomOperands(State(result), PlainState(next)), ";"))
    ensures c.Returned? && c.value.Fail? ==> Some(c.value.error) == Plus(ErrorOf(result), ErrorField(next))
  {
    match AppendErrors(State(result), ErrorOf(result), PlainState(next), ErrorField(next))
    case Threw(fault) => Threw(fault)
    case Returned(error) => Returned(if error.None? then Ok(result.value) else Fail(error.value))
  }

  /** The lazy `Append<T>(Result, Func<Result<T>>)`. */
  function AppendLazy<T>(result: PlainResult, next: () -> Result<T>): (c: Completion<Result<T>>)
    ensures c == BindPlainTo(result, next)
  {
    match PlainState(result)
    case SuccessState => Returned(next())
    case ErrorState => Returned(Fail(result.error))
    case BottomState => Threw(ResultNotInitialized("result"))
  }

  /** `Append<T1, T2>(Result<T1>, T2 value)`: a success is extended to a pair. */
  function AppendValue2<T1, T2>(result: Result<T1>, value: T2): (c: Completion<Result<(T1, T2)>>)
    ensures result.Bottom? <==> c == Threw(ResultNotInitialized("result"))
    ensures result.Ok? ==> c == Returned(Ok((result.value, value)))
    ensures result.Fail? ==> c == Returned(Fail(result.error))
  {
    match State(result)
    case SuccessState => Returned(Ok((result.value, value)))
    case ErrorState => Returned(Fail(result.error))
    case BottomState => Threw(ResultNotInitialized("result"))
  }

  /** `Append<T1, T2>(Result<T1>, Result<T2>)`: a pair exactly when both
      succeed; otherwise the receiver's error `+` next's error. */
  function AppendPair<T1, T2>(result: Result<T1>, next: Result<T2>): (c: Completion<Result<(T1, T2)>>)
    ensures c.Threw? <==> result.Bottom? || next.Bottom?
    ensures c.Threw? ==> c.fault == ResultNotInitialized(JoinWith(BottomOperands(State(result), State(next)), ";"))
    ensures c.Returned? ==> (c.value.Ok? <==> result.Ok? && next.Ok?)
    ensures c.Returned? && c.value.Ok? ==> c.value.value == (result.value, next.value)
    ensures c.Returned? && c.value.Fail? ==> Some(c.value.error) == Plus(ErrorOf(result), ErrorOf(next))
  {
    match AppendErrors(State(result), ErrorOf(result), State(next), ErrorOf(next))
    case Threw(fault) => Threw(fault)
    case Returned(error) => Returned(if error.None? then Ok((result.value, next.value)) else Fail(error.value))
  }

  /** The lazy `Append<T1, T2>(Result<T1>, Func<Result<T2>>)`: the thunk is
      forced only for a successful receiver, and then appended eagerly. */
  function AppendPairLazy<T1, T2>(result: Result<T1>, next: () -> Result<T2>): (c: Completion<Result<(T1, T2)>>)
    ensures result.Bottom? <==> c == Threw(ResultNotInitialized("result"))
    ensures result.Fail? ==> c == Returned(Fail(result.error))
  {
    match State(result)
    case SuccessState => AppendPair(result, next())
    case ErrorState => Returned(Fail(result.error))
    case BottomState => Threw(ResultNotInitialized("result"))
  }

  /** Appending a plain value is the eager append of a success holding it. */
  lemma ValueAppendIsEagerAppend<T, T1, T2>(plain: Result<T>, result: PlainResult, value: T, r1: Result<T1>, v2: T2)
    ensures AppendValue(result, value) == AppendPlainResult(result, Ok(value))
    ensures AppendValue2(r1, v2) == AppendPair(r1, Ok(v2))
  {
  }

  /** The lazy append agrees with the eager one except where the eager one
      would also evaluate `next` after a failed receiver; there the thunk's
      result does not matter. */
  lemma LazyAppendAgreesWithEager<T1, T2>(result: Result<T1>, next: Result<T2>, other: () -> Result<T2>)
    ensures result.Ok? ==> AppendPairLazy(result, () => next) == AppendPair(result, next)
    ensures result.Fail? && next.Ok? ==> AppendPairLazy(result, () => next) == AppendPair(result, next)
    ensures result.Fail? ==> AppendPairLazy(result, () => next) == AppendPairLazy(result, other)
  {
  }

  /** Two failures accumulate into the aggregate of both, in operand order. */
  lemma AppendTwoFailures<T1, T2>(e1: Error, e2: Error)
    requires !IsEmpty(e1) && !IsEmpty(e2)
    ensures AppendPair(Result<T1>.Fail(e1), Result<T2>.Fail(e2)) == Returned(Fail(Join(e1, e2)))
    ensures AppendPair(Result<T1>.Fail(e1), Result<Error>.Ok(e2)) == Returned(Fail(e1))
  {
  }

  /** The names of both Bottom operands are reported, receiver first. */
  lemma AppendNamesBottomOperands<T1, T2>(v: T1)
    ensures AppendPair(Result<T1>.Bottom, Result<T2>.Bottom) == Threw(ResultNotInitialized("result;next"))
    ensures AppendPair(Result<T1>.Ok(v), Result<T2>.Bottom) == Threw(ResultNotInitialized("next"))
  {
    assert JoinWith(["result", "next"], ";") == JoinWith(["result"], ";") + ";" + "next";
  }

  // ---------------------------------------------------------------------
  // Combine: the N-ary accumulating append
  // ---------------------------------------------------------------------

  /** The states of a sequence of results. */
  function States<T>(results: seq<Result<T>>): (s: seq<ResultState>)
    ensures |s| == |results| && forall i :: 0 <= i < |s| ==> s[i] == State(results[i])
  {
    seq(|results|, i requires 0 <= i < |results| => State(results[i]))
  }

  /** The names `GetBottom` yields: "result<i>" (from 1) for each Bottom. */
  function CombineBottomNames<T>(results: seq<Result<T>>): seq<string> {
    if results == [] then []
    else
      CombineBottomNames(results[..|results| - 1])
      + (if results[|results| - 1].Bottom? then ["result" + DecimalString(|results|)] else [])
  }

  /** The errors of the failing results, in order. */
  function FailedErrors<T>(results: seq<Result<T>>): seq<Error> {
    if results == [] then []
    else
      FailedErrors(results[..|results| - 1])
      + (if results[|results| - 1].Fail? then [results[|results| - 1].error] else [])
  }

  /** The values of the successful results, in order. */
  function SuccessValues<T>(results: seq<Result<T>>): seq<T> {
    if results == [] then []
    else
      SuccessValues(results[..|results| - 1])
      + (if results[|results| - 1].Ok? then [results[|results| - 1].value] else [])
  }

  /** `null + e1 + e2 + ... + en`. */
  function SumErrors(errors: seq<Error>): (r: Option<Error>)
    ensures r.None? <==> errors == []
  {
    if errors == [] then None else Plus(SumErrors(errors[..|errors| - 1]), Some(errors[|errors| - 1]))
  }

  lemma {:induction false} CombineBottomNamesEmpty<T>(results: seq<Result<T>>)
    ensures CombineBottomNames(results) == [] <==> forall i :: 0 <= i < |results| ==> !results[i].Bottom?
  {
    if results != [] {
      var prefix := results[..|results| - 1];
      CombineBottomNamesEmpty(prefix);
      assert forall i :: 0 <= i < |prefix| ==> prefix[i] == results[i];
    }
  }

  lemma {:induction false} FailedErrorsEmpty<T>(results: seq<Result<T>>)
    ensures FailedErrors(results) == [] <==> forall i :: 0 <= i < |results| ==> !results[i].Fail?
  {
    if results != [] {
      var prefix := results[..|results| - 1];
      FailedErrorsEmpty(prefix);
      assert forall i :: 0 <= i < |prefix| ==> prefix[i] == results[i];
    }
  }

  /** The accumulated error lists the failing errors' children in order,
      and keeps aggregates flat. */
  lemma {:induction false} SumErrorsChildren(errors: seq<Error>)
    ensures ChildrenOf(SumErrors(errors)) == Leaves(errors)
    ensures (forall i :: 0 <= i < |errors| ==> Flat(errors[i])) && errors != [] ==> Flat(SumErrors(errors).value)
  {
    if errors != [] {
      var prefix := errors[..|errors| - 1];
      var last := errors[|errors| - 1];
      assert prefix + [last] == errors;
      SumErrorsChildren(prefix);
      LeavesSnoc(prefix, last);
      assert ChildrenOf(SumErrors(errors)) == ChildrenOf(SumErrors(prefix)) + ToEnumerable(last);
      if forall i :: 0 <= i < |errors| ==> Flat(errors[i]) {
        SumErrorsFlat(errors);
      }
    }
  }

  lemma {:induction false} SumErrorsFlat(errors: seq<Error>)
    requires errors != [] && forall i :: 0 <= i < |errors| ==> Flat(errors[i])
    ensures Flat(SumErrors(errors).value)
  {
    var prefix := errors[..|errors| - 1];
    var last := errors[|errors| - 1];
    assert Flat(last);
    if prefix != [] {
      assert forall i :: 0 <= i < |prefix| ==> Flat(prefix[i]) by {
        forall i | 0 <= i < |prefix| ensures Flat(prefix[i]) {
          assert prefix[i] == errors[i];
        }
      }
      SumErrorsFlat(prefix);
    }
  }

  /** One failure yields that very error; two yield `e1 + e2`. */
  lemma SumErrorsSmall(e1: Error, e2: Error)
    ensures SumErrors([e1]) == Some(e1)
    ensures SumErrors([e1, e2]) == Some(Append(e1, Some(e2)))
  {
    assert [e1, e2][..1] == [e1];
  }

  /** How the prefix functions grow by one result. */
  lemma PrefixStep<T>(results: seq<Result<T>>, i: nat)
    requires i < |results|
    ensures FailedErrors(results[..i + 1]) == FailedErrors(results[..i]) + (if results[i].Fail? then [results[i].error] else [])
    ensures SuccessValues(results[..i + 1]) == SuccessValues(results[..i]) + (if results[i].Ok? then [results[i].value] else [])
    ensures CombineBottomNames(results[..i + 1])
            == CombineBottomNames(results[..i]) + (if results[i].Bottom? then ["result" + DecimalString(i + 1)] else [])
  {
    assert results[..i + 1][..i] == results[..i];
  }

  lemma SumErrorsSnoc(errors: seq<Error>, e: Error)
    ensures SumErrors(errors + [e]) == Plus(SumErrors(errors), Some(e))
  {
    assert (errors + [e])[..|errors|] == errors;
  }

  /** `result1.State & result2.State & ... & resultN.State`. */
  method AndOfStates<T>(results: seq<Result<T>>) returns (bits: bv8)
    requires results != []
    ensures bits == AndAll(States(results))
    ensures bits == Bits(BottomState) <==> exists i :: 0 <= i < |results| && results[i].Bottom?
  {
    ghost var states := States(results);
    bits := Bits(State(results[0]));
    assert states[..1] == [states[0]];
    for i := 1 to |results|
      invariant bits == AndAll(states[..i])
    {
      assert states[..i + 1][..i] == states[..i];
      bits := bits & Bits(State(results[i]));
    }
    assert states[..|results|] == states;
    AndOfStatesIsBottom(results);
  }

  lemma AndOfStatesIsBottom<T>(results: seq<Result<T>>)
    requires results != []
    ensures AndAll(States(results)) == Bits(BottomState) <==> exists i :: 0 <= i < |results| && results[i].Bottom?
  {
    var states := States(results);
    AndAllIsBottomIffSomeBottom(states);
    if exists i :: 0 <= i < |states| && states[i] == BottomState {
      var i :| 0 <= i < |states| && states[i] == BottomState;
      assert results[i].Bottom?;
    }
    if exists i :: 0 <= i < |results| && results[i].Bottom? {
      var i :| 0 <= i < |results| && results[i].Bottom?;
      assert states[i] == BottomState;
    }
  }

  /** The generated `GetBottom`: the names of the Bottom results, in order. */
  method GetBottom<T>(results: seq<Result<T>>) returns (names: seq<string>)
    ensures names == CombineBottomNames(results)
    ensures names == [] <==> forall i :: 0 <= i < |results| ==> !results[i].Bottom?
  {
    names := [];
    for i := 0 to |results|
      invariant names == CombineBottomNames(results[..i])
    {
      PrefixStep(results, i);
      if results[i].Bottom? {
        names := names + ["result" + DecimalString(i + 1)];
      }
    }
    assert results[..|results|] == results;
    CombineBottomNamesEmpty(results);
  }

  /** The `if (resultI.IsFailure) error += resultI.Error;` lines. */
  method AccumulateFailures<T>(results: seq<Result<T>>) returns (error: Option<Error>)
    ensures error == SumErrors(FailedErrors(results))
    ensures error.None? <==> forall i :: 0 <= i < |results| ==> !results[i].Fail?
  {
    error := None;
    for i := 0 to |results|
      invariant error == SumErrors(FailedErrors(results[..i]))
    {
      PrefixStep(results, i);
      if results[i].Fail? {
        ghost var failed := FailedErrors(results[..i]);
        SumErrorsSnoc(failed, results[i].error);
        assert FailedErrors(results[..i + 1]) == failed + [results[i].error];
        error := Plus(error, Some(results[i].error));
        assert error == SumErrors(failed + [results[i].error]);
      } else {
        assert FailedErrors(results[..i + 1]) == FailedErrors(results[..i]);
      }
    }
    assert results[..|results|] == results;
    FailedErrorsEmpty(results);
  }

  /** The value expansion `(result1.Value, ..., resultN.Value)` of an
      all-success combination. */
  method CollectValues<T>(results: seq<Result<T>>) returns (values: seq<T>)
    requires forall i :: 0 <= i < |results| ==> results[i].Ok?
    ensures values == SuccessValues(results)
    ensures |values| == |results| && forall i :: 0 <= i < |results| ==> values[i] == results[i].value
  {
    values := [];
    for i := 0 to |results|
      invariant values == SuccessValues(results[..i])
    {
      PrefixStep(results, i);
      values := values + [results[i].value];
    }
    assert results[..|results|] == results;
    AllOkValues(results);
  }

  /** The generated `Combine` for any number of results of one type: the
      Bottom check over the AND of all states, the `error +=` of each
      failure in order, and the values of all results when none failed. */
  method Combine<T>(results: seq<Result<T>>) returns (c: Completion<Result<seq<T>>>)
    requires |results| >= 2
    ensures c.Threw? <==> exists i :: 0 <= i < |results| && results[i].Bottom?
    ensures c.Threw? ==> c.fault == ResultNotInitialized(JoinWith(CombineBottomNames(results), ";"))
    ensures c.Returned? ==> (c.value.Ok? <==> forall i :: 0 <= i < |results| ==> results[i].Ok?)
    ensures c.Returned? && c.value.Ok? ==> c.value.value == SuccessValues(results) && |c.value.value| == |results|
    ensures c.Returned? && !c.value.Ok? ==> c.value.Fail? && Some(c.value.error) == SumErrors(FailedErrors(results))
    ensures c.Returned? && !c.value.Ok? ==> ToEnumerable(c.value.error) == Leaves(FailedErrors(results))
  {
    var bits := AndOfStates(results);
    if bits == Bits(BottomState) {
      var names := GetBottom(results);
      return Threw(ResultNotInitialized(JoinWith(names, ";")));
    }
    var error := AccumulateFailures(results);
    SumErrorsChildren(FailedErrors(results));
    if error.None? {
      var values := CollectValues(results);
      return Returned(Ok(values));
    }
    return Returned(Fail(error.value));
  }

  /** When every result succeeds, there is one value per result. */
  lemma {:induction false} AllOkValues<T>(results: seq<Result<T>>)
    requires forall i :: 0 <= i < |results| ==> results[i].Ok?
    ensures |SuccessValues(results)| == |results|
    ensures forall i :: 0 <= i < |results| ==> SuccessValues(results)[i] == results[i].value
  {
    if results != [] {
      AllOkValues(results[..|results| - 1]);
    }
  }

  // ---------------------------------------------------------------------
  // Merge
  // ---------------------------------------------------------------------

  /** The results in `State` `s`, in input order. */
  function WithState<T>(results: seq<Result<T>>, s: ResultState): (r: seq<Result<T>>)
    ensures forall i :: 0 <= i < |r| ==> State(r[i]) == s
    ensures |r| <= |results|
  {
    if results == [] then []
    else
      WithState(results[..|results| - 1], s)
      + (if State(results[|results| - 1]) == s then [results[|results| - 1]] else [])
  }

  /** `results.OrderBy(x => x.State)`: a stable sort on the state byte,
      which puts every Bottom first and every success last. */
  function OrderByState<T>(results: seq<Result<T>>): seq<Result<T>> {
    WithState(results, BottomState) + WithState(results, ErrorState) + WithState(results, SuccessState)
  }

  lemma {:induction false} WithStateEmpty<T>(results: seq<Result<T>>, s: ResultState)
    ensures WithState(results, s) == [] <==> forall i :: 0 <= i < |results| ==> State(results[i]) != s
  {
    if results != [] {
      var prefix := results[..|results| - 1];
      WithStateEmpty(prefix, s);
      assert forall i :: 0 <= i < |prefix| ==> prefix[i] == results[i];
    }
  }

  /** How the three parts grow when one result is appended. */
  lemma WithStateSnoc<T>(prefix: seq<Result<T>>, last: Result<T>, s: ResultState)
    ensures multiset(WithState(prefix + [last], s))
            == multiset(WithState(prefix, s)) + (if State(last) == s then multiset{last} else multiset{})
  {
    assert (prefix + [last])[..|prefix|] == prefix;
  }

  lemma {:induction false} WithStatePartition<T>(results: seq<Result<T>>)
    ensures multiset(results) == multiset(WithState(results, BottomState)) + multiset(WithState(results, ErrorState))
                                 + multiset(WithState(results, SuccessState))
  {
    if results != [] {
      var prefix := results[..|results| - 1];
      var last := results[|results| - 1];
      WithStatePartition(prefix);
      assert results == prefix + [last];
      PartitionSnoc(prefix, last);
    }
  }

  lemma PartitionSnoc<T>(prefix: seq<Result<T>>, last: Result<T>)
    requires multiset(prefix) == multiset(WithState(prefix, BottomState)) + multiset(WithState(prefix, ErrorState))
                                 + multiset(WithState(prefix, SuccessState))
    ensures multiset(prefix + [last]) == multiset(WithState(prefix + [last], BottomState))
                                        + multiset(WithState(prefix + [last], ErrorState))
                                        + multiset(WithState(prefix + [last], SuccessState))
  {
    WithStateSnoc(prefix, last, BottomState);
    WithStateSnoc(prefix, last, ErrorState);
    WithStateSnoc(prefix, last, SuccessState);
    var mb, mf, mg := multiset(WithState(prefix, BottomState)), multiset(WithState(prefix, ErrorState)), multiset(WithState(prefix, SuccessState));
    var one := multiset{last};
    var b', f', g' := multiset(WithState(prefix + [last], BottomState)), multiset(WithState(prefix + [last], ErrorState)),
                      multiset(WithState(prefix + [last], SuccessState));
    assert multiset(prefix + [last]) == mb + mf + mg + one;
    AddToPart(mb, mf, mg, one, b', f', g');
  }

  /** Adding an element to one part of a three-way split adds it to the whole. */
  lemma AddToPart<T>(b: multiset<T>, f: multiset<T>, g: multiset<T>, one: multiset<T>,
                     b': multiset<T>, f': multiset<T>, g': multiset<T>)
    requires (b' == b + one && f' == f && g' == g) || (b' == b && f' == f + one && g' == g)
             || (b' == b && f' == f && g' == g + one)
    ensures b' + f' + g' == b + f + g + one
  {
  }

  /** `OrderByState` is a permutation of its input, sorted by the state byte. */
  lemma OrderByStateIsSortedPermutation<T>(results: seq<Result<T>>)
    ensures multiset(OrderByState(results)) == multiset(results)
    ensures forall i, j :: 0 <= i < j < |OrderByState(results)| ==>
              Bits(State(OrderByState(results)[i])) <= Bits(State(OrderByState(results)[j]))
  {
    WithStatePartition(results);
    var b := WithState(results, BottomState);
    var f := WithState(results, ErrorState);
    var g := WithState(results, SuccessState);
    assert multiset(b + f + g) == multiset(b) + multiset(f) + multiset(g);
    ThreeBlocksSorted(b, f, g);
  }

  /** A block of Bottoms, then of failures, then of successes is sorted. */
  lemma ThreeBlocksSorted<T>(b: seq<Result<T>>, f: seq<Result<T>>, g: seq<Result<T>>)
    requires forall i :: 0 <= i < |b| ==> State(b[i]) == BottomState
    requires forall i :: 0 <= i < |f| ==> State(f[i]) == ErrorState
    requires forall i :: 0 <= i < |g| ==> State(g[i]) == SuccessState
    ensures forall i, j :: 0 <= i < j < |b + f + g| ==> Bits(State((b + f + g)[i])) <= Bits(State((b + f + g)[j]))
  {
    var o := b + f + g;
    forall i, j | 0 <= i < j < |o| ensures Bits(State(o[i])) <= Bits(State(o[j])) {
      var si := if i < |b| then BottomState else if i < |b| + |f| then ErrorState else SuccessState;
      var sj := if j < |b| then BottomState else if j < |b| + |f| then ErrorState else SuccessState;
      assert State(o[i]) == si by {
        if i < |b| { assert o[i] == b[i]; }
        else if i < |b| + |f| { assert o[i] == f[i - |b|]; }
        else { assert o[i] == g[i - |b| - |f|]; }
      }
      assert State(o[j]) == sj by {
        if j < |b| { assert o[j] == b[j]; }
        else if j < |b| + |f| { assert o[j] == f[j - |b|]; }
        else { assert o[j] == g[j - |b| - |f|]; }
      }
    }
  }

  lemma {:induction false} FailedErrorsConcat<T>(a: seq<Result<T>>, b: seq<Result<T>>)
    ensures FailedErrors(a + b) == FailedErrors(a) + FailedErrors(b)
    ensures SuccessValues(a + b) == SuccessValues(a) + SuccessValues(b)
  {
    if b == [] {
      assert a + b == a;
    } else {
      var prefix := b[..|b| - 1];
      var last := b[|b| - 1];
      FailedErrorsConcat(a, prefix);
      assert (a + b)[..|a + b| - 1] == a + prefix;
      assert (a + b)[|a + b| - 1] == last;
      var fe := if last.Fail? then [last.error] else [];
      var sv := if last.Ok? then [last.value] else [];
      assert FailedErrors(a + b) == FailedErrors(a + prefix) + fe;
      assert SuccessValues(a + b) == SuccessValues(a + prefix) + sv;
      ConcatAssociative(FailedErrors(a), FailedErrors(prefix), fe);
      ConcatAssociative(SuccessValues(a), SuccessValues(prefix), sv);
    }
  }

  /** Picking out one state keeps the failures of the failing results and
      the values of the successful ones, and nothing of the others. */
  lemma {:induction false} WithStateKeeps<T>(results: seq<Result<T>>, s: ResultState)
    ensures FailedErrors(WithState(results, s)) == (if s == ErrorState then FailedErrors(results) else [])
    ensures SuccessValues(WithState(results, s)) == (if s == SuccessState then SuccessValues(results) else [])
  {
    if results != [] {
      var prefix := results[..|results| - 1];
      var last := results[|results| - 1];
      var tail := if State(last) == s then [last] else [];
      WithStateKeeps(prefix, s);
      assert WithState(results, s) == WithState(prefix, s) + tail;
      FailedErrorsConcat(WithState(prefix, s), tail);
      assert tail != [] ==> tail[..0] == [];
    }
  }

  /** Ordering keeps the failures and the values, each in input order. */
  lemma OrderedKeeps<T>(results: seq<Result<T>>)
    ensures FailedErrors(OrderByState(results)) == FailedErrors(results)
    ensures SuccessValues(OrderByState(results)) == SuccessValues(results)
  {
    var b := WithState(results, BottomState);
    var f := WithState(results, ErrorState);
    var s := WithState(results, SuccessState);
    WithStateKeeps(results, BottomState);
    WithStateKeeps(results, ErrorState);
    WithStateKeeps(results, SuccessState);
    assert OrderByState(results) == (b + f) + s;
    FailedErrorsConcat(b, f);
    FailedErrorsConcat(b + f, s);
    assert FailedErrors(b) == [] && FailedErrors(s) == [];
    assert FailedErrors(b + f) == FailedErrors(f);
    assert SuccessValues(b) == [] && SuccessValues(f) == [];
    assert SuccessValues(b + f) == [];
  }

  /** Results whose states never decrease, as `OrderBy(x => x.State)` leaves them. */
  predicate SortedByState<T>(results: seq<Result<T>>) {
    forall i, j :: 0 <= i < j < |results| ==> Bits(State(results[i])) <= Bits(State(results[j]))
  }

  /** In a sorted sequence, a success is followed by successes only, so
      every failure lies before it. */
  lemma FailuresBeforeSuccess<T>(ordered: seq<Result<T>>, i: nat)
    requires SortedByState(ordered) && i < |ordered| && ordered[i].Ok?
    ensures FailedErrors(ordered) == FailedErrors(ordered[..i])
  {
    var before, after := ordered[..i], ordered[i..];
    forall k | 0 <= k < |after| ensures !after[k].Fail? {
      assert after[k] == ordered[i + k];
      if k > 0 {
        assert Bits(State(ordered[i])) <= Bits(State(ordered[i + k]));
      }
    }
    FailedErrorsEmpty(after);
    FailedErrorsConcat(before, after);
    assert before + after == ordered;
  }

  /** In a sorted sequence whose first element is not Bottom, none is. */
  lemma NoBottomAfterFirst<T>(ordered: seq<Result<T>>)
    requires SortedByState(ordered) && ordered != [] && !ordered[0].Bottom?
    ensures forall k :: 0 <= k < |ordered| ==> !ordered[k].Bottom?
  {
    forall k | 0 <= k < |ordered| ensures !ordered[k].Bottom? {
      if k > 0 {
        assert Bits(State(ordered[0])) <= Bits(State(ordered[k]));
      }
    }
  }

  /** The `foreach` of `Merge` over results already ordered by state:
      a Bottom (necessarily first) throws; failures are collected; values
      are collected while no failure has been seen; the first success after
      a failure ends the walk. */
  method MergeOrdered<T>(ordered: seq<Result<T>>) returns (c: Completion<Result<seq<T>>>)
    requires SortedByState(ordered)
    ensures (exists i :: 0 <= i < |ordered| && ordered[i].Bottom?) <==> c == Threw(ResultNotInitialized("results"))
    ensures c.Returned? ==> (c.value.Fail? <==> FailedErrors(ordered) != [])
    ensures c.Returned? && c.value.Fail? ==> c.value.error == ManyErrors(Unpack(FailedErrors(ordered)))
    ensures c.Returned? && !c.value.Fail? ==> c.value == Ok(SuccessValues(ordered))
  {
    var values: seq<T> := [];
    var errors: seq<Error> := [];
    var hasErrors := false;
    var i := 0;
    while i < |ordered|
      invariant 0 <= i <= |ordered|
      invariant i > 0 ==> forall k :: 0 <= k < |ordered| ==> !ordered[k].Bottom?
      invariant errors == FailedErrors(ordered[..i])
      invariant values == SuccessValues(ordered[..i])
      invariant hasErrors <==> errors != []
    {
      var result := ordered[i];
      PrefixStep(ordered, i);
      match result {
        case Fail(e) =>
          hasErrors := true;
          errors := errors + [e];
        case Ok(v) =>
          if hasErrors {
            FailuresBeforeSuccess(ordered, i);
            break;
          }
          values := values + [v];
        case Bottom =>
          return Threw(ResultNotInitialized("results"));
      }
      NoBottomAfterFirst(ordered);
      i := i + 1;
    }
    if i == |ordered| {
      assert ordered[..i] == ordered;
    }
    if hasErrors {
      assert errors == FailedErrors(ordered);
      var many := NewManyErrors(errors);
      return Returned(Fail(many));
    }
    return Returned(Ok(values));
  }

  /** `Merge`: orders the results by state and walks them. */
  method Merge<T>(results: seq<Result<T>>) returns (c: Completion<Result<seq<T>>>)
    ensures (exists i :: 0 <= i < |results| && results[i].Bottom?) <==> c == Threw(ResultNotInitialized("results"))
    ensures c.Returned? ==> (c.value.Fail? <==> exists i :: 0 <= i < |results| && results[i].Fail?)
    ensures c.Returned? && c.value.Fail? ==> c.value.error == ManyErrors(Unpack(FailedErrors(results)))
    ensures c.Returned? && c.value.Fail? ==> ToEnumerable(c.value.error) == Leaves(FailedErrors(results))
    ensures c.Returned? && !c.value.Fail? ==> c.value == Ok(SuccessValues(results))
    ensures c.Returned? && !c.value.Fail? ==> |c.value.value| == |results|
  {
    var ordered := OrderByState(results);
    OrderByStateIsSortedPermutation(results);
    OrderedKeeps(results);
    c := MergeOrdered(ordered);
    FailedErrorsEmpty(results);
    UnpackIsLeaves(FailedErrors(results));
    HasBottom(results);
    HasBottom(ordered);
    if c.Returned? && !c.value.Fail? {
      assert forall i :: 0 <= i < |results| ==> results[i].Ok? by {
        forall i | 0 <= i < |results| ensures results[i].Ok? {
          assert !results[i].Bottom? && !results[i].Fail?;
        }
      }
      AllOkValues(results);
    }
  }

  /** Some result is Bottom exactly when Bottom is in the multiset, which a
      permutation keeps. */
  lemma HasBottom<T>(results: seq<Result<T>>)
    ensures (exists i :: 0 <= i < |results| && results[i].Bottom?) <==> Bottom in multiset(results)
  {
    if Bottom in multiset(results) {
      var i :| 0 <= i < |results| && results[i] == Bottom;
    }
  }
}
