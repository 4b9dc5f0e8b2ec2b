/** The validation front end of Railway/Ensure.cs: an `Ensure<T>` carries a
    value and the text of the expression it came from (its label) until a
    rule fails; from then on it carries the first failing rule's error. */
module Validation {
  import opened Prelude
  import opened Text
  import opened Errors
  import opened Results

  /** The `Type` of every default validation error. */
  const DefaultErrorType: string := "EnsureFailed"

  /** `Ensure<T>`: the default struct, a value still passing its rules, or
      the error of the first rule it broke. Both carry the label. */
  datatype Ensure<T> = EnsureBottom | Passing(value: T, valueExpr: string) | Failing(error: Error, valueExpr: string)

  /** `Ensure.That(value, valueExpression)`. */
  function That<T>(value: T, valueExpr: string): (e: Ensure<T>)
    ensures e.Passing? && e.value == value && e.valueExpr == valueExpr
  {
    Passing(value, valueExpr)
  }

  /** `.Result()`: a passing value succeeds, a failing one fails with its error. */
  function EnsureResult<T>(ensure: Ensure<T>): (r: Completion<Result<T>>)
    ensures ensure.EnsureBottom? <==> r == Threw(EnsureNotInitialized("ensure"))
    ensures ensure.Passing? ==> r == Returned(Ok(ensure.value))
    ensures ensure.Failing? ==> r == Returned(Fail(ensure.error))
  {
    match ensure
    case Passing(value, _) => Returned(Ok(value))
    case Failing(error, _) => Returned(Fail(error))
    case EnsureBottom => Threw(EnsureNotInitialized("ensure"))
  }

  /** The error a rule reports when the caller supplied none:
      `Error.New("EnsureFailed", "Value {<label>} <complaint>")`. */
  function DefaultError(valueExpr: string, complaint: string): (e: Error)
    ensures e.ExpectedError? && Type(e) == DefaultErrorType && ExtensionData(e) == map[]
    ensures Message(e) == "Value {" + valueExpr + "} " + complaint
  {
    NewTyped(DefaultErrorType, "Value {" + valueExpr + "} " + complaint, None)
  }

  /** The supplied error, or the default one when it is null. */
  function ErrorOrDefault(error: Option<Error>, valueExpr: string, complaint: string): Error {
    if error.Some? then error.value else DefaultError(valueExpr, complaint)
  }

  /** Carries a failure on to the next rule, retyped. */
  function Forward<T, U>(ensure: Ensure<T>): Ensure<U>
    requires ensure.Failing?
  {
    Failing(ensure.error, ensure.valueExpr)
  }

  /** `Satisfies(requirement, error)`. */
  function Satisfies<T>(ensure: Ensure<T>, requirement: T -> bool, error: Option<Error>): (r: Completion<Ensure<T>>)
    ensures ensure.EnsureBottom? <==> r == Threw(EnsureNotInitialized("ensure"))
    ensures ensure.Failing? ==> r == Returned(ensure)
    ensures ensure.Passing? && requirement(ensure.value) ==> r == Returned(ensure)
    ensures ensure.Passing? && !requirement(ensure.value) ==>
              r == Returned(Failing(ErrorOrDefault(error, ensure.valueExpr, "does not satisfy the requirement."), ensure.valueExpr))
  {
    match ensure
    case Passing(value, valueExpr) =>
      if requirement(value) then Returned(Passing(value, valueExpr))
      else Returned(Failing(ErrorOrDefault(error, valueExpr, "does not satisfy the requirement."), valueExpr))
    case Failing(_, _) => Returned(Forward(ensure))
    case EnsureBottom => Threw(EnsureNotInitialized("ensure"))
  }

  /** `Satisfies(requirement, errorFactory)`: the factory builds the error
      from the label. */
  function SatisfiesWith<T>(ensure: Ensure<T>, requirement: T -> bool, errorFactory: string -> Error): (r: Completion<Ensure<T>>)
    ensures ensure.EnsureBottom? <==> r == Threw(EnsureNotInitialized("ensure"))
    ensures ensure.Failing? ==> r == Returned(ensure)
    ensures ensure.Passing? && requirement(ensure.value) ==> r == Returned(ensure)
    ensures ensure.Passing? && !requirement(ensure.value) ==>
              r == Returned(Failing(errorFactory(ensure.valueExpr), ensure.valueExpr))
  {
    match ensure
    case Passing(value, valueExpr) =>
      if requirement(value) then Returned(Passing(value, valueExpr))
      else Returned(Failing(errorFactory(valueExpr), valueExpr))
    case Failing(_, _) => Returned(Forward(ensure))
    case EnsureBottom => Threw(EnsureNotInitialized("ensure"))
  }

  /** `NotNull`: a nullable value is unwrapped, or the rule fails. */
  function NotNull<T>(ensure: Ensure<Option<T>>, error: Option<Error>): (r: Completion<Ensure<T>>)
    ensures ensure.EnsureBottom? <==> r == Threw(EnsureNotInitialized("ensure"))
    ensures ensure.Failing? ==> r == Returned(Failing(ensure.error, ensure.valueExpr))
    ensures ensure.Passing? && ensure.value.Some? ==> r == Returned(Passing(ensure.value.value, ensure.valueExpr))
    ensures ensure.Passing? && ensure.value.None? ==>
              r == Returned(Failing(ErrorOrDefault(error, ensure.valueExpr, "is null."), ensure.valueExpr))
  {
    match ensure
    case Passing(value, valueExpr) =>
      if value.Some? then Returned(Passing(value.value, valueExpr))
      else Returned(Failing(ErrorOrDefault(error, valueExpr, "is null."), valueExpr))
    case Failing(_, _) => Returned(Forward(ensure))
    case EnsureBottom => Threw(EnsureNotInitialized("ensure"))
  }

  /** `NotEmpty` on arrays, lists, the collection interfaces, enumerables
      and strings: null and zero-length values fail. */
  function NotEmpty<T>(ensure: Ensure<Option<seq<T>>>, error: Option<Error>): (r: Completion<Ensure<Option<seq<T>>>>)
    ensures ensure.EnsureBottom? <==> r == Threw(EnsureNotInitialized("ensure"))
    ensures ensure.Failing? ==> r == Returned(ensure)
    ensures ensure.Passing? && ensure.value.Some? && |ensure.value.value| > 0 ==> r == Returned(ensure)
    ensures ensure.Passing? && (ensure.value.None? || ensure.value.value == []) ==>
              r == Returned(Failing(ErrorOrDefault(error, ensure.valueExpr, "is empty."), ensure.valueExpr))
  {
    match ensure
    case Passing(value, valueExpr) =>
      if value.Some? && |value.value| > 0 then Returned(Passing(value, valueExpr))
      else Returned(Failing(ErrorOrDefault(error, valueExpr, "is empty."), valueExpr))
    case Failing(_, _) => Returned(Forward(ensure))
    case EnsureBottom => Threw(EnsureNotInitialized("ensure"))
  }

  /** `NotWhitespace`: null, empty and all-white-space strings fail. */
  function NotWhitespace(ensure: Ensure<Option<string>>, error: Option<Error>): (r: Completion<Ensure<Option<string>>>)
    ensures ensure.EnsureBottom? <==> r == Threw(EnsureNotInitialized("ensure"))
    ensures ensure.Failing? ==> r == Returned(ensure)
    ensures ensure.Passing? && !IsNullOrWhiteSpace(ensure.value) ==> r == Returned(ensure)
    ensures ensure.Passing? && IsNullOrWhiteSpace(ensure.value) ==>
              r == Returned(Failing(ErrorOrDefault(error, ensure.valueExpr,
                                    "is empty or consists exclusively of white-space characters."), ensure.valueExpr))
  {
    match ensure
    case Passing(value, valueExpr) =>
      if IsNullOrWhiteSpace(value)
      then Returned(Failing(ErrorOrDefault(error, valueExpr, "is empty or consists exclusively of white-space characters."), valueExpr))
      else Returned(Passing(value, valueExpr))
    case Failing(_, _) => Returned(Forward(ensure))
    case EnsureBottom => Threw(EnsureNotInitialized("ensure"))
  }

  /** A non-null C# reference seen again through a nullable type. */
  function AsNullable<T>(ensure: Ensure<T>): Ensure<Option<T>> {
    match ensure
    case Passing(value, valueExpr) => Passing(Some(value), valueExpr)
    case Failing(error, valueExpr) => Failing(error, valueExpr)
    case EnsureBottom => EnsureBottom
  }

  /** Runs the next step of a chain unless the previous one threw. */
  function Then<A, B>(c: Completion<A>, next: A -> Completion<B>): Completion<B> {
    match c
    case Returned(a) => next(a)
    case Threw(f) => Threw(f)
  }

  /** A failing `Ensure` goes through every rule unchanged, whatever the
      rule and whatever error it would have reported. */
  lemma FailuresPassThrough<T>(error: Error, valueExpr: string, p: T -> bool, e: Option<Error>, factory: string -> Error)
    ensures Satisfies(Failing(error, valueExpr), p, e) == Returned(Failing(error, valueExpr))
    ensures SatisfiesWith(Failing(error, valueExpr), p, factory) == Returned(Failing(error, valueExpr))
    ensures NotNull(Ensure<Option<T>>.Failing(error, valueExpr), e) == Returned(Failing(error, valueExpr))
    ensures NotEmpty(Ensure<Option<seq<T>>>.Failing(error, valueExpr), e) == Returned(Failing(error, valueExpr))
    ensures NotWhitespace(Failing(error, valueExpr), e) == Returned(Failing(error, valueExpr))
  {
  }

  /** A rule that always holds changes nothing, and checking a rule twice is
      checking it once. */
  lemma SatisfiesLaws<T>(ensure: Ensure<T>, p: T -> bool, e: Option<Error>)
    requires !ensure.EnsureBottom?
    ensures Satisfies(ensure, (v: T) => true, e) == Returned(ensure)
    ensures Satisfies(ensure, p, e).Returned?
    ensures Satisfies(Satisfies(ensure, p, e).value, p, e) == Satisfies(ensure, p, e)
  {
  }

  /** `That(value).Satisfies(p).Result()` succeeds with the value exactly
      when `p` holds of it, and otherwise fails with the default error. */
  lemma SatisfiesThenResult<T>(value: T, valueExpr: string, p: T -> bool)
    ensures Then(Satisfies(That(value, valueExpr), p, None), EnsureResult)
            == Returned(if p(value) then Ok(value) else Fail(DefaultError(valueExpr, "does not satisfy the requirement.")))
  {
    var checked := Satisfies(That(value, valueExpr), p, None);
    assert Then(checked, EnsureResult) == EnsureResult(checked.value);
    if !p(value) {
      assert checked.value == Failing(DefaultError(valueExpr, "does not satisfy the requirement."), valueExpr);
    }
  }

  /** A string that passes `NotWhitespace` is neither null nor empty, so it
      passes `NotEmpty` too; the converse fails for white space. */
  lemma NotWhitespaceIsStricterThanNotEmpty(s: Option<string>, valueExpr: string)
    ensures NotWhitespace(Passing(s, valueExpr), None) == Returned(Passing(s, valueExpr)) ==>
              NotEmpty(Passing(s, valueExpr), None) == Returned(Passing(s, valueExpr))
    ensures NotEmpty(Passing(Some("   "), valueExpr), None) == Returned(Passing(Some("   "), valueExpr))
    ensures NotWhitespace(Passing(Some("   "), valueExpr), None).value.Failing?
  {
    if s.Some? && s.value == [] {
      assert IsNullOrWhiteSpace(s);
    }
    assert IsWhiteSpace("   "[0]) && IsWhiteSpace("   "[1]) && IsWhiteSpace("   "[2]);
  }

  /** The chain `That(s).NotNull().NotEmpty().NotWhitespace().Satisfies(p).Result()`. */
  function CheckedString(s: Option<string>, valueExpr: string, p: string -> bool): Completion<Result<Option<string>>> {
    Then(NotNull(That(s, valueExpr), None), (e: Ensure<string>) =>
    Then(NotEmpty(AsNullable(e), None), (e: Ensure<Option<string>>) =>
    Then(NotWhitespace(e, None), (e: Ensure<Option<string>>) =>
    Then(Satisfies(e, (v: Option<string>) => v.Some? && p(v.value), None), EnsureResult))))
  }

  /** The chain for every string and every requirement: null fails as null,
      the empty string as empty, an all-white-space string as white space, and
      any other string passes exactly when the requirement holds of it. */
  lemma CheckedStringRules(s: Option<string>, valueExpr: string, p: string -> bool)
    ensures s.None? ==> CheckedString(s, valueExpr, p) == Returned(Fail(DefaultError(valueExpr, "is null.")))
    ensures s == Some([]) ==> CheckedString(s, valueExpr, p) == Returned(Fail(DefaultError(valueExpr, "is empty.")))
    ensures s.Some? && s.value != [] && IsNullOrWhiteSpace(s) ==>
              CheckedString(s, valueExpr, p)
              == Returned(Fail(DefaultError(valueExpr, "is empty or consists exclusively of white-space characters.")))
    ensures !IsNullOrWhiteSpace(s) && p(s.value) ==> CheckedString(s, valueExpr, p) == Returned(Ok(s))
    ensures !IsNullOrWhiteSpace(s) && !p(s.value) ==>
              CheckedString(s, valueExpr, p) == Returned(Fail(DefaultError(valueExpr, "does not satisfy the requirement.")))
  {
  }

  /** In the chain, the first rule a value breaks decides the error; a value
      that breaks none succeeds. */
  lemma FirstViolatedRuleSurvives(valueExpr: string, p: string -> bool)
    ensures CheckedString(Some("   "), valueExpr, p)
            == Returned(Fail(DefaultError(valueExpr, "is empty or consists exclusively of white-space characters.")))
    ensures CheckedString(None, valueExpr, p) == Returned(Fail(DefaultError(valueExpr, "is null.")))
    ensures CheckedString(Some(""), valueExpr, p) == Returned(Fail(DefaultError(valueExpr, "is empty.")))
    ensures p("69") ==> CheckedString(Some("69"), valueExpr, p) == Returned(Ok(Some("69")))
  {
    assert IsWhiteSpace("   "[0]) && IsWhiteSpace("   "[1]) && IsWhiteSpace("   "[2]);
    assert !IsWhiteSpace("69"[0]);
  }
}
