# Just.Railway in Dafny

A model of the hand-written core of Just.Railway, a C# library for
railway-oriented error handling. It covers:

- the `Error` hierarchy (`Railway/Error.cs`): `ExpectedError`,
  `ExceptionalError` and the flattening aggregate `ManyErrors`, with their
  factories, `Append`/`+`, equality, similarity and ordering;
- the outcome structs (`Railway/Result.cs`): the tri-state `ResultState`
  (Bottom, Error and Success stored as the bytes 0, 0b01 and 0b11), the
  non-generic `Result` and the generic `Result<T>`, with their constructors,
  queries, equality and conversions;
- the synchronous combinators (`Railway/ResultExtensions.cs`) at arities 0
  to 2: `Match`, `Map`, `Bind`, `Tap`, the eager, value-extending and lazy
  `Append`, and `Merge`. It also covers one generic definition each of the
  generated `Combine` (over a sequence of results) and `TryRecover`;
- the validation front end (`Railway/Ensure.cs`): `Ensure.That`,
  `Satisfies`, `NotNull`, `NotEmpty`, `NotWhitespace` and `.Result()`;
- the JSON form of errors (`Railway/ErrorJsonConverter.cs`), with the
  reader and the writer working over an abstract token stream.

Files and modules:

| file | module | models |
|---|---|---|
| `prelude.dfy` | `Prelude` | C# `null` (`Option`), the exceptions the library raises (`Fault`), and "returns or throws" (`Completion`) |
| `text.dfy` | `Text` | ordinal string comparison, ASCII case-insensitive equality, `char.IsWhiteSpace`, `string.Join`, decimal rendering |
| `error.dfy` | `Errors` | `Railway/Error.cs` |
| `result.dfy` | `Results` | `Railway/Result.cs` |
| `result_extensions.dfy` | `Combinators` | `Railway/ResultExtensions.cs`, the generated `Combine` and `TryRecover` |
| `ensure.dfy` | `Validation` | `Railway/Ensure.cs` |
| `error_json.dfy` | `ErrorJson` | `Railway/ErrorJsonConverter.cs` |

Modelling choices:

- A C# exception is an explicit outcome, `Completion.Threw(fault)`, not a
  precondition. This covers `ResultNotInitializedException`,
  `EnsureNotInitializedException`, `ArgumentNullException`, `JsonException`
  and the immutable dictionary builder's duplicate-key `ArgumentException`.
  Each fault records the variable name the source passes to it.
- A default-initialised struct is its own constructor: `Result<T>.Bottom`,
  `PlainResult.PlainBottom` and `Ensure<T>.EnsureBottom`.
- `Error` is a closed datatype. Its aggregate may hold any `Error`, as the C#
  `ImmutableArray<Error>` may. `Flat(e)` states that no aggregate is a direct
  child. Every flattening constructor is proved to keep `Flat`, and to list
  the operands' children in order.
- Callbacks are Dafny functions. The side effects of `Tap` are a log of the
  callbacks it invoked.
- The JSON reader is a `JsonReader` class: a cursor that the converter
  advances in place over a sequence of `Token`s. The writer is a
  `JsonWriter` class that records the tokens written. Each reading method is
  proved equal to a function on the token sequence (`ReadOneFrom`,
  `ReadManyFrom`, `ReadSpec`). The round-trip lemmas are stated about those
  functions.
- `ManyErrors.Equals` on a one-child aggregate compares that child with
  `other.AccessUnsafe(0)`, and a leaf answers that call with itself. So an
  aggregate `[leaf]` equals `leaf`, but `leaf` does not equal the aggregate.
  The model keeps this asymmetry; `Errors.EqualityWithLeafIsNotSymmetric`
  states it.

## Model

| member | source | states |
|---|---|---|
| `Errors.Type` | Railway/Error.cs:281 | an aggregate's type is "many_errors"; a leaf reports the type it was built with |
| `Errors.Message` | Railway/Error.cs:284-298 | a leaf reports its own message; a one-child aggregate reports that child's message |
| `Errors.MessageAppendChild` | Railway/Error.cs:284-298 | the aggregate's message puts a newline between its children's messages: one more child adds a newline and that child's message at the end |
| `Errors.ExtensionData` | Railway/Error.cs:82 | an aggregate never sets extension data, so it reports the empty dictionary |
| `Errors.ToEnumerable` | Railway/Error.cs:309 | an aggregate enumerates its children; a leaf enumerates itself alone (lines 172-175) |
| `Errors.IsExpected` | Railway/Error.cs:303 | a leaf is expected exactly when it is an `ExpectedError`; the empty aggregate is expected (`All` over nothing) |
| `Errors.IsExeptional` | Railway/Error.cs:304 | a leaf is exceptional exactly when it is an `ExceptionalError`; the empty aggregate is not (`Any` over nothing) |
| `Errors.AppendSanitized` | Railway/Error.cs:388-394 | the builder gets the error's enumeration appended: an aggregate's children, or the leaf itself |
| `Errors.AccessUnsafe` | Railway/Error.cs:396 | an aggregate yields its child at the position; a leaf yields itself whatever the position (line 147); a flat error never yields an aggregate |
| `Errors.IsSimilarTo` | Railway/Error.cs:329-347 | a leaf is similar exactly to a non-null error of the same type (line 117); nothing is similar to null; an aggregate is similar only to an error with as many children |
| `Errors.Equals` | Railway/Error.cs:348-366 | nothing equals null, and an aggregate equals only an error with as many children |
| `Errors.OperatorEquals` | Railway/Error.cs:119 | null `==` is true exactly against null; a non-null error is never `==` null |
| `Errors.Count` | Railway/Error.cs:301-309 | a leaf counts one and an aggregate counts its children: the count is the length of `ToEnumerable` |
| `Errors.IsEmpty` | Railway/Error.cs:302 | an error is empty exactly when its count is zero, and exactly when it enumerates nothing |
| `Errors.ExtensionValue` | Railway/Error.cs:82-83 | the indexer yields the extension value under the key, and null exactly when the key is absent |
| `Errors.New` | Railway/Error.cs:32-36 | an expected error of type "error" with the given message and extension data (empty when null); count 1, expected, not exceptional, not empty |
| `Errors.NewTyped` | Railway/Error.cs:43-47 | the same, with the given type |
| `Errors.Join` | Railway/Error.cs:253-266 | `ManyErrors(head, tail)` has `head.Count + tail.Count` children: head's children, then tail's. It is flat when both inputs are flat |
| `Errors.UnpackIsLeaves` | Railway/Error.cs:267-279 | what the loop collects (empty inputs skipped, aggregates spliced) is the concatenation of every input's children, in encounter order |
| `Errors.NewManyErrors` | Railway/Error.cs:267-279 | the loop builds the aggregate of the inputs' children in order; its count is the sum of the input counts; it is flat when the inputs are |
| `Errors.Many` | Railway/Error.cs:53-61 | both null gives the empty aggregate; a null or empty side gives the other side; in every case the children are those of `error1` then `error2`, and flatness is kept |
| `Errors.ManyOf` | Railway/Error.cs:67-71 | exactly one argument is returned unchanged; any other number gives an aggregate of all the inputs' children, in order, whose count is the sum of the counts and which is flat when the inputs are |
| `Errors.ManyOfSequence` | Railway/Error.cs:77 | always an aggregate of all the inputs' children, in order, whose count is the sum of the counts and which is flat when the inputs are |
| `Errors.Append` | Railway/Error.cs:90-99 | a null or empty `next` returns the receiver; an empty receiver returns `next`; the children are the receiver's then `next`'s; counts add up; flatness is kept |
| `Errors.Plus` | Railway/Error.cs:103 | `null + rhs` is `rhs`; otherwise it is never null and lists the left children then the right |
| `Errors.AppendIdentity` | Railway/Error.cs:90-99 | the empty aggregate is a left and right identity of `Append` |
| `Errors.AppendAssociative` | Railway/Error.cs:90-103 | `Append` is associative, as a structural equality of errors |
| `Errors.FlattenNested` | Railway/Error.cs:53-61 | `Many(Many(a, b), c)` of leaves enumerates `[a, b, c]` and is flat |
| `Errors.ExpectedIsNotExceptional` | Railway/Error.cs:303-304 | for every error, `IsExpected` (all children expected) is the negation of `IsExeptional` (some child exceptional) |
| `Errors.LeafEquality` | Railway/Error.cs:117-121 | two leaves are equal exactly when type and message are equal; extension data and the kind of leaf play no part |
| `Errors.EqualsReflexive` | Railway/Error.cs:117-118 | every error equals itself |
| `Errors.EqualsImpliesSimilar` | Railway/Error.cs:117-118 | equal errors are similar |
| `Errors.EqualsSymmetric` | Railway/Error.cs:348-366 | between two leaves, or two flat aggregates, equality is symmetric |
| `Errors.EqualityWithLeafIsNotSymmetric` | Railway/Error.cs:147 | a one-child aggregate equals its child, yet the child does not equal the aggregate |
| `Errors.CompareTo` | Railway/Error.cs:124-138 | the comparison is -1, 0 or 1, and -1 against null; the order itself is stated by `CompareToOrder` |
| `Errors.CompareToOrder` | Railway/Error.cs:124-138 | leaves order by type, and by message when the types are equal; an aggregate orders by count first (lines 311-316), and at equal counts the first child that compares non-zero decides, the result being zero exactly when every child compares zero (lines 318-327) |
| `Text.CompareOrdinalTransitive` | Railway/Error.cs:130-137 | the string order standing in for `string.Compare` is transitive |
| `Errors.LeafCompareTransitive` | Railway/Error.cs:124-138 | between leaves, a zero comparison makes two leaves interchangeable, and both `<` and `<=` are transitive |
| `Errors.AggregateCompareTransitive` | Railway/Error.cs:311-328 | between flat aggregates, the strict order (count, then children lexicographically) is transitive |
| `Errors.CompareFrom` | Railway/Error.cs:318-327 | the aggregate's element-wise comparison from position `i` on is -1, 0 or 1; `CompareFromOrder` states that the first child comparing non-zero decides |
| `Errors.CompareFromOrder` | Railway/Error.cs:318-327 | from position `i` on, the loop gives zero exactly when every remaining child compares zero, and otherwise the comparison of the first child that does not |
| `Errors.ManyErrorsCompareTo` | Railway/Error.cs:311-328 | the loop computes `CompareTo`: -1 against null; `Count` compared first when the counts differ; at equal counts zero exactly when every child compares zero, and otherwise the comparison of the first child that does not |
| `Errors.ManyErrorsIsSimilarTo` | Railway/Error.cs:329-347 | the loop answers whether counts agree and each child is similar to `other.AccessUnsafe(i)` |
| `Errors.ManyErrorsEquals` | Railway/Error.cs:348-366 | the loop answers whether counts agree and each child equals `other.AccessUnsafe(i)` |
| `Errors.CompareToZeroIffEquals` | Railway/Error.cs:311-328 | between two leaves or two flat aggregates, the comparison is zero exactly when the errors are equal |
| `Errors.CompareToAntisymmetric` | Railway/Error.cs:124-138 | between two leaves or two flat aggregates, swapping the operands negates the comparison |
| `Results.BitsOrder` | Railway/Result.cs:4-7 | the state bytes are distinct and ordered Bottom < Error < Success |
| `Results.AndIsBottomIffOperandIsBottom` | Railway/Result.cs:6 | the AND of two state bytes is Bottom exactly when one operand is Bottom |
| `Results.AndAllIsBottomIffSomeBottom` | Railway.SourceGenerator/ResultCombineExecutor.cs:175-178 | the AND of any number of states is Bottom exactly when one state is Bottom; otherwise it is the Error or the Success byte |
| `Results.PlainState` | Railway/Result.cs:11-18 | the `State` field: Bottom only for the default struct, Success for a success, Error exactly when the error field is set |
| `Results.PlainIsSuccess` | Railway/Result.cs:54 | `IsSuccess` tests the error field alone: true in every state but Error, so the default struct reports success |
| `Results.PlainIsFailure` | Railway/Result.cs:55 | `IsFailure` is the complement of `IsSuccess`: true exactly in the Error state |
| `Results.NewPlain` | Railway/Result.cs:14-18 | the constructor sets Success exactly when the error is null, Error otherwise, and keeps the error |
| `Results.PlainSuccess` | Railway/Result.cs:21 | `Result.Success()` is in the Success state with no error |
| `Results.PlainFailure` | Railway/Result.cs:40-45 | `Failure(error)` and the implicit conversion throw `ArgumentNullException` exactly on null; otherwise the result is a failure carrying that error |
| `Results.PlainTryGetError` | Railway/Result.cs:54-70 | reports an error exactly in the Error state; the default struct answers (false, null) without throwing |
| `Results.PlainEquals` | Railway/Result.cs:87-93 | throws exactly on a Bottom receiver; a success equals any non-failure; a failure equals only an equal failure |
| `Results.PlainEqualsCases` | Railway/Result.cs:87-93 | two successes are equal; a success equals the default struct; success and failure differ; a failure equals itself |
| `Results.State` | Railway/Result.cs:102-116 | the `State` field of `Result<T>`: Bottom exactly for the default struct, Success exactly for a value, Error exactly for an error |
| `Results.IsSuccess` | Railway/Result.cs:125 | `IsSuccess` reads the state: true exactly for a success |
| `Results.IsFailure` | Railway/Result.cs:126 | `IsFailure` reads the state: true exactly for a failure, never together with `IsSuccess`, and the default struct is neither |
| `Results.Success` | Railway/Result.cs:24 | a success holding the value |
| `Results.Success2` | Railway/Result.cs:27 | a success holding the pair of values |
| `Results.Failure` | Railway/Result.cs:104-109 | `Failure<T>`, `new Result<T>(error)` and the implicit conversion throw exactly on null, and otherwise fail with that error |
| `Results.Unwrap` | Railway/Result.cs:128-144 | throws exactly on Bottom; returns true with the value and no error exactly for a success; returns false with no value and the error exactly for a failure |
| `Results.TryGetValue` | Railway/Result.cs:145-159 | throws exactly on Bottom; true with the value exactly for a success |
| `Results.TryGetError` | Railway/Result.cs:160-174 | throws exactly on Bottom; true with the error exactly for a failure |
| `Results.QueriesAgree` | Railway/Result.cs:128-174 | `Unwrap`, `TryGetValue` and `TryGetError` throw on the same results and give the same answers |
| `Results.ResultEquals` | Railway/Result.cs:213-224 | throws exactly on a Bottom receiver; a success never equals a failure; two successes compare values; two failures compare errors |
| `Results.ResultEqualsReflexive` | Railway/Result.cs:213-224 | every initialised result equals itself |
| `Results.ToPlain` | Railway/Result.cs:117-122 | `(Result)r` throws exactly on Bottom, keeps the state and the error, and drops the value |
| `Results.ToUnitResult` | Railway/Result.cs:47-52 | `Result` to `Result<SuccessUnit>` throws exactly on Bottom, and keeps the state and the error |
| `Results.ConversionsRoundTrip` | Railway/Result.cs:47-52 | on initialised results the two conversions are inverse to each other |
| `Combinators.MatchPlain` | Railway/ResultExtensions.cs:9-17 | throws exactly on Bottom; otherwise exactly the callback chosen by the state is applied |
| `Combinators.Match` | Railway/ResultExtensions.cs:57-65 | throws exactly on Bottom; otherwise `onSuccess(value)` or `onFailure(error)`, chosen by the state |
| `Combinators.Match2` | Railway/ResultExtensions.cs:107-115 | the pair form is `Match` with the callback spread over the pair |
| `Combinators.MapPlain` | Railway/ResultExtensions.cs:262-270 | a success maps to a success of the mapping; a failure keeps its error |
| `Combinators.Map` | Railway/ResultExtensions.cs:312-320 | `Map` is `Match` into `Ok(f(v))` or `Fail(e)`, throwing on Bottom |
| `Combinators.Map2` | Railway/ResultExtensions.cs:362-370 | the pair form is `Map` with the mapping spread over the pair |
| `Combinators.BindPlain` | Railway/ResultExtensions.cs:516-524 | a success yields the binding's own result; a failure keeps its error |
| `Combinators.BindPlainTo` | Railway/ResultExtensions.cs:559-567 | the same, into a generic result |
| `Combinators.Bind` | Railway/ResultExtensions.cs:606-614 | `Bind` is `Match` into `f(v)` (no double wrapping) or `Fail(e)`, throwing on Bottom |
| `Combinators.Bind2` | Railway/ResultExtensions.cs:653-661 | the pair form is `Bind` with the binding spread over the pair |
| `Combinators.TryRecoverPlain` | Railway.SourceGenerator/ResultTryRecoverExecutor.cs:25-33 | a success stays a success (the evident intent of the template's success arm, see "## Left out"); a failure is handed to `recover`; Bottom throws |
| `Combinators.TryRecover` | Railway.SourceGenerator/ResultTryRecoverExecutor.cs:25-33 | the same for `Result<T>`: `Match` into `Ok(v)` or `recover(e)` |
| `Combinators.ShortCircuits` | Railway/ResultExtensions.cs:606-614 | on a failure, `Map` and `Bind` return that failure whatever the callback is; on a success, `TryRecover` ignores `recover` |
| `Combinators.MapLaws` | Railway/ResultExtensions.cs:312-320 | `Map` preserves identity and composition on initialised results |
| `Combinators.BindLaws` | Railway/ResultExtensions.cs:606-614 | `Bind` has left and right identities, and `Map` is `Bind` into a success |
| `Combinators.TryRecoverWithFailIsIdentity` | Railway.SourceGenerator/ResultTryRecoverExecutor.cs:25-33 | recovering with `Fail` returns the result unchanged |
| `Combinators.TapPlain` | Railway/ResultExtensions.cs:1289-1304 | throws exactly on Bottom; returns the same result; invokes at most one callback, the one matching the state, if present |
| `Combinators.Tap` | Railway/ResultExtensions.cs:1364-1378 | the same for `Result<T>`: the value goes to `onSuccess` and the error to `onFailure` |
| `Combinators.TapInvokesWhatMatchChooses` | Railway/ResultExtensions.cs:1364-1378 | the callback `Tap` invokes is the one `Match` would choose |
| `Combinators.AppendErrors` | Railway/ResultExtensions.cs:796-824 | throws, naming the Bottom operands as "result;next", exactly when one operand is Bottom. Otherwise the error is null exactly when both succeed, and is the receiver's error `+` next's error, in that order |
| `Combinators.AppendPlain` | Railway/ResultExtensions.cs:796-824 | `Append(Result, Result)` succeeds exactly when both succeed; a failure carries exactly `result.Error + next.Error` (either may be absent); a Bottom operand throws `ResultNotInitialized` naming the Bottom operands, joined as "result;next" |
| `Combinators.AppendValue` | Railway/ResultExtensions.cs:830-838 | a success takes on the value; a failure keeps its error; Bottom throws |
| `Combinators.AppendPlainResult` | Railway/ResultExtensions.cs:839-867 | succeeds with next's value exactly when both succeed; a failure carries exactly `result.Error + next.Error`; a Bottom operand throws `ResultNotInitialized` naming the Bottom operands, joined as "result;next" |
| `Combinators.AppendToResult` | Railway/ResultExtensions.cs:868-896 | succeeds with the receiver's value exactly when both succeed; a failure carries exactly `result.Error + next.Error`; a Bottom operand throws `ResultNotInitialized` naming the Bottom operands, joined as "result;next" |
| `Combinators.AppendLazy` | Railway/ResultExtensions.cs:898-906 | the thunk's result is returned for a success, and the thunk is not consulted otherwise |
| `Combinators.AppendValue2` | Railway/ResultExtensions.cs:945-953 | a success is extended to the pair (value, appended value) |
| `Combinators.AppendPair` | Railway/ResultExtensions.cs:954-982 | succeeds with `(v1, v2)` exactly when both succeed; otherwise fails with `result.Error + next.Error`; throws, naming the Bottom operands, exactly when one is Bottom |
| `Combinators.AppendPairLazy` | Railway/ResultExtensions.cs:1013-1021 | Bottom throws; a failed receiver returns its own error |
| `Combinators.ValueAppendIsEagerAppend` | Railway/ResultExtensions.cs:945-982 | appending a value is the eager append of a success holding it |
| `Combinators.LazyAppendAgreesWithEager` | Railway/ResultExtensions.cs:1013-1021 | for a successful receiver the lazy append is the eager one; for a failed receiver the thunk is irrelevant |
| `Combinators.AppendTwoFailures` | Railway/ResultExtensions.cs:954-982 | two failures give the aggregate of both errors, receiver first; a failure and a success give the failure's error |
| `Combinators.AppendNamesBottomOperands` | Railway/ResultExtensions.cs:954-969 | two Bottom operands are named "result;next"; a Bottom `next` alone is named "next" |
| `Combinators.SumErrorsChildren` | Railway.SourceGenerator/ResultCombineExecutor.cs:179-180 | `null + e1 + ... + en` lists the children of `e1` to `en` in order, and is flat when they are |
| `Combinators.SumErrorsSmall` | Railway.SourceGenerator/ResultCombineExecutor.cs:179-181 | one failure yields that very error; two yield `e1 + e2` |
| `Combinators.AndOfStates` | Railway.SourceGenerator/ResultCombineExecutor.cs:175 | the AND of all states is Bottom exactly when some result is Bottom |
| `Combinators.GetBottom` | Railway.SourceGenerator/ResultCombineExecutor.cs:75-89 | the names "resultI" of the Bottom results, in order; none exactly when no result is Bottom |
| `Combinators.AccumulateFailures` | Railway.SourceGenerator/ResultCombineExecutor.cs:126-134 | the sum of the failing results' errors in order; null exactly when none fails |
| `Combinators.CollectValues` | Railway.SourceGenerator/ResultCombineExecutor.cs:135-167 | when all succeed, the values of all results in positional order |
| `Combinators.Combine` | Railway.SourceGenerator/ResultCombineExecutor.cs:169-183 | throws, naming the Bottom results, exactly when one is Bottom. Otherwise it succeeds with all values in order exactly when all succeed, and else fails with the failing errors' children in input order |
| `Combinators.OrderByStateIsSortedPermutation` | Railway/ResultExtensions.cs:1656 | `OrderBy(x => x.State)` is a permutation of the input, sorted by the state byte |
| `Combinators.OrderedKeeps` | Railway/ResultExtensions.cs:1656 | the stable ordering keeps the failing errors and the success values, each in input order |
| `Combinators.FailuresBeforeSuccess` | Railway/ResultExtensions.cs:1666-1667 | in a state-sorted sequence, no failure follows a success, so leaving at the first success after a failure misses no error |
| `Combinators.MergeOrdered` | Railway/ResultExtensions.cs:1656-1678 | the loop over state-sorted results throws exactly when one is Bottom; it fails with the aggregate of all errors exactly when one fails, and otherwise succeeds with all values |
| `Combinators.Merge` | Railway/ResultExtensions.cs:1650-1679 | throws exactly when an element is Bottom. Otherwise it fails exactly when an element fails, with the aggregate of all failing errors in input order (successes dropped); else it succeeds with every value in input order (empty input gives empty values) |
| `Validation.That` | Railway/Ensure.cs:9 | a passing `Ensure` holding the value and the label |
| `Validation.EnsureResult` | Railway/Ensure.cs:12-17 | `.Result()` throws exactly on Bottom; passing gives `Ok(value)`, failing gives `Fail(error)` |
| `Validation.DefaultError` | Railway/Ensure.cs:36 | the default error is an expected error of type "EnsureFailed" with message "Value {", the label, "} " and then the complaint |
| `Validation.Satisfies` | Railway/Ensure.cs:30-40 | a failure passes through; a holding predicate keeps the value; otherwise it fails with the given error, or by default with "does not satisfy the requirement." |
| `Validation.SatisfiesWith` | Railway/Ensure.cs:42-52 | the same, failing with `errorFactory(label)` |
| `Validation.NotNull` | Railway/Ensure.cs:158-169 | a non-null value is unwrapped; null fails with "is null." or the given error; a failure passes through |
| `Validation.NotEmpty` | Railway/Ensure.cs:186-280 | null and zero-length values fail with "is empty." or the given error; others pass unchanged |
| `Validation.NotWhitespace` | Railway/Ensure.cs:283-293 | null, empty and all-white-space strings fail with "is empty or consists exclusively of white-space characters." or the given error |
| `Validation.FailuresPassThrough` | Railway/Ensure.cs:30-293 | every validator returns a failing `Ensure` with the same error and label, whatever its predicate and error |
| `Validation.SatisfiesLaws` | Railway/Ensure.cs:30-40 | an always-true rule changes nothing, and checking a rule twice equals checking it once |
| `Validation.SatisfiesThenResult` | Raliway.Tests/EnsureExtensions/Satisfy.cs:5-25 | `That(v).Satisfies(p).Result()` is `Ok(v)` when `p(v)` holds, and otherwise the default "does not satisfy" error |
| `Validation.NotWhitespaceIsStricterThanNotEmpty` | Railway/Ensure.cs:270-293 | a string passing `NotWhitespace` passes `NotEmpty`; "   " passes `NotEmpty` and fails `NotWhitespace` |
| `Validation.CheckedStringRules` | Raliway.Tests/EnsureExtensions/Satisfy.cs:27-54 | for every string and requirement, the chain `That(s).NotNull().NotEmpty().NotWhitespace().Satisfies(p).Result()` fails with "is null." for null, "is empty." for the empty string, the white-space complaint for an all-white-space string, and otherwise succeeds with the string exactly when `p` holds, failing with "does not satisfy the requirement." when it does not |
| `Validation.FirstViolatedRuleSurvives` | Raliway.Tests/EnsureExtensions/Satisfy.cs:27-54 | in a `NotNull`, `NotEmpty`, `NotWhitespace`, `Satisfies` chain, the first rule broken decides the error; "69" passes them all |
| `ErrorJson.JsonReader.Read` | Railway/ErrorJsonConverter.cs:55 | the reader advances one token while one remains, and reports whether it did |
| `ErrorJson.Assign` | Railway/ErrorJsonConverter.cs:76-88 | a "type" name (any letter case) sets the type and nothing else; otherwise a "msg" name sets the message and nothing else; an empty name leaves the triple unchanged; any other name adds an extension pair, and throws exactly when the key is already present with another value |
| `ErrorJson.SkipComments` | Railway/ErrorJsonConverter.cs:67 | stops at the first token that is not a comment; when the stream ends on comments, the loop never ends |
| `ErrorJson.ReadProperty` | Railway/ErrorJsonConverter.cs:59-91 | reading a property never moves the reader backwards and never past the stream; its rules are stated by `ReadOneRules` and `CommentBeforeValue` |
| `ErrorJson.ReadOneFrom` | Railway/ErrorJsonConverter.cs:50-99 | a read that returns has stopped at the end of the stream or just after an `EndObject` |
| `ErrorJson.ReadOneRules` | Railway/ErrorJsonConverter.cs:53-98 | for every stream: the end of the stream and `EndObject` end the object; a comment is passed over; a property with a null value is skipped; a property whose value is not a string (nor null nor a comment) throws "Unable to deserialize Error type.", as does a property name at the end of the stream; any other token throws the same |
| `ErrorJson.CommentBeforeValue` | Railway/ErrorJsonConverter.cs:61-72 | a comment between a name and its value is passed over: an empty string value is skipped and another string goes through `Assign`; a null after the comment throws, because the null test comes before the comment loop |
| `ErrorJson.ReadPropertyValue` | Railway/ErrorJsonConverter.cs:59-91 | the property branch of the loop computes `ReadProperty` |
| `ErrorJson.ReadOne` | Railway/ErrorJsonConverter.cs:50-99 | the loop, from type "error" and message "", computes `ReadOneFrom` and leaves the reader where it stops |
| `ErrorJson.ToExpectedError` | Railway/ErrorJsonConverter.cs:48-49 | an expected leaf with the read type, message and extension data |
| `ErrorJson.ToExceptionalError` | Railway/ErrorJsonConverter.cs:156-157 | an exceptional leaf with the read type, message and extension data |
| `ErrorJson.ReadManyFrom` | Railway/ErrorJsonConverter.cs:36-47 | reading an array extends what was read with expected errors only |
| `ErrorJson.ReadMany` | Railway/ErrorJsonConverter.cs:36-47 | the loop computes `ReadManyFrom`, wraps it in an aggregate as it is, and reads to the end of the stream |
| `ErrorJson.ReadSpec` | Railway/ErrorJsonConverter.cs:7-17 | nothing read yet (`None`) and `Null` give null; `StartObject` gives the expected leaf `ReadOne` builds, or its fault; `StartArray` gives the aggregate `ReadMany` reads, or its fault; any other token throws "Unexpected JSON token."; whatever it returns is expected and flat |
| `ErrorJson.Read` | Railway/ErrorJsonConverter.cs:7-17 | object gives one expected error, array an aggregate, `None`/`Null` null, any other token a `JsonException`; a read that returns leaves the reader valid and at `ReadStop`: after the object's `EndObject`, at the end of the stream after an array, unmoved for `None`/`Null` |
| `ErrorJson.ReadExpected` | Railway/ErrorJsonConverter.cs:121-130 | as `Read`, but an array throws without moving the reader and the result is an expected leaf; a read that returns leaves the reader at `ReadStop` |
| `ErrorJson.ReadExceptional` | Railway/ErrorJsonConverter.cs:140-149 | as `Read`, but an array throws without moving the reader and the result is an exceptional leaf; a read that returns leaves the reader at `ReadStop` |
| `ErrorJson.ReadManyErrors` | Railway/ErrorJsonConverter.cs:162-171 | as `Read`, but an object throws without moving the reader and the result is an aggregate; a read that returns leaves the reader at `ReadStop` |
| `ErrorJson.WriteProperties` | Railway/ErrorJsonConverter.cs:107-113 | writes every extension pair exactly once, in some enumeration order |
| `ErrorJson.WriteOne` | Railway/ErrorJsonConverter.cs:100-116 | writes an object: "type", "msg", then each extension pair |
| `ErrorJson.WriteArray` | Railway/ErrorJsonConverter.cs:173-181 | writes an array with one object per child, in child order |
| `ErrorJson.Write` | Railway/ErrorJsonConverter.cs:19-34 | an aggregate is written as the array, a leaf as its object |
| `ErrorJson.ReadsArray` | Railway/ErrorJsonConverter.cs:36-47 | reading the written array yields one decoded child per child, in order |
| `ErrorJson.ReadsObject` | Railway/ErrorJsonConverter.cs:50-99 | reading a written object yields its type (or "error" when empty), its message and its non-empty extension pairs, and consumes it all |
| `ErrorJson.RoundTrip` | Raliway.Tests/Errors/Serialization.cs:25-50 | for any enumeration order of the extension pairs, reading what `Write` wrote yields the decoded error |
| `ErrorJson.DecodedMatches` | Raliway.Tests/Errors/Serialization.cs:25-50 | when no type and no extension value is empty, the decoded error equals the original, has its count, is expected, and keeps every extension pair |
| `ErrorJson.WriteReadAggregate` | Raliway.Tests/Errors/Serialization.cs:52-75 | an aggregate written and read back is an expected aggregate equal to the original |
| `ErrorJson.ReadManyReadsPastItsArray` | Railway/ErrorJsonConverter.cs:36-47 | inside `{"errors": [], "cause": {}}`, `ReadMany` on the empty array reads the sibling object as an error, where the stop at `EndArray` reads nothing |
| `ErrorJson.ReadArray` | Railway/ErrorJsonConverter.cs:36-47 | the loop with the stop at the first `EndArray` computes `ReadArrayFrom`, and leaves the reader on that token |
| `ErrorJson.ArrayRoundTripInContext` | Railway/ErrorJsonConverter.cs:36-47 | wherever a written array sits in a stream, the reading that stops at `EndArray` consumes exactly that array and yields its decoded children |

## Findings

| source | as written | input that shows it | evidently intended | confidence | as-written member | corrected member |
|---|---|---|---|---|---|---|
| Railway/ErrorJsonConverter.cs:36-47 | `ReadMany` loops `while (reader.Read())` and never stops at the `EndArray` of its own array; it reads every later object in the document as one more error | an aggregate-typed property followed by a sibling object, `{"errors": [], "cause": {}}` | stop at the first `EndArray` after the array's start, leaving the reader there (the arrays `Write` produces hold no nested array, so that token closes the array) | medium, not executed (at the top of a document the two readings agree; through `JsonSerializer`, the framework's own check that a converter read exactly one value would most likely turn the overrun into a `JsonException` rather than an extra error) | `ErrorJson.ReadManyReadsPastItsArray` | `ErrorJson.ArrayRoundTripInContext` |

`ErrorJson.ReadMany`, `ErrorJson.Read` and the round-trip lemmas for a
whole document model the code as written. At the top level of a document
the two readings agree, because `Write` puts nothing after the array.
`ErrorJson.ReadArray` and `ErrorJson.ReadArrayFrom` are the corrected
reading.

## Left out

- `Error.New(Exception)` and `Error.New(message, Exception)`: they build an `ExceptionalError` from a runtime exception object. Its type name comes from reflection and its extension data from `Exception.Data`. The model has the exceptional leaf itself (`ExceptionalError(type, message, data)`) but not these factories.
- `ToException`, `ErrorException` and `AggregateException` construction: these are foreign exception objects.
- `GetHashCode` of errors and results, and `ToString`: hash values and text renderings carry no further semantics.
- `Errors.Message`: for an empty aggregate the source throws, because `StringBuilder.Remove` gets a negative index; the model returns the empty string. The newline is fixed to "\n" (the Unix `Environment.NewLine`).
- `Errors.CompareTo`: `string.Compare` is culture-sensitive; the model orders strings by character code (ordinal), returning -1, 0 or 1.
- `ErrorJson.Assign`: `InvariantCultureIgnoreCase` is modelled as ASCII case folding only.
- `Combinators.TryRecoverPlain`: for the non-generic `Result` the template's success arm reads `(Result)result.Value`, but that struct has no `Value` member, so the code as generated would not compile for it; the model returns the success unchanged, the evident intent.
- Null arguments: a null element in `Error.Many(params Error[])` or `Error.Many(IEnumerable<Error>)` throws `NullReferenceException` at `err.IsEmpty`, and an `errorFactory` that returns null makes `Result()` throw `ArgumentNullException`; the model's `seq<Error>` and `string -> Error` parameters have no null to express either case.
- `Errors.New`: the extension data is given as a map, so a key listed twice cannot be expressed; `ToImmutableDictionary` would throw on such a key.
- `Result<T>.Cast<R>` and the reflection-based value equality: `Results.ResultEquals` uses Dafny equality on the value type.
- Every `Task` and `ValueTask` overload, and the 3- and 4-tuple overloads of `Match`, `Map`, `Bind`, `Append` and `Tap`: they repeat the arity 0 to 2 semantics.
- `Combinators.Combine`: the generated overloads take results of different types and spread tuple values into one flat tuple. The model takes any number (two or more) of results of one type and returns the sequence of their values.
- The comparison validators of `Ensure` (`EqualTo`, `LessThan` and the others) and the other generated extension methods: they come from the source generator, which is not part of this model.
- `Railway/Try.cs` and `Railway/ReflectionHelper.cs` are not part of this model.
- Callbacks that throw: Dafny functions are total, so an exception raised inside a user callback is not modelled. The side effects of `Tap`'s callbacks are modelled only as the record of which callback was invoked with what argument.
- The concrete `Utf8JsonReader` and `Utf8JsonWriter`: the model reads and writes an abstract token sequence, with no text encoding, escaping or well-formedness validation. The framework's own check that a converter read exactly one value is not modelled.
- `ErrorJson.WriteProperties`: the enumeration order of an immutable dictionary is unspecified, so the model leaves it open (any order of the keys) rather than fixing the runtime's order.
