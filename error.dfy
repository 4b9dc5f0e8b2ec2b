/** The error hierarchy of Railway/Error.cs as a closed datatype: two leaf
    kinds and an aggregate. The aggregate may hold any error, as the C#
    `ImmutableArray<Error>` may, and every constructor that builds one keeps
    it flat: no aggregate ever becomes a direct child of another. */
module Errors {
  import opened Prelude
  import opened Text

  /** `Environment.NewLine`, as on the Unix platforms. */
  const NewLine: string := "\n"

  /** The `Type` every aggregate reports. */
  const ManyErrorsType: string := "many_errors"

  /** `ExpectedError` (a business-rule failure), `ExceptionalError` (a caught
      fault; the wrapped exception object itself is not part of the model)
      and `ManyErrors`. */
  datatype Error =
    | ExpectedError(errorType: string, detail: string, extensionData: map<string, string>)
    | ExceptionalError(errorType: string, detail: string, extensionData: map<string, string>)
    | ManyErrors(errors: seq<Error>)

  /** The empty aggregate, identity of `Append`. */
  const Empty: Error := ManyErrors([])

  // ---------------------------------------------------------------------
  // Queries every error answers
  // ---------------------------------------------------------------------

  function Type(e: Error): (t: string)
    ensures e.ManyErrors? ==> t == ManyErrorsType
    ensures !e.ManyErrors? ==> t == e.errorType
  {
    if e.ManyErrors? then ManyErrorsType else e.errorType
  }

  /** A leaf's message; an aggregate's children's messages, one per line. */
  function Message(e: Error): (m: string)
    ensures !e.ManyErrors? ==> m == e.detail
    ensures e.ManyErrors? && |e.errors| == 1 ==> m == Message(e.errors[0])
    decreases e
  {
    match e
    case ManyErrors(es) => JoinWith(seq(|es|, i requires 0 <= i < |es| => Message(es[i])), NewLine)
    case _ => e.detail
  }

  /** An aggregate never sets its extension data, so it keeps the empty default. */
  function ExtensionData(e: Error): (data: map<string, string>)
    ensures e.ManyErrors? ==> data == map[]
  {
    if e.ManyErrors? then map[] else e.extensionData
  }

  /** The indexer `this[key]`: the extension value under `key`, or null. */
  function ExtensionValue(e: Error, key: string): (v: Option<string>)
    ensures v.Some? <==> key in ExtensionData(e)
    ensures v.Some? ==> v.value == ExtensionData(e)[key]
  {
    if key in ExtensionData(e) then Some(ExtensionData(e)[key]) else None
  }

  /** `ToEnumerable`: a leaf yields itself, an aggregate its children. */
  function ToEnumerable(e: Error): (s: seq<Error>)
    ensures e.ManyErrors? ==> s == e.errors
    ensures !e.ManyErrors? ==> s == [e]
  {
    if e.ManyErrors? then e.errors else [e]
  }

  /** A leaf counts one; an aggregate counts its direct children. */
  function Count(e: Error): (n: nat)
    ensures n == |ToEnumerable(e)|
  {
    if e.ManyErrors? then |e.errors| else 1
  }

  predicate IsEmpty(e: Error)
    ensures IsEmpty(e) <==> Count(e) == 0
    ensures IsEmpty(e) <==> ToEnumerable(e) == []
  {
    e.ManyErrors? && e.errors == []
  }

  /** True of an expected leaf, and of an aggregate all of whose children are expected. */
  predicate IsExpected(e: Error)
    ensures !e.ManyErrors? ==> (IsExpected(e) <==> e.ExpectedError?)
    ensures e == Empty ==> IsExpected(e)
    decreases e
  {
    match e
    case ExpectedError(_, _, _) => true
    case ExceptionalError(_, _, _) => false
    case ManyErrors(es) => forall i | 0 <= i < |es| :: IsExpected(es[i])
  }

  /** True of an exceptional leaf, and of an aggregate with an exceptional
      child. The name keeps the source's spelling. */
  predicate IsExeptional(e: Error)
    ensures !e.ManyErrors? ==> (IsExeptional(e) <==> e.ExceptionalError?)
    ensures e == Empty ==> !IsExeptional(e)
    decreases e
  {
    match e
    case ExpectedError(_, _, _) => false
    case ExceptionalError(_, _, _) => true
    case ManyErrors(es) => exists i | 0 <= i < |es| :: IsExeptional(es[i])
  }

  /** The messages of an aggregate's children, in order. */
  function ChildMessages(es: seq<Error>): (ms: seq<string>)
    ensures |ms| == |es| && forall i | 0 <= i < |es| :: ms[i] == Message(es[i])
  {
    seq(|es|, i requires 0 <= i < |es| => Message(es[i]))
  }

  /** One more child adds one more line to an aggregate's message: its
      message after a newline. */
  lemma MessageAppendChild(es: seq<Error>, x: Error)
    requires es != []
    ensures Message(ManyErrors(es + [x])) == Message(ManyErrors(es)) + NewLine + Message(x)
  {
    var parts := ChildMessages(es + [x]);
    assert Message(ManyErrors(es + [x])) == JoinWith(parts, NewLine);
    assert parts[..|es|] == ChildMessages(es);
    assert Message(ManyErrors(es)) == JoinWith(ChildMessages(es), NewLine);
  }

  /** The invariant of the aggregate: no aggregate is a direct child. */
  predicate Flat(e: Error) {
    e.ManyErrors? ==> forall i :: 0 <= i < |e.errors| ==> !e.errors[i].ManyErrors?
  }

  // ---------------------------------------------------------------------
  // Flattening constructors of ManyErrors
  // ---------------------------------------------------------------------

  /** `AppendSanitized`: add an aggregate's children, or the leaf itself. */
  function AppendSanitized(builder: seq<Error>, e: Error): (r: seq<Error>)
    ensures r == builder + ToEnumerable(e)
  {
    if e.ManyErrors? then builder + e.errors else builder + [e]
  }

  /** The children `ManyErrors(head, tail)` collects: head's, then tail's,
      each skipped when its count is zero. */
  function Join(head: Error, tail: Error): (e: Error)
    ensures e.ManyErrors?
    ensures |e.errors| == Count(head) + Count(tail)
    ensures ToEnumerable(e) == ToEnumerable(head) + ToEnumerable(tail)
    ensures Flat(head) && Flat(tail) ==> Flat(e)
  {
    var headPart := if Count(head) > 0 then AppendSanitized([], head) else [];
    ManyErrors(if Count(tail) > 0 then AppendSanitized(headPart, tail) else headPart)
  }

  /** What the loop of `ManyErrors(IEnumerable<Error>)` collects from
      `errors`: each non-empty input sanitized, in encounter order. */
  function Unpack(errors: seq<Error>): seq<Error> {
    if errors == [] then []
    else
      var last := errors[|errors| - 1];
      var prefix := Unpack(errors[..|errors| - 1]);
      if IsEmpty(last) then prefix else AppendSanitized(prefix, last)
  }

  /** Reference definition: the children of all inputs, concatenated. */
  function Leaves(errors: seq<Error>): (r: seq<Error>)
    ensures |r| == SumCount(errors)
  {
    if errors == [] then [] else ToEnumerable(errors[0]) + Leaves(errors[1..])
  }

  /** The sum of the counts of `errors`. */
  function SumCount(errors: seq<Error>): nat {
    if errors == [] then 0 else Count(errors[0]) + SumCount(errors[1..])
  }

  /** The children of flat errors are leaves. */
  lemma {:induction false} LeavesFlat(errors: seq<Error>)
    ensures (forall i :: 0 <= i < |errors| ==> Flat(errors[i])) ==>
              forall j :: 0 <= j < |Leaves(errors)| ==> !Leaves(errors)[j].ManyErrors?
  {
    if errors != [] && forall i :: 0 <= i < |errors| ==> Flat(errors[i]) {
      var rest := errors[1..];
      assert forall i :: 0 <= i < |rest| ==> Flat(rest[i]) by {
        forall i | 0 <= i < |rest| ensures Flat(rest[i]) {
          assert rest[i] == errors[i + 1];
        }
      }
      LeavesFlat(rest);
      assert Flat(errors[0]);
    }
  }

  lemma {:induction false} LeavesSnoc(errors: seq<Error>, e: Error)
    ensures Leaves(errors + [e]) == Leaves(errors) + ToEnumerable(e)
  {
    if errors == [] {
      assert ([] + [e])[1..] == [];
    } else {
      assert (errors + [e])[1..] == errors[1..] + [e];
      LeavesSnoc(errors[1..], e);
    }
  }

  /** Skipping empty inputs and splicing aggregates yields exactly the
      concatenation of the inputs' children. */
  lemma {:induction false} UnpackIsLeaves(errors: seq<Error>)
    ensures Unpack(errors) == Leaves(errors)
  {
    if errors != [] {
      var prefix := errors[..|errors| - 1];
      var last := errors[|errors| - 1];
      UnpackIsLeaves(prefix);
      LeavesSnoc(prefix, last);
      assert prefix + [last] == errors;
      assert Unpack(errors) == Unpack(prefix) + ToEnumerable(last) by {
        if IsEmpty(last) {
          assert ToEnumerable(last) == [];
          assert Unpack(prefix) + [] == Unpack(prefix);
        }
      }
    }
  }

  /** `ManyErrors(IEnumerable<Error>)`: the loop that fills a builder with
      the sanitized non-empty inputs. */
  method NewManyErrors(errors: seq<Error>) returns (e: Error)
    ensures e == ManyErrors(Unpack(errors))
    ensures ToEnumerable(e) == Leaves(errors)
    ensures Count(e) == SumCount(errors)
    ensures (forall i :: 0 <= i < |errors| ==> Flat(errors[i])) ==> Flat(e)
  {
    var unpackedErrors: seq<Error> := [];
    for i := 0 to |errors|
      invariant unpackedErrors == Unpack(errors[..i])
    {
      var err := errors[i];
      assert errors[..i + 1][..i] == errors[..i];
      if IsEmpty(err) {
        continue;
      }
      unpackedErrors := AppendSanitized(unpackedErrors, err);
    }
    assert errors[..|errors|] == errors;
    UnpackIsLeaves(errors);
    LeavesFlat(errors);
    e := ManyErrors(unpackedErrors);
  }

  // ---------------------------------------------------------------------
  // Factories and Append
  // ---------------------------------------------------------------------

  /** `Error.New(message, extensionData)`: an expected error of type "error". */
  function New(message: string, extensionData: Option<map<string, string>>): (e: Error)
    ensures e.ExpectedError? && Type(e) == "error" && Message(e) == message
    ensures ExtensionData(e) == (if extensionData.Some? then extensionData.value else map[])
    ensures Count(e) == 1 && IsExpected(e) && !IsExeptional(e) && !IsEmpty(e) && Flat(e)
  {
    ExpectedError("error", message, if extensionData.Some? then extensionData.value else map[])
  }

  /** `Error.New(type, message, extensionData)`: an expected error of the given type. */
  function NewTyped(errorType: string, message: string, extensionData: Option<map<string, string>>): (e: Error)
    ensures e.ExpectedError? && Type(e) == errorType && Message(e) == message
    ensures ExtensionData(e) == (if extensionData.Some? then extensionData.value else map[])
    ensures Count(e) == 1 && IsExpected(e) && !IsExeptional(e) && !IsEmpty(e) && Flat(e)
  {
    ExpectedError(errorType, message, if extensionData.Some? then extensionData.value else map[])
  }

  /** The children an optional error contributes: none for null. */
  function ChildrenOf(e: Option<Error>): seq<Error> {
    if e.Some? then ToEnumerable(e.value) else []
  }

  /** `Error.Many(error1, error2)`: a null or empty side yields the other side. */
  function Many(error1: Option<Error>, error2: Option<Error>): (e: Error)
    ensures error1.None? && error2.None? ==> e == Empty
    ensures error1.Some? && (error2.None? || IsEmpty(error2.value)) ==> e == error1.value
    ensures error2.Some? && !IsEmpty(error2.value) && (error1.None? || IsEmpty(error1.value)) ==> e == error2.value
    ensures ToEnumerable(e) == ChildrenOf(error1) + ChildrenOf(error2)
    ensures (error1.Some? ==> Flat(error1.value)) && (error2.Some? ==> Flat(error2.value)) ==> Flat(e)
  {
    match (error1, error2)
    case (None, None) => Empty
    case (Some(err), None) => err
    case (Some(err), Some(e2)) =>
      if IsEmpty(e2) then err
      else if IsEmpty(err) then e2
      else Join(err, e2)
    case (None, Some(err)) => err
  }

  /** `Error.Many(params Error[])`: one argument is returned as it is;
      any other number goes through the flattening constructor. */
  function ManyOf(errors: seq<Error>): (e: Error)
    ensures |errors| == 1 ==> e == errors[0]
    ensures |errors| != 1 ==> e.ManyErrors? && ToEnumerable(e) == Leaves(errors)
    ensures |errors| != 1 ==> Count(e) == SumCount(errors)
    ensures (forall i :: 0 <= i < |errors| ==> Flat(errors[i])) ==> Flat(e)
  {
    if |errors| == 1 then errors[0]
    else
      UnpackIsLeaves(errors);
      LeavesFlat(errors);
      ManyErrors(Unpack(errors))
  }

  /** `Error.Many(IEnumerable<Error>)`: always the flattening constructor. */
  function ManyOfSequence(errors: seq<Error>): (e: Error)
    ensures e.ManyErrors? && ToEnumerable(e) == Leaves(errors) && Count(e) == SumCount(errors)
    ensures (forall i :: 0 <= i < |errors| ==> Flat(errors[i])) ==> Flat(e)
  {
    UnpackIsLeaves(errors);
    LeavesFlat(errors);
    ManyErrors(Unpack(errors))
  }

  /** `e.Append(next)`: a null or empty `next` leaves `e`; an empty `e`
      yields `next`; otherwise `ManyErrors(e, next)`. */
  function Append(e: Error, next: Option<Error>): (r: Error)
    ensures next.None? || IsEmpty(next.value) ==> r == e
    ensures next.Some? && !IsEmpty(next.value) && IsEmpty(e) ==> r == next.value
    ensures ToEnumerable(r) == ToEnumerable(e) + ChildrenOf(next)
    ensures Count(r) == Count(e) + |ChildrenOf(next)|
    ensures Flat(e) && (next.Some? ==> Flat(next.value)) ==> Flat(r)
  {
    if next.None? || IsEmpty(next.value) then e
    else if IsEmpty(e) then next.value
    else Join(e, next.value)
  }

  /** `lhs + rhs`: null on the left yields the right operand. */
  function Plus(lhs: Option<Error>, rhs: Option<Error>): (r: Option<Error>)
    ensures lhs.None? ==> r == rhs
    ensures lhs.Some? ==> r.Some?
    ensures ChildrenOf(r) == ChildrenOf(lhs) + ChildrenOf(rhs)
    ensures (lhs.Some? ==> Flat(lhs.value)) && (rhs.Some? ==> Flat(rhs.value)) ==> r.Some? ==> Flat(r.value)
  {
    if lhs.None? then rhs else Some(Append(lhs.value, rhs))
  }

  /** The empty aggregate is a two-sided identity of `Append`. */
  lemma AppendIdentity(e: Error)
    ensures Append(e, Some(Empty)) == e
    ensures Append(Empty, Some(e)) == e
  {
  }

  /** `Join` is the aggregate of the concatenated children. */
  lemma JoinIsConcat(head: Error, tail: Error)
    ensures Join(head, tail) == ManyErrors(ToEnumerable(head) + ToEnumerable(tail))
  {
  }

  /** `Append` is associative, structurally and not just up to children. */
  lemma AppendAssociative(a: Error, b: Error, c: Error)
    ensures Append(Append(a, Some(b)), Some(c)) == Append(a, Some(Append(b, Some(c))))
  {
    if IsEmpty(a) || IsEmpty(b) || IsEmpty(c) {
      AppendEmptyOperand(a, b, c);
    } else {
      AppendNonEmpty(a, b, c);
    }
  }

  lemma AppendEmptyOperand(a: Error, b: Error, c: Error)
    requires IsEmpty(a) || IsEmpty(b) || IsEmpty(c)
    ensures Append(Append(a, Some(b)), Some(c)) == Append(a, Some(Append(b, Some(c))))
  {
    if IsEmpty(b) {
      assert Append(a, Some(b)) == a;
      assert Append(b, Some(c)) == if IsEmpty(c) then b else c;
    } else if IsEmpty(c) {
      assert Append(b, Some(c)) == b;
    } else {
      assert Append(a, Some(b)) == b;
      assert ToEnumerable(b) != [];
      assert !IsEmpty(Append(b, Some(c)));
    }
  }

  lemma AppendNonEmpty(a: Error, b: Error, c: Error)
    requires !IsEmpty(a) && !IsEmpty(b) && !IsEmpty(c)
    ensures Append(Append(a, Some(b)), Some(c)) == Append(a, Some(Append(b, Some(c))))
  {
    var ea, eb, ec := ToEnumerable(a), ToEnumerable(b), ToEnumerable(c);
    assert ea != [] && eb != [];
    JoinIsConcat(a, b);
    JoinIsConcat(b, c);
    var ab := ManyErrors(ea + eb);
    var bc := ManyErrors(eb + ec);
    assert Append(a, Some(b)) == ab && !IsEmpty(ab);
    assert Append(b, Some(c)) == bc && !IsEmpty(bc);
    JoinIsConcat(ab, c);
    JoinIsConcat(a, bc);
    assert ToEnumerable(ab) == ea + eb && ToEnumerable(bc) == eb + ec;
    assert Append(ab, Some(c)) == ManyErrors((ea + eb) + ec);
    assert Append(a, Some(bc)) == ManyErrors(ea + (eb + ec));
    ConcatAssociative(ea, eb, ec);
  }

  /** Nested aggregates of leaves flatten to the leaves in order. */
  lemma FlattenNested(a: Error, b: Error, c: Error)
    requires !a.ManyErrors? && !b.ManyErrors? && !c.ManyErrors?
    ensures ToEnumerable(Many(Some(Many(Some(a), Some(b))), Some(c))) == [a, b, c]
    ensures Flat(Many(Some(Many(Some(a), Some(b))), Some(c)))
  {
  }

  /** For every error, expected and exceptional are opposite flags. */
  lemma {:induction false} ExpectedIsNotExceptional(e: Error)
    ensures IsExpected(e) == !IsExeptional(e)
  {
    if e.ManyErrors? {
      forall i | 0 <= i < |e.errors| ensures IsExpected(e.errors[i]) == !IsExeptional(e.errors[i]) {
        ExpectedIsNotExceptional(e.errors[i]);
      }
    }
  }

  // ---------------------------------------------------------------------
  // Equality and ordering
  // ---------------------------------------------------------------------

  /** `AccessUnsafe(position)`: an aggregate's child, or a leaf itself. */
  function AccessUnsafe(e: Error, position: nat): (child: Error)
    requires e.ManyErrors? ==> position < |e.errors|
    ensures e.ManyErrors? ==> child == ToEnumerable(e)[position]
    ensures !e.ManyErrors? ==> child == e
    ensures Flat(e) ==> !child.ManyErrors?
  {
    if e.ManyErrors? then e.errors[position] else e
  }

  /** `IsSimilarTo`: leaves compare types; an aggregate compares counts and
      then each child against `other.AccessUnsafe(i)`. */
  predicate IsSimilarTo(e: Error, other: Option<Error>)
    ensures IsSimilarTo(e, other) ==> other.Some?
    ensures !e.ManyErrors? ==> (IsSimilarTo(e, other) <==> other.Some? && Type(e) == Type(other.value))
    ensures e.ManyErrors? && IsSimilarTo(e, other) ==> Count(other.value) == |e.errors|
    decreases e
  {
    match e
    case ManyErrors(es) =>
      other.Some? && |es| == Count(other.value)
      && forall i | 0 <= i < |es| :: IsSimilarTo(es[i], Some(AccessUnsafe(other.value, i)))
    case _ => other.Some? && Type(e) == Type(other.value)
  }

  /** `Equals`: leaves compare type and message only; an aggregate compares
      counts and then each child against `other.AccessUnsafe(i)`. */
  predicate Equals(e: Error, other: Option<Error>)
    ensures Equals(e, other) ==> other.Some?
    ensures e.ManyErrors? && Equals(e, other) ==> Count(other.value) == |e.errors|
    decreases e
  {
    match e
    case ManyErrors(es) =>
      other.Some? && |es| == Count(other.value)
      && forall i | 0 <= i < |es| :: Equals(es[i], Some(AccessUnsafe(other.value, i)))
    case _ => IsSimilarTo(e, other) && Message(e) == Message(other.value)
  }

  /** `operator ==` on possibly-null errors. */
  predicate OperatorEquals(lhs: Option<Error>, rhs: Option<Error>)
    ensures lhs.None? ==> (OperatorEquals(lhs, rhs) <==> rhs.None?)
    ensures lhs.Some? && rhs.None? ==> !OperatorEquals(lhs, rhs)
  {
    if lhs.None? then rhs.None? else Equals(lhs.value, rhs)
  }

  /** `CompareTo`: -1 against null; leaves order by type, then message; an
      aggregate orders by count, then by the first child that differs. */
  function CompareTo(e: Error, other: Option<Error>): (c: int)
    ensures -1 <= c <= 1
    ensures other.None? ==> c == -1
    decreases e, if e.ManyErrors? then |e.errors| + 1 else 0
  {
    if other.None? then -1
    else match e
      case ManyErrors(es) =>
        if Count(other.value) != |es| then CompareInt(|es|, Count(other.value))
        else CompareFrom(e, other.value, 0)
      case _ =>
        var byType := CompareOrdinal(Type(e), Type(other.value));
        if byType != 0 then byType else CompareOrdinal(Message(e), Message(other.value))
  }

  /** The result of the aggregate's comparison loop from position `i` on. */
  function CompareFrom(many: Error, other: Error, i: nat): (c: int)
    requires many.ManyErrors? && i <= |many.errors| && Count(other) == |many.errors|
    ensures -1 <= c <= 1
    decreases many, |many.errors| - i
  {
    if i == |many.errors| then 0
    else
      var c := CompareTo(many.errors[i], Some(AccessUnsafe(other, i)));
      if c != 0 then c else CompareFrom(many, other, i + 1)
  }

  /** The loop of `ManyErrors.IsSimilarTo`. */
  method ManyErrorsIsSimilarTo(errors: seq<Error>, other: Option<Error>) returns (r: bool)
    ensures r == IsSimilarTo(ManyErrors(errors), other)
  {
    if other.None? {
      return false;
    }
    if |errors| != Count(other.value) {
      return false;
    }
    var i := 0;
    while i < |errors|
      invariant 0 <= i <= |errors|
      invariant forall j | 0 <= j < i :: IsSimilarTo(errors[j], Some(AccessUnsafe(other.value, j)))
    {
      if !IsSimilarTo(errors[i], Some(AccessUnsafe(other.value, i))) {
        return false;
      }
      i := i + 1;
    }
    return true;
  }

  /** The loop of `ManyErrors.Equals`. */
  method ManyErrorsEquals(errors: seq<Error>, other: Option<Error>) returns (r: bool)
    ensures r == Equals(ManyErrors(errors), other)
  {
    if other.None? {
      return false;
    }
    if |errors| != Count(other.value) {
      return false;
    }
    var i := 0;
    while i < |errors|
      invariant 0 <= i <= |errors|
      invariant forall j | 0 <= j < i :: Equals(errors[j], Some(AccessUnsafe(other.value, j)))
    {
      if !Equals(errors[i], Some(AccessUnsafe(other.value, i))) {
        return false;
      }
      i := i + 1;
    }
    return true;
  }

  /** The loop of `ManyErrors.CompareTo`. */
  method ManyErrorsCompareTo(errors: seq<Error>, other: Option<Error>) returns (c: int)
    ensures c == CompareTo(ManyErrors(errors), other)
    ensures other.None? ==> c == -1
    ensures other.Some? && Count(other.value) != |errors| ==> c == CompareInt(|errors|, Count(other.value))
    ensures other.Some? && Count(other.value) == |errors| ==>
              (c == 0 <==> forall i | 0 <= i < |errors| :: ChildCompare(ManyErrors(errors), other.value, i) == 0)
    ensures forall k | other.Some? && DiffersFirstAt(ManyErrors(errors), other.value, k) ::
              c == ChildCompare(ManyErrors(errors), other.value, k)
  {
    if other.None? {
      return -1;
    }
    CompareToOrder(ManyErrors(errors), other.value);
    if Count(other.value) != |errors| {
      return CompareInt(|errors|, Count(other.value));
    }
    var many := ManyErrors(errors);
    var i := 0;
    while i < |errors|
      invariant 0 <= i <= |errors|
      invariant CompareFrom(many, other.value, 0) == CompareFrom(many, other.value, i)
    {
      var compareResult := CompareTo(errors[i], Some(AccessUnsafe(other.value, i)));
      if compareResult != 0 {
        return compareResult;
      }
      i := i + 1;
    }
    return 0;
  }

  /** Leaf equality is type and message equality, whatever the extension
      data and whatever the leaf kinds. */
  lemma LeafEquality(a: Error, b: Error)
    requires !a.ManyErrors? && !b.ManyErrors?
    ensures Equals(a, Some(b)) <==> a.errorType == b.errorType && a.detail == b.detail
  {
  }

  /** Every error equals itself. */
  lemma {:induction false} EqualsReflexive(e: Error)
    ensures Equals(e, Some(e))
  {
    if e.ManyErrors? {
      forall i | 0 <= i < |e.errors| ensures Equals(e.errors[i], Some(AccessUnsafe(e, i))) {
        EqualsReflexive(e.errors[i]);
      }
    }
  }

  /** Equal errors are similar. */
  lemma {:induction false} EqualsImpliesSimilar(e: Error, other: Error)
    requires Equals(e, Some(other))
    ensures IsSimilarTo(e, Some(other))
  {
    if e.ManyErrors? {
      forall i | 0 <= i < |e.errors| ensures IsSimilarTo(e.errors[i], Some(AccessUnsafe(other, i))) {
        EqualsImpliesSimilar(e.errors[i], AccessUnsafe(other, i));
      }
    }
  }

  /** Between two leaves, or two flat aggregates, equality is symmetric. */
  lemma EqualsSymmetric(a: Error, b: Error)
    requires Flat(a) && Flat(b) && a.ManyErrors? == b.ManyErrors?
    ensures Equals(a, Some(b)) == Equals(b, Some(a))
  {
    if a.ManyErrors? && Equals(a, Some(b)) {
      assert forall i | 0 <= i < |b.errors| :: Equals(b.errors[i], Some(a.errors[i])) by {
        forall i | 0 <= i < |b.errors| ensures Equals(b.errors[i], Some(a.errors[i])) {
          assert Equals(a.errors[i], Some(b.errors[i]));
        }
      }
    }
  }

  /** A one-child aggregate equals its child, because `AccessUnsafe(0)` of a
      leaf is the leaf; the leaf does not equal the aggregate, whose type is
      "many_errors". */
  lemma EqualityWithLeafIsNotSymmetric()
    ensures var leaf := New("boom", None);
            Equals(ManyErrors([leaf]), Some(leaf)) && !Equals(leaf, Some(ManyErrors([leaf])))
  {
    var leaf := New("boom", None);
    assert Type(ManyErrors([leaf])) == "many_errors";
  }

  /** Between two leaves, or two flat aggregates, comparison is zero exactly
      when the errors are equal. */
  lemma CompareToZeroIffEquals(a: Error, b: Error)
    requires Flat(a) && Flat(b) && a.ManyErrors? == b.ManyErrors?
    ensures CompareTo(a, Some(b)) == 0 <==> Equals(a, Some(b))
  {
    if a.ManyErrors? && |a.errors| == |b.errors| {
      CompareFromZeroIffEquals(a, b, 0);
    }
  }

  lemma {:induction false} CompareFromZeroIffEquals(a: Error, b: Error, i: nat)
    requires Flat(a) && Flat(b) && a.ManyErrors? && b.ManyErrors?
    requires |a.errors| == |b.errors| && i <= |a.errors|
    ensures CompareFrom(a, b, i) == 0 <==>
            forall j | i <= j < |a.errors| :: Equals(a.errors[j], Some(b.errors[j]))
    decreases |a.errors| - i
  {
    if i < |a.errors| {
      CompareFromZeroIffEquals(a, b, i + 1);
    }
  }

  /** Between two leaves, or two flat aggregates, swapping the operands
      negates the comparison. */
  lemma CompareToAntisymmetric(a: Error, b: Error)
    requires Flat(a) && Flat(b) && a.ManyErrors? == b.ManyErrors?
    ensures CompareTo(a, Some(b)) == -CompareTo(b, Some(a))
  {
    if a.ManyErrors? {
      if |a.errors| == |b.errors| {
        CompareFromAntisymmetric(a, b, 0);
      }
    } else {
      CompareOrdinalAntisymmetric(Type(a), Type(b));
      CompareOrdinalAntisymmetric(Message(a), Message(b));
    }
  }

  lemma {:induction false} CompareFromAntisymmetric(a: Error, b: Error, i: nat)
    requires Flat(a) && Flat(b) && a.ManyErrors? && b.ManyErrors?
    requires |a.errors| == |b.errors| && i <= |a.errors|
    ensures CompareFrom(a, b, i) == -CompareFrom(b, a, i)
    decreases |a.errors| - i
  {
    if i < |a.errors| {
      CompareOrdinalAntisymmetric(Type(a.errors[i]), Type(b.errors[i]));
      CompareOrdinalAntisymmetric(Message(a.errors[i]), Message(b.errors[i]));
      CompareFromAntisymmetric(a, b, i + 1);
    }
  }

  /** The comparison of an aggregate's child `i` with `other.AccessUnsafe(i)`,
      one step of the aggregate's loop. */
  function ChildCompare(many: Error, other: Error, i: nat): (c: int)
    requires many.ManyErrors? && i < |many.errors| && Count(other) == |many.errors|
    ensures -1 <= c <= 1
  {
    CompareTo(many.errors[i], Some(AccessUnsafe(other, i)))
  }

  /** Child `k` is the first child of `many` that compares non-zero with
      `other`'s child at the same position. */
  predicate DiffersFirstAt(many: Error, other: Error, k: nat) {
    many.ManyErrors? && k < |many.errors| && Count(other) == |many.errors|
    && ChildCompare(many, other, k) != 0
    && forall j | 0 <= j < k :: ChildCompare(many, other, j) == 0
  }

  /** The order `CompareTo` implements against a non-null error. Leaves
      order by type, and by message when the types are equal. Aggregates
      order by count first; at equal counts the first child that compares
      non-zero decides, and the result is zero exactly when every child
      compares zero. */
  lemma CompareToOrder(e: Error, other: Error)
    ensures !e.ManyErrors? && Type(e) != Type(other) ==>
              CompareTo(e, Some(other)) == CompareOrdinal(Type(e), Type(other))
    ensures !e.ManyErrors? && Type(e) == Type(other) ==>
              CompareTo(e, Some(other)) == CompareOrdinal(Message(e), Message(other))
    ensures e.ManyErrors? && Count(other) != |e.errors| ==>
              CompareTo(e, Some(other)) == CompareInt(|e.errors|, Count(other))
    ensures e.ManyErrors? && Count(other) == |e.errors| ==>
              (CompareTo(e, Some(other)) == 0 <==> forall i | 0 <= i < |e.errors| :: ChildCompare(e, other, i) == 0)
    ensures forall k | DiffersFirstAt(e, other, k) :: CompareTo(e, Some(other)) == ChildCompare(e, other, k)
  {
    if e.ManyErrors? && Count(other) == |e.errors| {
      CompareFromOrder(e, other, 0);
    }
  }

  lemma {:induction false} CompareFromOrder(many: Error, other: Error, i: nat)
    requires many.ManyErrors? && i <= |many.errors| && Count(other) == |many.errors|
    ensures CompareFrom(many, other, i) == 0 <==> forall j | i <= j < |many.errors| :: ChildCompare(many, other, j) == 0
    ensures forall k | i <= k < |many.errors| && DiffersFirstAt(many, other, k) ::
              CompareFrom(many, other, i) == ChildCompare(many, other, k)
    decreases |many.errors| - i
  {
    if i < |many.errors| {
      CompareFromOrder(many, other, i + 1);
      var c := ChildCompare(many, other, i);
      assert CompareFrom(many, other, i) == if c != 0 then c else CompareFrom(many, other, i + 1);
      if c == 0 {
        assert (forall j | i <= j < |many.errors| :: ChildCompare(many, other, j) == 0)
           <==> (forall j | i + 1 <= j < |many.errors| :: ChildCompare(many, other, j) == 0);
      }
      forall k | i <= k < |many.errors| && DiffersFirstAt(many, other, k)
        ensures CompareFrom(many, other, i) == ChildCompare(many, other, k)
      {
        if i < k {
          assert ChildCompare(many, other, i) == 0;
        }
      }
    }
  }

  /** Between leaves, `CompareTo` is a total preorder: a zero comparison
      makes two leaves interchangeable, and both the strict and the non-strict
      order are transitive. */
  lemma LeafCompareTransitive(a: Error, b: Error, c: Error)
    requires !a.ManyErrors? && !b.ManyErrors? && !c.ManyErrors?
    ensures CompareTo(a, Some(b)) == 0 ==> CompareTo(a, Some(c)) == CompareTo(b, Some(c))
    ensures CompareTo(b, Some(c)) == 0 ==> CompareTo(a, Some(c)) == CompareTo(a, Some(b))
    ensures CompareTo(a, Some(b)) < 0 && CompareTo(b, Some(c)) < 0 ==> CompareTo(a, Some(c)) < 0
    ensures CompareTo(a, Some(b)) <= 0 && CompareTo(b, Some(c)) <= 0 ==> CompareTo(a, Some(c)) <= 0
  {
    if CompareOrdinal(Type(a), Type(b)) < 0 && CompareOrdinal(Type(b), Type(c)) < 0 {
      CompareOrdinalTransitive(Type(a), Type(b), Type(c));
    }
    if CompareOrdinal(Message(a), Message(b)) < 0 && CompareOrdinal(Message(b), Message(c)) < 0 {
      CompareOrdinalTransitive(Message(a), Message(b), Message(c));
    }
  }

  /** Between flat aggregates the strict order is transitive too: by count,
      then lexicographically over the children. */
  lemma AggregateCompareTransitive(a: Error, b: Error, c: Error)
    requires a.ManyErrors? && b.ManyErrors? && c.ManyErrors? && Flat(a) && Flat(b) && Flat(c)
    requires CompareTo(a, Some(b)) < 0 && CompareTo(b, Some(c)) < 0
    ensures CompareTo(a, Some(c)) < 0
  {
    if |a.errors| == |b.errors| == |c.errors| {
      CompareFromTransitive(a, b, c, 0);
    }
  }

  lemma {:induction false} CompareFromTransitive(a: Error, b: Error, c: Error, i: nat)
    requires a.ManyErrors? && b.ManyErrors? && c.ManyErrors? && Flat(a) && Flat(b) && Flat(c)
    requires |a.errors| == |b.errors| == |c.errors| && i <= |a.errors|
    requires CompareFrom(a, b, i) < 0 && CompareFrom(b, c, i) < 0
    ensures CompareFrom(a, c, i) < 0
    decreases |a.errors| - i
  {
    var x, y := a.errors[i], b.errors[i];
    LeafCompareTransitive(x, y, c.errors[i]);
    if CompareTo(x, Some(y)) == 0 && CompareTo(y, Some(c.errors[i])) == 0 {
      CompareFromTransitive(a, b, c, i + 1);
    }
  }
}
