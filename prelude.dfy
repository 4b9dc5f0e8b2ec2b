/** Vocabulary shared by every module of the model: C# null, the exceptions
    the library raises, and the "returns or throws" shape of an evaluation. */
module Prelude {

  /** A C# reference or nullable value; `None` stands for `null`. */
  datatype Option<+T> = None | Some(value: T)

  /** The exceptions raised by the modelled code. None of them is a domain
      failure: they are the programmer-error signals of the library. */
  datatype Fault =
    | ResultNotInitialized(variableName: string)  // ResultNotInitializedException
    | EnsureNotInitialized(variableName: string)  // EnsureNotInitializedException
    | ArgumentNull(paramName: string)             // ArgumentNullException
    | Json(message: string)                       // JsonException
    | DuplicateKey(key: string)                   // ArgumentException of an immutable dictionary builder
    | Diverges                                    // the source loops forever at this point

  /** Evaluating a member of the library either returns a value or throws. */
  datatype Completion<+T> = Returned(value: T) | Threw(fault: Fault)

  /** Concatenation is associative; stated once, away from any context
      whose quantifiers would make the solver search. */
  lemma ConcatAssociative<T>(a: seq<T>, b: seq<T>, c: seq<T>)
    ensures a + (b + c) == a + b + c
  {
  }

  /** The empty sequence is a left unit of concatenation. */
  lemma EmptyConcat<T>(s: seq<T>)
    ensures [] + s == s
  {
  }
}
