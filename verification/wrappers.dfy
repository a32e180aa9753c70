/** Small failure-compatible wrappers shared by the lexer and parser models. */
module Wrappers {

  /** A value or its absence; stands for a `shared_ptr` that may be null. */
  datatype Option<+T> = None | Some(value: T)

  /**
   * The outcome of a parsing routine: either it returns normally with a value,
   * or it dereferences `CurrentToken()` after the tokens are exhausted, which
   * is undefined behaviour in the C++ code.  `OutOfTokens` marks that point;
   * the model does not invent any recovery from it.
   */
  datatype Outcome<+T> = Ok(value: T) | OutOfTokens {
    predicate IsFailure() {
      OutOfTokens?
    }

    function PropagateFailure<U>(): Outcome<U>
      requires OutOfTokens?
    {
      OutOfTokens
    }

    function Extract(): T
      requires Ok?
    {
      value
    }
  }
}
