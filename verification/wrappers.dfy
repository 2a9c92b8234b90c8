/** Failure-compatible result types shared by every stage of the interpreter. */
module Wrappers {

  /** An optional value; `None` plays the role of JavaScript's `null`. */
  datatype Option<+T> = None | Some(value: T)

  /** The outcome of an operation that may throw: `Err` carries what was thrown. */
  datatype Result<+T, +E> = Ok(value: T) | Err(error: E) {

    predicate IsFailure() {
      Err?
    }

    function PropagateFailure<U>(): Result<U, E>
      requires Err?
    {
      Err(error)
    }

    function Extract(): T
      requires Ok?
    {
      value
    }
  }
}

/** Everything the interpreter core can throw, one constructor per distinct failure. */
module Errors {

  datatype Error =
    | MalformedAtom              // a digit-initial run holds a non-digit
    | StringLiteralUnsupported   // a `"` token: building the string literal fails
    | IndexOutOfBounds           // list `nth` overrun
    | NotAnAst                   // `flip` called on a missing parse or on a bare token
    | SymbolNotFound(name: string)
    | NoFrame                    // an environment operation on the terminal empty environment
    | NonNumericComparison       // `>` given a non-number
    | LetWithoutBindingGroup     // first argument of `let` is not a nested form
    | LetOddBindings             // binding group of odd length
    | BindTargetNotSymbol        // a left-hand side of `let` is not a symbol
    | IfArity                    // `if` given other than two or three arguments
    | BadParserOutput            // `rEval` given something that is neither literal, symbol nor form
    | NotCallable                // applying a value that is not a primitive function
    | PrintNull                  // `print` given a null argument, which has no textual form
    | StringConcatenation        // `+` given a non-number: the result would be a string, outside this model
}
