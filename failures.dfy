/** The exceptions a directive can raise while it is evaluated. */
module Failures {

  datatype Error =
    | NotAnAssignment(query: string)              // SyntaxError: the query does not match RE_ASSIGNMENT
    | ReservedName(name: string)                  // SyntaxError: assignment to `content` or the timestamp
    | NoMatchingEnd(quote: char, token: string)   // SyntaxError: opening quote without its closing twin
    | NoMatchingBeginning(quote: char, token: string) // SyntaxError: closing quote without its opening twin
    | EvalSyntaxError                             // SyntaxError raised by `eval` on an arithmetic value
    | EmptyToken                                  // IndexError: `var[0]` on a token that strips to ""
    | EvalFailure                                 // any other exception raised by `eval` (division by zero)
  {
    /** The errors that are Python `SyntaxError`s, the only ones `sub_func` catches. */
    predicate IsSyntaxError() {
      !(EmptyToken? || EvalFailure?)
    }
  }
}
