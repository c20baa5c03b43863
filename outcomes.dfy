/** The failures the engine can raise, and the result type that carries them. */
module Outcomes {
  import Tokens

  /** The `throw` sites of script.js; message texts are not modelled, only which failure it is. */
  datatype Error =
    | UnexpectedChar(ch: char, pos: nat)               // tokenize, script.js:44
    | Expected(want: Tokens.Kind, got: Tokens.Kind)    // eat, script.js:69
    | ExpectedTerm(got: Tokens.Kind)                   // parseTerm, script.js:75
    | ExpectedPredicate(got: Tokens.Kind)              // parseAtom, script.js:106
    | TrailingTokens(got: Tokens.Kind)                 // parse, script.js:147
    | NotALiteral                                      // litFromAst, script.js:248
    | UnexpectedForCnf                                 // toCNF, script.js:271
    | UnexpectedForDnf                                 // toDNF, script.js:296

  datatype Result<+T> = Ok(value: T) | Err(error: Error) {
    predicate IsFailure() { Err? }

    function PropagateFailure<U>(): Result<U>
      requires Err?
    {
      Err(error)
    }

    function Extract(): T
      requires Ok?
    {
      value
    }
  }

  datatype Option<+T> = None | Some(value: T)
}
