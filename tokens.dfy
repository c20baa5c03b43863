/** Token kinds and tokens produced by the lexer (script.js:6-10). */
module Tokens {
  /** One kind per entry of the source's `TT` table. */
  datatype Kind =
    | Forall | Exists | Neg | And | Or | Imp | Iff
    | LParen | RParen | Dot | Comma | Pred | Id | Eof

  /** A token; `value` carries the identifier text of `Pred` and `Id` tokens and is empty otherwise. */
  datatype Token = Token(kind: Kind, value: string)

  /** What the lexer hands to the parser: exactly one `Eof`, and it is the last token. */
  predicate Stream(toks: seq<Token>)
  {
    && |toks| > 0
    && toks[|toks| - 1].kind == Eof
    && forall i :: 0 <= i < |toks| - 1 ==> toks[i].kind != Eof
  }
}
