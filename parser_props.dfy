/** Properties of the parsing functions: associativity and precedence of the binary connectives, and the width of
    a quantifier's scope. */
module ParserProps {
  import T = Tokens
  import opened Syntax
  import opened Outcomes
  import opened Parser

  const EofToken := T.Token(T.Eof, "")

  /** The tree a binary operator token builds. */
  function Combine(op: T.Kind, a: Formula, b: Formula): Formula
  {
    if op == T.And then And(a, b)
    else if op == T.Or then Or(a, b)
    else if op == T.Imp then Imp(a, b)
    else Iff(a, b)
  }

  /** Tokens `op_1 P_1 op_2 P_2 ...` of a chain of 0-ary predicates. */
  function Steps(ops: seq<T.Kind>, names: seq<string>): (s: seq<T.Token>)
    requires |ops| == |names|
    requires forall i :: 0 <= i < |ops| ==> ops[i] != T.Eof
    ensures |s| == 2 * |ops| && forall i :: 0 <= i < |s| ==> s[i].kind != T.Eof
  {
    if ops == [] then []
    else [T.Token(ops[0], ""), T.Token(T.Pred, names[0])] + Steps(ops[1..], names[1..])
  }

  /** The left-associated tree of a chain: each operator takes the tree so far as its left operand. */
  function FoldLeft(acc: Formula, ops: seq<T.Kind>, names: seq<string>): Formula
    requires |ops| == |names|
    decreases |ops|
  {
    if ops == [] then acc else FoldLeft(Combine(ops[0], acc, Pred(names[0], [])), ops[1..], names[1..])
  }

  /** The token list of `P_0 op_1 P_1 ... op_n P_n`. */
  function Chain(first: string, ops: seq<T.Kind>, names: seq<string>): (toks: seq<T.Token>)
    requires |ops| == |names|
    requires forall i :: 0 <= i < |ops| ==> ops[i] != T.Eof
    ensures T.Stream(toks)
  {
    [T.Token(T.Pred, first)] + Steps(ops, names) + [EofToken]
  }

  /** Splitting the tokens at the head of a non-empty chain. */
  lemma ChainHead(toks: seq<T.Token>, k: nat, ops: seq<T.Kind>, names: seq<string>)
    requires |ops| == |names| && |ops| > 0
    requires forall i :: 0 <= i < |ops| ==> ops[i] != T.Eof
    requires k <= |toks| && toks[k..] == Steps(ops, names) + [EofToken]
    ensures k + 2 < |toks|
    ensures toks[k] == T.Token(ops[0], "") && toks[k + 1] == T.Token(T.Pred, names[0])
    ensures toks[k + 2..] == Steps(ops[1..], names[1..]) + [EofToken]
    ensures toks[k + 2].kind == (if |ops| > 1 then ops[1] else T.Eof)
  {
    var rest := Steps(ops[1..], names[1..]) + [EofToken];
    assert toks[k..] == [T.Token(ops[0], ""), T.Token(T.Pred, names[0])] + rest;
    assert toks[k + 2..] == toks[k..][2..];
    if |ops| > 1 {
      assert rest[0] == T.Token(ops[1], "");
    }
  }

  /** A unit that is a lone predicate symbol followed by anything but `(`. */
  lemma UnitIsAtom(toks: seq<T.Token>, k: nat)
    requires At(toks, k) && toks[k].kind == T.Pred && toks[k + 1].kind != T.LParen
    ensures UnitAt(toks, k) == Ok(Parsed(Pred(toks[k].value, []), k + 1))
  {
  }

  lemma {:induction false} AndTailChain(toks: seq<T.Token>, k: nat, acc: Formula, ops: seq<T.Kind>,
                                        names: seq<string>)
    requires At(toks, k) && |ops| == |names|
    requires forall i :: 0 <= i < |ops| ==> ops[i] == T.And
    requires toks[k..] == Steps(ops, names) + [EofToken]
    ensures AndTailAt(toks, k, acc) == Ok(Parsed(FoldLeft(acc, ops, names), |toks| - 1))
    decreases |ops|
  {
    if ops == [] {
      assert toks[k] == EofToken;
    } else {
      ChainHead(toks, k, ops, names);
      UnitIsAtom(toks, k + 1);
      AndTailChain(toks, k + 2, And(acc, Pred(names[0], [])), ops[1..], names[1..]);
    }
  }

  lemma {:induction false} OrTailChain(toks: seq<T.Token>, k: nat, acc: Formula, ops: seq<T.Kind>,
                                       names: seq<string>)
    requires At(toks, k) && |ops| == |names|
    requires forall i :: 0 <= i < |ops| ==> ops[i] == T.Or
    requires toks[k..] == Steps(ops, names) + [EofToken]
    ensures OrTailAt(toks, k, acc) == Ok(Parsed(FoldLeft(acc, ops, names), |toks| - 1))
    decreases |ops|
  {
    if ops == [] {
      assert toks[k] == EofToken;
    } else {
      ChainHead(toks, k, ops, names);
      UnitIsAtom(toks, k + 1);
      assert AndAt(toks, k + 1) == Ok(Parsed(Pred(names[0], []), k + 2));
      OrTailChain(toks, k + 2, Or(acc, Pred(names[0], [])), ops[1..], names[1..]);
    }
  }

  lemma {:induction false} ImpTailChain(toks: seq<T.Token>, k: nat, acc: Formula, ops: seq<T.Kind>,
                                        names: seq<string>)
    requires At(toks, k) && |ops| == |names|
    requires forall i :: 0 <= i < |ops| ==> ops[i] == T.Imp || ops[i] == T.Iff
    requires toks[k..] == Steps(ops, names) + [EofToken]
    ensures ImpTailAt(toks, k, acc) == Ok(Parsed(FoldLeft(acc, ops, names), |toks| - 1))
    decreases |ops|
  {
    if ops == [] {
      assert toks[k] == EofToken;
    } else {
      ChainHead(toks, k, ops, names);
      UnitIsAtom(toks, k + 1);
      var p := Pred(names[0], []);
      assert AndAt(toks, k + 1) == Ok(Parsed(p, k + 2));
      assert OrAt(toks, k + 1) == Ok(Parsed(p, k + 2));
      ImpTailChain(toks, k + 2, Combine(ops[0], acc, p), ops[1..], names[1..]);
    }
  }

  /** `P_0 \land P_1 \land ... \land P_n` parses to ((P_0 ∧ P_1) ∧ ...) ∧ P_n. */
  lemma AndChainIsLeftAssociative(first: string, ops: seq<T.Kind>, names: seq<string>)
    requires |ops| == |names| && forall i :: 0 <= i < |ops| ==> ops[i] == T.And
    ensures ParseTokens(Chain(first, ops, names)) == Ok(FoldLeft(Pred(first, []), ops, names))
  {
    var toks := Chain(first, ops, names);
    assert toks[1..] == Steps(ops, names) + [EofToken];
    var n, f := |toks| - 1, FoldLeft(Pred(first, []), ops, names);
    UnitIsAtom(toks, 0);
    AndTailChain(toks, 1, Pred(first, []), ops, names);
    assert AndAt(toks, 0) == Ok(Parsed(f, n));
    assert OrTailAt(toks, n, f) == Ok(Parsed(f, n));
    assert OrAt(toks, 0) == Ok(Parsed(f, n));
    assert ImpTailAt(toks, n, f) == Ok(Parsed(f, n));
    assert ImpAt(toks, 0) == Ok(Parsed(f, n));
  }

  /** `P_0 \lor P_1 \lor ... \lor P_n` parses to ((P_0 ∨ P_1) ∨ ...) ∨ P_n. */
  lemma OrChainIsLeftAssociative(first: string, ops: seq<T.Kind>, names: seq<string>)
    requires |ops| == |names| && forall i :: 0 <= i < |ops| ==> ops[i] == T.Or
    ensures ParseTokens(Chain(first, ops, names)) == Ok(FoldLeft(Pred(first, []), ops, names))
  {
    var toks := Chain(first, ops, names);
    assert toks[1..] == Steps(ops, names) + [EofToken];
    UnitIsAtom(toks, 0);
    assert AndAt(toks, 0) == Ok(Parsed(Pred(first, []), 1));
    var n, f := |toks| - 1, FoldLeft(Pred(first, []), ops, names);
    OrTailChain(toks, 1, Pred(first, []), ops, names);
    assert OrAt(toks, 0) == Ok(Parsed(f, n));
    assert ImpTailAt(toks, n, f) == Ok(Parsed(f, n));
    assert ImpAt(toks, 0) == Ok(Parsed(f, n));
  }

  /** Any mixture of `\to` and `\leftrightarrow` parses left-associatively at one level:
      `P \to Q \leftrightarrow R` is (P → Q) ↔ R and `P \leftrightarrow Q \to R` is (P ↔ Q) → R. */
  lemma ImpIffChainIsLeftAssociative(first: string, ops: seq<T.Kind>, names: seq<string>)
    requires |ops| == |names| && forall i :: 0 <= i < |ops| ==> ops[i] == T.Imp || ops[i] == T.Iff
    ensures ParseTokens(Chain(first, ops, names)) == Ok(FoldLeft(Pred(first, []), ops, names))
  {
    var toks := Chain(first, ops, names);
    assert toks[1..] == Steps(ops, names) + [EofToken];
    UnitIsAtom(toks, 0);
    assert AndAt(toks, 0) == Ok(Parsed(Pred(first, []), 1));
    assert OrAt(toks, 0) == Ok(Parsed(Pred(first, []), 1));
    ImpTailChain(toks, 1, Pred(first, []), ops, names);
  }

  /** A quantifier's scope extends as far right as possible: no binary connective can follow a quantified unit,
      so `\forall x P \land Q` binds `x` over the conjunction. */
  lemma QuantifierScopeIsMaximal(toks: seq<T.Token>, k: nat)
    requires At(toks, k) && (toks[k].kind == T.Forall || toks[k].kind == T.Exists)
    requires UnitAt(toks, k).Ok?
    ensures toks[UnitAt(toks, k).value.next].kind !in {T.And, T.Or, T.Imp, T.Iff}
  {
  }

  /** The tokens of `\forall x. P \land Q` parse to ∀x.(P ∧ Q), not to (∀x.P) ∧ Q. */
  lemma ForallOverConjunction()
    ensures ParseTokens([T.Token(T.Forall, ""), T.Token(T.Id, "x"), T.Token(T.Dot, ""), T.Token(T.Pred, "P"),
                         T.Token(T.And, ""), T.Token(T.Pred, "Q"), EofToken])
         == Ok(ForAll("x", And(Pred("P", []), Pred("Q", []))))
  {
    var toks := [T.Token(T.Forall, ""), T.Token(T.Id, "x"), T.Token(T.Dot, ""), T.Token(T.Pred, "P"),
                 T.Token(T.And, ""), T.Token(T.Pred, "Q"), EofToken];
    assert T.Stream(toks);
    var body := And(Pred("P", []), Pred("Q", []));
    UnitIsAtom(toks, 3);
    UnitIsAtom(toks, 5);
    assert AndTailAt(toks, 6, body) == Ok(Parsed(body, 6));
    assert AndAt(toks, 3) == Ok(Parsed(body, 6));
    assert OrTailAt(toks, 6, body) == Ok(Parsed(body, 6));
    assert OrAt(toks, 3) == Ok(Parsed(body, 6));
    assert ImpTailAt(toks, 6, body) == Ok(Parsed(body, 6));
    assert ImpAt(toks, 3) == Ok(Parsed(body, 6));
    assert EatAt(toks, 1, T.Id) == Ok(2);
    var f := ForAll("x", body);
    assert UnitAt(toks, 0) == Ok(Parsed(f, 6));
    assert AndTailAt(toks, 6, f) == Ok(Parsed(f, 6));
    assert AndAt(toks, 0) == Ok(Parsed(f, 6));
    assert OrTailAt(toks, 6, f) == Ok(Parsed(f, 6));
    assert OrAt(toks, 0) == Ok(Parsed(f, 6));
    assert ImpTailAt(toks, 6, f) == Ok(Parsed(f, 6));
    assert ImpAt(toks, 0) == Ok(Parsed(f, 6));
  }

  /** Precedence across the three levels: the tokens of `P \lor Q \land R \to S` parse to (P ∨ (Q ∧ R)) → S, so
      `\land` binds tighter than `\lor`, which binds tighter than `\to`. */
  lemma MixedPrecedence(p: string, q: string, r: string, s: string)
    ensures ParseTokens([T.Token(T.Pred, p), T.Token(T.Or, ""), T.Token(T.Pred, q), T.Token(T.And, ""),
                         T.Token(T.Pred, r), T.Token(T.Imp, ""), T.Token(T.Pred, s), EofToken])
         == Ok(Imp(Or(Pred(p, []), And(Pred(q, []), Pred(r, []))), Pred(s, [])))
  {
    var toks := [T.Token(T.Pred, p), T.Token(T.Or, ""), T.Token(T.Pred, q), T.Token(T.And, ""),
                 T.Token(T.Pred, r), T.Token(T.Imp, ""), T.Token(T.Pred, s), EofToken];
    assert T.Stream(toks);
    var P, Q, R, S := Pred(p, []), Pred(q, []), Pred(r, []), Pred(s, []);
    UnitIsAtom(toks, 0);
    UnitIsAtom(toks, 2);
    UnitIsAtom(toks, 4);
    UnitIsAtom(toks, 6);
    assert AndAt(toks, 0) == Ok(Parsed(P, 1));
    assert AndTailAt(toks, 5, And(Q, R)) == Ok(Parsed(And(Q, R), 5));
    assert AndAt(toks, 2) == Ok(Parsed(And(Q, R), 5));
    var left := Or(P, And(Q, R));
    assert OrTailAt(toks, 5, left) == Ok(Parsed(left, 5));
    assert OrAt(toks, 0) == Ok(Parsed(left, 5));
    assert AndAt(toks, 6) == Ok(Parsed(S, 7));
    assert OrAt(toks, 6) == Ok(Parsed(S, 7));
    assert ImpTailAt(toks, 7, Imp(left, S)) == Ok(Parsed(Imp(left, S), 7));
    assert ImpAt(toks, 0) == Ok(Parsed(Imp(left, S), 7));
  }

  /** The tokens of `P(x` stop at `Eof` where `)` is required. */
  lemma UnclosedArgumentList()
    ensures ParseTokens([T.Token(T.Pred, "P"), T.Token(T.LParen, ""), T.Token(T.Id, "x"), EofToken])
         == Err(Expected(T.RParen, T.Eof))
  {
    var toks := [T.Token(T.Pred, "P"), T.Token(T.LParen, ""), T.Token(T.Id, "x"), EofToken];
    assert T.Stream(toks);
    assert TermAt(toks, 2) == Ok(Parsed(Var("x"), 3));
    assert ArgsTailAt(toks, 3, [Var("x")]) == Ok(Parsed([Var("x")], 3));
    assert ArgListAt(toks, 2) == Err(Expected(T.RParen, T.Eof));
    assert AtomAt(toks, 0) == Err(Expected(T.RParen, T.Eof));
    assert UnitAt(toks, 0) == Err(Expected(T.RParen, T.Eof));
    assert AndAt(toks, 0) == Err(Expected(T.RParen, T.Eof));
    assert OrAt(toks, 0) == Err(Expected(T.RParen, T.Eof));
  }

  /** A token left over after a complete formula is rejected: `P Q` is not a formula. */
  lemma LeftoverTokenRejected()
    ensures ParseTokens([T.Token(T.Pred, "P"), T.Token(T.Pred, "Q"), EofToken]) == Err(TrailingTokens(T.Pred))
  {
    var toks := [T.Token(T.Pred, "P"), T.Token(T.Pred, "Q"), EofToken];
    assert T.Stream(toks);
    var p := Pred("P", []);
    UnitIsAtom(toks, 0);
    assert AndTailAt(toks, 1, p) == Ok(Parsed(p, 1));
    assert AndAt(toks, 0) == Ok(Parsed(p, 1));
    assert OrTailAt(toks, 1, p) == Ok(Parsed(p, 1));
    assert OrAt(toks, 0) == Ok(Parsed(p, 1));
    assert ImpTailAt(toks, 1, p) == Ok(Parsed(p, 1));
    assert ImpAt(toks, 0) == Ok(Parsed(p, 1));
  }
}
