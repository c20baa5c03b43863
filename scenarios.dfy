/** The example formulas of the page (script.js:430-438), from their parsed syntax trees through the whole
    conversion. */
module Scenarios {
  import opened Syntax
  import opened Outcomes
  import opened Rename
  import opened Normalize
  import opened Prenex
  import opened Clauses
  import opened Skolem
  import opened Pipeline
  import Names
  import Subst

  function P0(name: string): Formula { Pred(name, []) }
  function Pos(name: string, args: seq<Term>): Literal { Literal(false, Atom(name, args)) }
  function Neg(name: string, args: seq<Term>): Literal { Literal(true, Atom(name, args)) }

  /** One step of the CNF computation, for operands whose clause lists are known. */
  lemma CnfStep(l: Formula, r: Formula, L: seq<Clause>, R: seq<Clause>)
    requires ToCnf(l) == Ok(L) && ToCnf(r) == Ok(R)
    ensures ToCnf(And(l, r)) == Ok(L + R) && ToCnf(Or(l, r)) == Ok(Product(L, R))
  {
    assert !IsLiteral(And(l, r)) && !IsLiteral(Or(l, r));
  }

  /** One step of the DNF computation. */
  lemma DnfStep(l: Formula, r: Formula, L: seq<Clause>, R: seq<Clause>)
    requires ToDnf(l) == Ok(L) && ToDnf(r) == Ok(R)
    ensures ToDnf(Or(l, r)) == Ok(L + R) && ToDnf(And(l, r)) == Ok(Product(L, R))
  {
    assert !IsLiteral(And(l, r)) && !IsLiteral(Or(l, r));
  }

  /** A literal is one unit clause in both forms. */
  lemma LitStep(l: Literal)
    ensures ToCnf(LitToFormula(l)) == Ok([[l]]) && ToDnf(LitToFormula(l)) == Ok([[l]])
  {
    LitRoundTrip(l);
  }

  /** One step of renaming: a quantifier takes the next fresh name, substituted into its body before the body is
      renamed. */
  lemma ScopeStep(v: string, s: Formula, n: nat, fv: string, b: Formula, m: nat)
    requires fv == Names.Fresh("x", n)
    requires RenameBound(Subst.SubstituteVar(s, v, Var(fv)), n + 1) == (b, m)
    ensures RenameBound(ForAll(v, s), n) == (ForAll(fv, b), m)
    ensures RenameBound(Exists(v, s), n) == (Exists(fv, b), m)
  {
  }

  /** The normalized formula, once the renamed one is known. */
  lemma NormalizedStep(ast: Formula, renamed: Formula, n: nat)
    requires RenameBound(ast, 0) == (renamed, n)
    ensures Normalized(ast) == Nnf(ElimImpIff(renamed))
  {
  }

  /** A merge with one clause on the left: `[a]` times `[b1, .., bk]` is `[a ++ b1, .., a ++ bk]`. */
  lemma ProductOne<T>(a: seq<T>, B: seq<seq<T>>)
    ensures Product([a], B) == Row(a, B)
  {
    assert [a][..0] == [];
  }

  const nA := Neg("A", [])
  const nB := Neg("B", [])
  const pC := Pos("C", [])
  const exampleOne := Imp(Or(P0("A"), P0("B")), P0("C"))
  const oneLeft := And(Not(P0("A")), Not(P0("B")))
  const exampleOneMatrix := Or(oneLeft, P0("C"))

  /** `(A \lor B) \to C` has no quantifier; its normalized form is `(!A & !B) | C`. */
  lemma ExampleOneNormalized()
    ensures RenameBound(exampleOne, 0) == (exampleOne, 0)
    ensures Normalized(exampleOne) == exampleOneMatrix
    ensures PullQuantifiers(exampleOneMatrix) == Pulled([], exampleOneMatrix)
  {
    var e := Or(Not(Or(P0("A"), P0("B"))), P0("C"));
    assert ElimImpIff(exampleOne) == e;
    assert Nnf(Not(Or(P0("A"), P0("B")))) == oneLeft;
  }

  /** Its CNF is `(!A | C) & (!B | C)`. */
  lemma ExampleOneCnf()
    ensures ToCnf(exampleOneMatrix) == Ok([[nA, pC], [nB, pC]])
  {
    LitStep(nA);
    assert LitToFormula(nA) == Not(P0("A"));
    LitStep(nB);
    assert LitToFormula(nB) == Not(P0("B"));
    LitStep(pC);
    assert LitToFormula(pC) == P0("C");
    var L := [[nA], [nB]];
    CnfStep(Not(P0("A")), Not(P0("B")), [[nA]], [[nB]]);
    assert [[nA]] + [[nB]] == L;
    CnfStep(oneLeft, P0("C"), L, [[pC]]);
    assert L[..1] == [[nA]];
    ProductOne([nA], [[pC]]);
    assert [nA] + [pC] == [nA, pC] && [nB] + [pC] == [nB, pC];
    assert Row([nA], [[pC]]) == [[nA, pC]] && Row([nB], [[pC]]) == [[nB, pC]];
    assert Product(L, [[pC]]) == Product(L[..1], [[pC]]) + Row(L[1], [[pC]]);
    assert [[nA, pC]] + [[nB, pC]] == [[nA, pC], [nB, pC]];
  }

  /** Its DNF is `(!A & !B) | C`. */
  lemma ExampleOneDnf()
    ensures ToDnf(exampleOneMatrix) == Ok([[nA, nB], [pC]])
  {
    LitStep(nA);
    assert LitToFormula(nA) == Not(P0("A"));
    LitStep(nB);
    assert LitToFormula(nB) == Not(P0("B"));
    LitStep(pC);
    assert LitToFormula(pC) == P0("C");
    DnfStep(Not(P0("A")), Not(P0("B")), [[nA]], [[nB]]);
    ProductOne([nA], [[nB]]);
    assert [nA] + [nB] == [nA, nB];
    assert Row([nA], [[nB]]) == [[nA, nB]];
    DnfStep(oneLeft, P0("C"), [[nA, nB]], [[pC]]);
    assert [[nA, nB]] + [[pC]] == [[nA, nB], [pC]];
  }

  /** Each clause of the CNF has the one positive literal `C`. */
  lemma ExampleOneHorn()
    ensures CheckHornClause([[nA, pC], [nB, pC]])
  {
  }

  /** The whole run on `(A \lor B) \to C`: empty prefix, the clausal form is the CNF (there is nothing to
      Skolemize), and it is a Horn clause set. */
  lemma ExampleOne()
    ensures var r := Transform(exampleOne);
      r.Ok? && r.value.prefix == []
      && r.value.cnf == [[nA, pC], [nB, pC]] && r.value.dnf == [[nA, nB], [pC]]
      && r.value.clausal == Ok(r.value.cnf) && r.value.horn == Some(true)
  {
    var m := exampleOneMatrix;
    ExampleOneNormalized();
    ExampleOneCnf();
    ExampleOneDnf();
    ExampleOneHorn();
    assert Nest([], m) == m;
    assert Skolemize(m, 0) == (m, 0);
  }

  const pP := Pos("P", [])
  const nP := Neg("P", [])
  const pQ := Pos("Q", [])
  const nQ := Neg("Q", [])
  const pR := Pos("R", [])
  const nR := Neg("R", [])
  const exampleTwo := Iff(And(Not(P0("P")), P0("Q")), P0("R"))
  const twoLeft := Or(Or(P0("P"), Not(P0("Q"))), P0("R"))
  const twoRight := Or(Not(P0("R")), And(Not(P0("P")), P0("Q")))
  const exampleTwoMatrix := And(twoLeft, twoRight)
  const exampleTwoCnf: seq<Clause> := [[pP, nQ, pR], [nR, nP], [nR, pQ]]

  /** `(\neg P \land Q) \leftrightarrow R` becomes `((P | !Q) | R) & (!R | (!P & Q))`: the two implications of the
      biconditional, each put into NNF. */
  lemma ExampleTwoNormalized()
    ensures RenameBound(exampleTwo, 0) == (exampleTwo, 0)
    ensures Normalized(exampleTwo) == exampleTwoMatrix
    ensures PullQuantifiers(exampleTwoMatrix) == Pulled([], exampleTwoMatrix)
  {
    var a := And(Not(P0("P")), P0("Q"));
    var e := And(Or(Not(a), P0("R")), Or(Not(P0("R")), a));
    assert ElimImpIff(exampleTwo) == e;
    assert Nnf(Not(Not(P0("P")))) == P0("P");
    assert Nnf(Not(a)) == Or(P0("P"), Not(P0("Q")));
    assert Nnf(Or(Not(a), P0("R"))) == twoLeft;
    assert Nnf(Or(Not(P0("R")), a)) == twoRight;
  }

  /** The CNF of the left conjunct: the single clause `P | !Q | R`. */
  lemma ExampleTwoLeftCnf()
    ensures ToCnf(twoLeft) == Ok([[pP, nQ, pR]])
  {
    LitStep(pP);
    assert LitToFormula(pP) == P0("P");
    LitStep(nQ);
    assert LitToFormula(nQ) == Not(P0("Q"));
    LitStep(pR);
    assert LitToFormula(pR) == P0("R");
    CnfStep(P0("P"), Not(P0("Q")), [[pP]], [[nQ]]);
    ProductOne([pP], [[nQ]]);
    assert [pP] + [nQ] == [pP, nQ];
    assert Row([pP], [[nQ]]) == [[pP, nQ]];
    CnfStep(Or(P0("P"), Not(P0("Q"))), P0("R"), [[pP, nQ]], [[pR]]);
    ProductOne([pP, nQ], [[pR]]);
    assert [pP, nQ] + [pR] == [pP, nQ, pR];
    assert Row([pP, nQ], [[pR]]) == [[pP, nQ, pR]];
  }

  /** The CNF of the right conjunct: `!R | !P` and `!R | Q`. */
  lemma ExampleTwoRightCnf()
    ensures ToCnf(twoRight) == Ok([[nR, nP], [nR, pQ]])
  {
    LitStep(nR);
    assert LitToFormula(nR) == Not(P0("R"));
    LitStep(nP);
    assert LitToFormula(nP) == Not(P0("P"));
    LitStep(pQ);
    assert LitToFormula(pQ) == P0("Q");
    CnfStep(Not(P0("P")), P0("Q"), [[nP]], [[pQ]]);
    assert [[nP]] + [[pQ]] == [[nP], [pQ]];
    CnfStep(Not(P0("R")), And(Not(P0("P")), P0("Q")), [[nR]], [[nP], [pQ]]);
    ProductOne([nR], [[nP], [pQ]]);
    assert [nR] + [nP] == [nR, nP] && [nR] + [pQ] == [nR, pQ];
    assert Row([nR], [[nP], [pQ]]) == [[nR, nP], [nR, pQ]];
  }

  /** Its CNF has three clauses, `P | !Q | R`, `!R | !P` and `!R | Q`. */
  lemma ExampleTwoCnf()
    ensures ToCnf(exampleTwoMatrix) == Ok(exampleTwoCnf)
  {
    ExampleTwoLeftCnf();
    ExampleTwoRightCnf();
    CnfStep(twoLeft, twoRight, [[pP, nQ, pR]], [[nR, nP], [nR, pQ]]);
    ExampleTwoClauses();
  }

  /** The three clauses are the left conjunct's clause followed by the right conjunct's two. */
  lemma ExampleTwoClauses()
    ensures [[pP, nQ, pR]] + [[nR, nP], [nR, pQ]] == exampleTwoCnf
  {
  }

  /** The first clause has two positive literals, so the set is not Horn. */
  lemma ExampleTwoNotHorn()
    ensures !CheckHornClause(exampleTwoCnf)
  {
    assert !(exampleTwoCnf[0][0].neg || exampleTwoCnf[0][2].neg);
  }

  /** The whole run on `(\neg P \land Q) \leftrightarrow R`: empty prefix, a three-clause clausal form, not Horn. */
  lemma ExampleTwo()
    ensures var r := Transform(exampleTwo);
      r.Ok? && r.value.prefix == [] && r.value.cnf == exampleTwoCnf
      && r.value.clausal == Ok(r.value.cnf) && r.value.horn == Some(false)
  {
    var m := exampleTwoMatrix;
    ExampleTwoNormalized();
    ExampleTwoCnf();
    ExampleTwoNotHorn();
    TransformTotal(exampleTwo);
    assert Nest([], m) == m;
    assert Skolemize(m, 0) == (m, 0);
  }

  function P1(name: string, v: string): Formula { Pred(name, [Var(v)]) }
  function Lit1(neg: bool, name: string, v: string): Literal { Literal(neg, Atom(name, [Var(v)])) }

  /** `\forall x (P(x) \land \exists y Q(y)) \to R`, with any two variable names in place of `x` and `y`: the page's
      third example is `ThreeWith("x", "y")`. */
  function ThreeWith(x: string, y: string): Formula
  {
    ForAll(x, Imp(And(P1("P", x), Exists(y, P1("Q", y))), P0("R")))
  }

  const threeRenamed := ForAll("x1", Imp(And(P1("P", "x1"), Exists("x2", P1("Q", "x2"))), P0("R")))
  const threeMatrix := Or(Or(Not(P1("P", "x1")), Not(P1("Q", "x2"))), P0("R"))
  const threePrefix := [Quant(All, "x1"), Quant(All, "x2")]
  const threeNnf := ForAll("x1", Or(Or(Not(P1("P", "x1")), ForAll("x2", Not(P1("Q", "x2")))), P0("R")))
  const threeClause := [Lit1(true, "P", "x1"), Lit1(true, "Q", "x2"), pR]

  /** The first two fresh variable names. */
  lemma FirstFreshNames()
    ensures Names.Fresh("x", 0) == "x1" && Names.Fresh("x", 1) == "x2"
  {
    assert Names.Dec(1) == "1" && Names.Dec(2) == "2";
  }

  /** The inner quantifier, renamed with the counter at 1, binds `x2`. */
  lemma ExampleThreeInnerRenamed(y: string)
    ensures RenameBound(Exists(y, P1("Q", y)), 1) == (Exists("x2", P1("Q", "x2")), 2)
  {
    FirstFreshNames();
    assert Subst.SubstituteVar(P1("Q", y), y, Var("x2")) == P1("Q", "x2") by {
      assert SubstituteVarStep(P1("Q", y), y, "x2") == P1("Q", "x2");
    }
    assert RenameBound(P1("Q", "x2"), 2) == (P1("Q", "x2"), 2);
    ScopeStep(y, P1("Q", y), 1, "x2", P1("Q", "x2"), 2);
  }

  /** Renaming the body below `\forall x1`, with the counter at 1: `y` becomes `x2`. */
  lemma ExampleThreeBodyRenamed(y: string)
    ensures RenameBound(Imp(And(P1("P", "x1"), Exists(y, P1("Q", y))), P0("R")), 1) == (threeRenamed.sub, 2)
  {
    var q := Exists(y, P1("Q", y));
    var q2 := Exists("x2", P1("Q", "x2"));
    var p := P1("P", "x1");
    ExampleThreeInnerRenamed(y);
    assert RenameBound(p, 1) == (p, 1);
    assert RenamePair(p, q, 1) == (p, q2, 2);
    assert RenameBound(And(p, q), 1) == (And(p, q2), 2);
    assert RenamePair(And(p, q), P0("R"), 1) == (And(p, q2), P0("R"), 2);
  }

  /** `x` is free neither in `\exists y Q(y)`, whichever name `y` is, nor in `R`. */
  lemma ExampleThreeInnerClosed(x: string, y: string)
    ensures !FreeIn(x, Exists(y, P1("Q", y))) && !FreeIn(x, P0("R"))
  {
    if x != y {
      assert P1("Q", y).args == [Var(y)] && !OccursIn(x, Var(y));
    }
  }

  /** Substituting `x1` for `x` in the body of the outer quantifier leaves the inner quantifier alone: either `y`
      is another name, or it is `x` itself and shadows it. */
  lemma ExampleThreeSubst(x: string, y: string)
    ensures Subst.SubstituteVar(ThreeWith(x, y).sub, x, Var("x1"))
         == Imp(And(P1("P", "x1"), Exists(y, P1("Q", y))), P0("R"))
  {
    var q := Exists(y, P1("Q", y));
    ExampleThreeInnerClosed(x, y);
    assert Subst.SubstituteVar(q, x, Var("x1")) == q;
    assert Subst.SubstituteVar(P0("R"), x, Var("x1")) == P0("R");
    assert SubstituteVarStep(P1("P", x), x, "x1") == P1("P", "x1");
    assert Subst.SubstituteVar(And(P1("P", x), q), x, Var("x1")) == And(P1("P", "x1"), q);
  }

  /** The quantifier body is everything up to the end (`parseImp`), so the outer quantifier binds `x` over the
      implication; renaming numbers `x` and then `y`. */
  lemma ExampleThreeRenamed(x: string, y: string)
    ensures RenameBound(ThreeWith(x, y), 0) == (threeRenamed, 2)
  {
    FirstFreshNames();
    ExampleThreeSubst(x, y);
    ExampleThreeBodyRenamed(y);
    ScopeStep(x, ThreeWith(x, y).sub, 0, "x1", threeRenamed.sub, 2);
  }

  /** Substituting a variable for the single argument of a one-place predicate. */
  function SubstituteVarStep(f: Formula, v: string, w: string): (r: Formula)
    requires f.Pred? && f.args == [Var(v)]
    ensures r == Subst.SubstituteVar(f, v, Var(w)) && r == Pred(f.name, [Var(w)])
  {
    assert Subst.ReplaceInTerms(f.args, v, Var(w)) == [Var(w)];
    Pred(f.name, [Var(w)])
  }

  /** Eliminating the implication of the renamed formula. */
  lemma ExampleThreeElim()
    ensures ElimImpIff(threeRenamed)
         == ForAll("x1", Or(Not(And(P1("P", "x1"), Exists("x2", P1("Q", "x2")))), P0("R")))
  {
    var a := And(P1("P", "x1"), Exists("x2", P1("Q", "x2")));
    assert NoImpIff(a) && NoImpIff(P0("R"));
    assert ElimImpIff(a) == a && ElimImpIff(P0("R")) == P0("R");
    assert ElimImpIff(threeRenamed.sub) == Or(Not(a), P0("R"));
  }

  /** The renamed formula in NNF is `\forall x1 ((!P(x1) | \forall x2 !Q(x2)) | R)`. */
  lemma ExampleThreeNnf()
    ensures Nnf(ElimImpIff(threeRenamed)) == threeNnf
  {
    ExampleThreeElim();
    var e := Exists("x2", P1("Q", "x2"));
    var a := And(P1("P", "x1"), e);
    assert Nnf(Not(P1("Q", "x2"))) == Not(P1("Q", "x2"));
    assert Nnf(Not(e)) == ForAll("x2", Not(P1("Q", "x2")));
    assert Nnf(Not(P1("P", "x1"))) == Not(P1("P", "x1"));
    assert Nnf(Not(a)) == Or(Not(P1("P", "x1")), ForAll("x2", Not(P1("Q", "x2"))));
    assert Nnf(P0("R")) == P0("R");
    assert Nnf(Or(Not(a), P0("R"))) == threeNnf.sub;
  }

  /** Its prefix is two universals and its matrix `(!P(x1) | !Q(x2)) | R`. */
  lemma ExampleThreePulled()
    ensures PullQuantifiers(threeNnf) == Pulled(threePrefix, threeMatrix)
  {
    var l := Or(Not(P1("P", "x1")), ForAll("x2", Not(P1("Q", "x2"))));
    assert PullQuantifiers(ForAll("x2", Not(P1("Q", "x2")))) == Pulled([Quant(All, "x2")], Not(P1("Q", "x2")));
    assert PullQuantifiers(l) == Pulled([Quant(All, "x2")], Or(Not(P1("P", "x1")), Not(P1("Q", "x2"))));
    assert PullQuantifiers(threeNnf.sub) == Pulled([Quant(All, "x2")], threeMatrix);
  }

  /** Its CNF is the single clause `!P(x1) | !Q(x2) | R`. */
  lemma ExampleThreeCnf()
    ensures ToCnf(threeMatrix) == Ok([threeClause])
  {
    var np := Lit1(true, "P", "x1");
    var nq := Lit1(true, "Q", "x2");
    LitStep(np);
    LitStep(nq);
    LitStep(pR);
    assert LitToFormula(np) == Not(P1("P", "x1")) && LitToFormula(nq) == Not(P1("Q", "x2"));
    assert LitToFormula(pR) == P0("R");
    CnfStep(Not(P1("P", "x1")), Not(P1("Q", "x2")), [[np]], [[nq]]);
    ProductOne([np], [[nq]]);
    assert [np] + [nq] == [np, nq];
    assert Row([np], [[nq]]) == [[np, nq]];
    CnfStep(Or(Not(P1("P", "x1")), Not(P1("Q", "x2"))), P0("R"), [[np, nq]], [[pR]]);
    ProductOne([np, nq], [[pR]]);
    assert [np, nq] + [pR] == threeClause;
    assert Row([np, nq], [[pR]]) == [threeClause];
  }

  /** With only universals in the prefix, Skolemization leaves the matrix and the counter as they are. */
  lemma ExampleThreeSkolemized()
    ensures Skolemize(Nest(threePrefix, threeMatrix), 2) == (threeMatrix, 2)
  {
    var inner := ForAll("x2", threeMatrix);
    assert Nest(threePrefix, threeMatrix) == ForAll("x1", inner) by {
      assert threePrefix[1..] == [Quant(All, "x2")];
      assert Nest([Quant(All, "x2")], threeMatrix) == inner;
    }
    assert [] + ["x1"] == ["x1"] && ["x1"] + ["x2"] == ["x1", "x2"];
    assert Process(threeMatrix, ["x1", "x2"], 2) == (threeMatrix, 2);
    assert Process(inner, ["x1"], 2) == (threeMatrix, 2);
  }

  /** The whole run on `\forall x (P(x) \land \exists y Q(y)) \to R`, whatever the two variable names: the prefix
      is `\forall x1 \forall x2`, there is no existential to Skolemize, and the one clause, with `R` its only
      positive literal, is Horn. */
  lemma ExampleThree(x: string, y: string)
    ensures var r := Transform(ThreeWith(x, y));
      r.Ok? && r.value.prefix == threePrefix && r.value.matrix == threeMatrix
      && r.value.cnf == [threeClause] && r.value.skolemized == threeMatrix
      && r.value.clausal == Ok([threeClause]) && r.value.horn == Some(true)
  {
    ExampleThreeRenamed(x, y);
    ExampleThreeNnf();
    NormalizedStep(ThreeWith(x, y), threeRenamed, 2);
    ExampleThreePulled();
    ExampleThreeCnf();
    ExampleThreeSkolemized();
    TransformTotal(ThreeWith(x, y));
    assert CheckHornClause([threeClause]);
  }

  /** `\forall x (R(x) \to \exists y (P(x) \land Q(y)))`: an existential inside a universal. The names `x` and `y`
      are any two names other than each other and than `x1`, the name renaming gives `x`. */
  function SkolemWith(x: string, y: string): Formula
  {
    ForAll(x, Imp(P1("R", x), Exists(y, And(P1("P", x), P1("Q", y)))))
  }

  const skInner := And(P1("P", "x1"), P1("Q", "x2"))
  const skRenamed := ForAll("x1", Imp(P1("R", "x1"), Exists("x2", skInner)))
  const skNnf := ForAll("x1", Or(Not(P1("R", "x1")), Exists("x2", skInner)))
  const skPrefix := [Quant(All, "x1"), Quant(Ex, "x2")]
  const skMatrix := Or(Not(P1("R", "x1")), skInner)
  /** `Sk3(x1)`: the counter stands at 2 after renaming, and `x1` is the one universal above `y`. */
  const sk3 := Func("Sk3", [Var("x1")])
  const skSkolemized := Or(Not(P1("R", "x1")), And(P1("P", "x1"), Pred("Q", [sk3])))
  const nR1 := Lit1(true, "R", "x1")
  const pP1 := Lit1(false, "P", "x1")
  const pQ2 := Lit1(false, "Q", "x2")
  const pQSk := Literal(false, Atom("Q", [sk3]))

  /** Substituting `x1` for `x` reaches `P(x)` under the existential, which binds another name. */
  lemma SkolemSubst(x: string, y: string)
    requires x != y
    ensures Subst.SubstituteVar(SkolemWith(x, y).sub, x, Var("x1"))
         == Imp(P1("R", "x1"), Exists(y, And(P1("P", "x1"), P1("Q", y))))
  {
    assert !FreeIn(x, P1("Q", y));
    assert SubstituteVarStep(P1("P", x), x, "x1") == P1("P", "x1");
    assert SubstituteVarStep(P1("R", x), x, "x1") == P1("R", "x1");
    assert Subst.SubstituteVar(And(P1("P", x), P1("Q", y)), x, Var("x1")) == And(P1("P", "x1"), P1("Q", y));
  }

  /** The existential, renamed with the counter at 1, binds `x2`. */
  lemma SkolemInnerRenamed(y: string)
    requires y != "x1"
    ensures RenameBound(Exists(y, And(P1("P", "x1"), P1("Q", y))), 1) == (Exists("x2", skInner), 2)
  {
    FirstFreshNames();
    assert !FreeIn(y, P1("P", "x1"));
    assert SubstituteVarStep(P1("Q", y), y, "x2") == P1("Q", "x2");
    assert Subst.SubstituteVar(And(P1("P", "x1"), P1("Q", y)), y, Var("x2")) == skInner;
    assert RenameBound(P1("P", "x1"), 2) == (P1("P", "x1"), 2);
    assert RenamePair(P1("P", "x1"), P1("Q", "x2"), 2) == (P1("P", "x1"), P1("Q", "x2"), 2);
    ScopeStep(y, And(P1("P", "x1"), P1("Q", y)), 1, "x2", skInner, 2);
  }

  lemma SkolemRenamed(x: string, y: string)
    requires x != y && y != "x1"
    ensures RenameBound(SkolemWith(x, y), 0) == (skRenamed, 2)
  {
    FirstFreshNames();
    SkolemSubst(x, y);
    SkolemInnerRenamed(y);
    var e := Exists(y, And(P1("P", "x1"), P1("Q", y)));
    assert RenameBound(P1("R", "x1"), 1) == (P1("R", "x1"), 1);
    assert RenamePair(P1("R", "x1"), e, 1) == (P1("R", "x1"), Exists("x2", skInner), 2);
    ScopeStep(x, SkolemWith(x, y).sub, 0, "x1", skRenamed.sub, 2);
  }

  lemma SkolemNnf()
    ensures Nnf(ElimImpIff(skRenamed)) == skNnf
  {
    var e := Exists("x2", skInner);
    assert NoImpIff(e);
    assert ElimImpIff(e) == e;
    assert ElimImpIff(skRenamed.sub) == Or(Not(P1("R", "x1")), e);
    assert Nnf(Not(P1("R", "x1"))) == Not(P1("R", "x1"));
    assert Nnf(skInner) == skInner;
    assert Nnf(skNnf.sub) == skNnf.sub;
  }

  lemma SkolemPulled()
    ensures PullQuantifiers(skNnf) == Pulled(skPrefix, skMatrix)
  {
    assert PullQuantifiers(Exists("x2", skInner)) == Pulled([Quant(Ex, "x2")], skInner);
    assert PullQuantifiers(skNnf.sub) == Pulled([Quant(Ex, "x2")], skMatrix);
  }

  /** The matrix in CNF: `!R(x1)` distributed over the conjunction. */
  lemma SkolemMatrixCnf()
    ensures ToCnf(skMatrix) == Ok([[nR1, pP1], [nR1, pQ2]])
  {
    LitStep(nR1);
    LitStep(pP1);
    LitStep(pQ2);
    assert LitToFormula(nR1) == Not(P1("R", "x1"));
    assert LitToFormula(pP1) == P1("P", "x1") && LitToFormula(pQ2) == P1("Q", "x2");
    CnfStep(P1("P", "x1"), P1("Q", "x2"), [[pP1]], [[pQ2]]);
    assert [[pP1]] + [[pQ2]] == [[pP1], [pQ2]];
    CnfStep(Not(P1("R", "x1")), skInner, [[nR1]], [[pP1], [pQ2]]);
    ProductOne([nR1], [[pP1], [pQ2]]);
    assert [nR1] + [pP1] == [nR1, pP1] && [nR1] + [pQ2] == [nR1, pQ2];
    assert Row([nR1], [[pP1], [pQ2]]) == [[nR1, pP1], [nR1, pQ2]];
  }

  /** The existential becomes `Sk3(x1)`: the counter continues after `x1` and `x2`. */
  lemma SkolemStep()
    ensures Skolemize(Nest(skPrefix, skMatrix), 2) == (skSkolemized, 3)
  {
    assert Nest(skPrefix, skMatrix) == ForAll("x1", Exists("x2", skMatrix)) by {
      assert skPrefix[1..] == [Quant(Ex, "x2")];
      assert Nest([Quant(Ex, "x2")], skMatrix) == Exists("x2", skMatrix);
    }
    assert Names.Dec(3) == "3";
    assert [] + ["x1"] == ["x1"];
    assert SkolemTerm(Names.Fresh("Sk", 2), ["x1"]) == sk3;
    assert Process(skMatrix, ["x1"], 3) == (skMatrix, 3);
    assert Subst.SubstituteVar(P1("Q", "x2"), "x2", sk3) == Pred("Q", [sk3]) by {
      assert Subst.ReplaceInTerms([Var("x2")], "x2", sk3) == [sk3];
    }
    assert Subst.SubstituteVar(P1("P", "x1"), "x2", sk3) == P1("P", "x1") by {
      assert Subst.ReplaceInTerms([Var("x1")], "x2", sk3) == [Var("x1")];
    }
    assert Subst.SubstituteVar(P1("R", "x1"), "x2", sk3) == P1("R", "x1") by {
      assert Subst.ReplaceInTerms([Var("x1")], "x2", sk3) == [Var("x1")];
    }
  }

  /** The Skolemized formula in clausal form. */
  lemma SkolemClausal()
    ensures ToCnf(skSkolemized) == Ok([[nR1, pP1], [nR1, pQSk]])
  {
    LitStep(nR1);
    LitStep(pP1);
    LitStep(pQSk);
    assert LitToFormula(nR1) == Not(P1("R", "x1"));
    assert LitToFormula(pP1) == P1("P", "x1") && LitToFormula(pQSk) == Pred("Q", [sk3]);
    CnfStep(P1("P", "x1"), Pred("Q", [sk3]), [[pP1]], [[pQSk]]);
    assert [[pP1]] + [[pQSk]] == [[pP1], [pQSk]];
    CnfStep(Not(P1("R", "x1")), And(P1("P", "x1"), Pred("Q", [sk3])), [[nR1]], [[pP1], [pQSk]]);
    ProductOne([nR1], [[pP1], [pQSk]]);
    assert [nR1] + [pP1] == [nR1, pP1] && [nR1] + [pQSk] == [nR1, pQSk];
    assert Row([nR1], [[pP1], [pQSk]]) == [[nR1, pP1], [nR1, pQSk]];
  }

  /** The whole run on `\forall x (R(x) \to \exists y (P(x) \land Q(y)))`: prefix `\forall x1 \exists x2`, and
      the Skolem function for `y` is `Sk3`, of arity one, applied to `x1`, since the counter shared with renaming
      stands at 2. The clausal form is `[!R(x1), P(x1)]`, `[!R(x1), Q(Sk3(x1))]`, which is Horn. */
  lemma SkolemNumbering(x: string, y: string)
    requires x != y && y != "x1"
    ensures var r := Transform(SkolemWith(x, y));
      r.Ok? && r.value.prefix == skPrefix && r.value.matrix == skMatrix
      && r.value.cnf == [[nR1, pP1], [nR1, pQ2]]
      && r.value.skolemized == skSkolemized
      && r.value.clausal == Ok([[nR1, pP1], [nR1, pQSk]]) && r.value.horn == Some(true)
  {
    SkolemRenamed(x, y);
    SkolemNnf();
    NormalizedStep(SkolemWith(x, y), skRenamed, 2);
    SkolemPulled();
    SkolemMatrixCnf();
    SkolemStep();
    SkolemClausal();
    TransformFields(SkolemWith(x, y));
    assert CheckHornClause([[nR1, pP1], [nR1, pQSk]]);
  }
}
