/** An equivalence whose side holds a quantifier (script.js:181-218, as the pipeline at script.js:449-500 orders
    them). The bound variables are renamed before `<->` is eliminated, and elimination copies each side, so the
    two copies of a quantifier keep the same fresh name. The prenex formula then nests one quantifier inside
    another over the same variable, and it no longer means what the input means. The corrected order, renaming
    after elimination, is Pipeline.NormalizedRenamingLast. */
module Findings {
  import opened Syntax
  import opened Semantics
  import opened Outcomes
  import opened Rename
  import opened Normalize
  import opened Prenex
  import opened Skolem
  import opened Pipeline
  import Names
  import Subst
  import Scenarios

  /** `(\forall x P(x)) \leftrightarrow Q`, its bound variable named `x`. */
  function IffWith(x: string): Formula
  {
    Iff(ForAll(x, Scenarios.P1("P", x)), Scenarios.P0("Q"))
  }

  const px1 := Scenarios.P1("P", "x1")
  const q := Scenarios.P0("Q")
  const iffRenamed := Iff(ForAll("x1", px1), q)
  const iffNnf := And(Or(Exists("x1", Not(px1)), q), Or(Not(q), ForAll("x1", px1)))
  const iffPrefix := [Quant(Ex, "x1"), Quant(All, "x1")]
  const iffMatrix := And(Or(Not(px1), q), Or(Not(q), px1))

  lemma IffRenamed(x: string)
    ensures RenameBound(IffWith(x), 0) == (iffRenamed, 1)
  {
    Scenarios.FirstFreshNames();
    assert Subst.SubstituteVar(Scenarios.P1("P", x), x, Var("x1")) == px1 by {
      assert Scenarios.SubstituteVarStep(Scenarios.P1("P", x), x, "x1") == px1;
    }
    assert RenameBound(px1, 1) == (px1, 1);
    Scenarios.ScopeStep(x, Scenarios.P1("P", x), 0, "x1", px1, 1);
    assert RenameBound(q, 1) == (q, 1);
  }

  lemma IffNormalized(x: string)
    ensures Normalized(IffWith(x)) == iffNnf
  {
    IffRenamed(x);
    Scenarios.NormalizedStep(IffWith(x), iffRenamed, 1);
    var all := ForAll("x1", px1);
    assert ElimImpIff(iffRenamed) == And(Or(Not(all), q), Or(Not(q), all));
    assert Nnf(Not(px1)) == Not(px1);
    assert Nnf(Not(all)) == Exists("x1", Not(px1));
    assert Nnf(Not(q)) == Not(q);
  }

  lemma IffPulled()
    ensures PullQuantifiers(iffNnf) == Pulled(iffPrefix, iffMatrix)
  {
    assert PullQuantifiers(Exists("x1", Not(px1))) == Pulled([Quant(Ex, "x1")], Not(px1));
    assert PullQuantifiers(ForAll("x1", px1)) == Pulled([Quant(All, "x1")], px1);
    assert PullQuantifiers(Or(Exists("x1", Not(px1)), q)) == Pulled([Quant(Ex, "x1")], Or(Not(px1), q));
    assert PullQuantifiers(Or(Not(q), ForAll("x1", px1))) == Pulled([Quant(All, "x1")], Or(Not(q), px1));
    assert [Quant(Ex, "x1")] + [Quant(All, "x1")] == iffPrefix;
  }

  /** As written: both quantifiers of the prefix bind `x1`, for every name the input gives the bound variable. */
  lemma IffRepeatsBinder(x: string)
    ensures Transform(IffWith(x)).Ok?
    ensures Transform(IffWith(x)).value.prefix == [Quant(Ex, "x1"), Quant(All, "x1")]
    ensures Transform(IffWith(x)).value.matrix == iffMatrix
  {
    TransformFields(IffWith(x));
    IffNormalized(x);
    IffPulled();
  }

  /** The prenex formula of IffRepeatsBinder, the universal nested in the existential's scope. */
  lemma IffPrenexShape()
    ensures Nest(iffPrefix, iffMatrix) == Exists("x1", ForAll("x1", iffMatrix))
  {
    assert iffPrefix[1..] == [Quant(All, "x1")];
    assert Nest([Quant(All, "x1")], iffMatrix) == ForAll("x1", iffMatrix);
  }

  /** A two-element structure: the domain is `bool`, `P(d)` holds when `d` does, `Q` never holds. */
  function Witness(): Structure<bool>
  {
    Structure((name: string, args: seq<bool>) => false,
              (name: string, args: seq<bool>) => name == "P" && |args| == 1 && args[0])
  }

  /** In Witness the input holds: both sides of the equivalence are false. */
  lemma IffHoldsInWitness(x: string, env: string -> bool)
    ensures Eval(Witness(), env, IffWith(x))
  {
    var m := Witness();
    var e0 := Update(env, x, false);
    assert EvalTerms(m, e0, [Var(x)]) == [false];
    assert !Eval(m, e0, Scenarios.P1("P", x));
    assert !Eval(m, env, q);
  }

  /** As written, the conversion changes the meaning: in Witness the input holds and the prenex formula built
      from the prefix and matrix of IffRepeatsBinder does not (no `x1` makes `P(x1) <-> Q` hold for every
      `x1`). */
  lemma IffPrenexChangesMeaning(x: string, env: string -> bool)
    ensures Eval(Witness(), env, IffWith(x))
    ensures !Eval(Witness(), env, Nest(iffPrefix, iffMatrix))
  {
    IffHoldsInWitness(x, env);
    var m := Witness();
    IffPrenexShape();
    forall d: bool
      ensures !Eval(m, Update(env, "x1", d), ForAll("x1", iffMatrix))
    {
      var e1 := Update(Update(env, "x1", d), "x1", true);
      assert EvalTerms(m, e1, [Var("x1")]) == [true];
      assert !Eval(m, e1, iffMatrix);
    }
  }

  const sk2 := Func("Sk2", [])
  const skMatrix := And(Or(Not(Pred("P", [sk2])), q), Or(Not(q), Pred("P", [sk2])))

  /** The Skolem constant `Sk2` replaces every `x1` of the matrix of IffRepeatsBinder. */
  lemma IffMatrixSubstituted()
    ensures Subst.SubstituteVar(iffMatrix, "x1", sk2) == skMatrix
  {
    assert Subst.SubstituteVar(px1, "x1", sk2) == Pred("P", [sk2]) by {
      assert Subst.ReplaceInTerms([Var("x1")], "x1", sk2) == [sk2];
    }
    assert Subst.SubstituteVar(q, "x1", sk2) == q by {
      assert Subst.ReplaceInTerms([], "x1", sk2) == [];
    }
  }

  /** Skolemizing the prenex formula of IffRepeatsBinder with the counter at 1. */
  lemma IffPrenexSkolemized()
    ensures Skolemize(Nest(iffPrefix, iffMatrix), 1).0 == skMatrix
  {
    IffPrenexShape();
    assert Names.Dec(2) == "2";
    assert SkolemTerm(Names.Fresh("Sk", 1), []) == sk2;
    assert Process(ForAll("x1", iffMatrix), [], 2) == (iffMatrix, 2) by {
      assert [] + ["x1"] == ["x1"];
      assert Process(iffMatrix, ["x1"], 2) == (iffMatrix, 2);
    }
    IffMatrixSubstituted();
  }

  /** Skolemization then replaces the universal's variable as well: the existential's Skolem constant `Sk2` is
      substituted for every `x1` of the matrix, leaving `P(Sk2) <-> Q` in clausal form. */
  lemma IffSkolemized(x: string)
    ensures Transform(IffWith(x)).Ok?
    ensures Transform(IffWith(x)).value.skolemized == skMatrix
  {
    IffRepeatsBinder(x);
    TransformFields(IffWith(x));
    IffRenamed(x);
    IffPrenexSkolemized();
  }

  /** Renaming the quantifier `\forall x P(x)` at counter `n`, whatever the name `x`. */
  lemma ForAllRenamed(x: string, n: nat, fv: string)
    requires fv == Names.Fresh("x", n)
    ensures RenameBound(ForAll(x, Scenarios.P1("P", x)), n) == (ForAll(fv, Scenarios.P1("P", fv)), n + 1)
  {
    assert Subst.SubstituteVar(Scenarios.P1("P", x), x, Var(fv)) == Scenarios.P1("P", fv) by {
      assert Scenarios.SubstituteVarStep(Scenarios.P1("P", x), x, fv) == Scenarios.P1("P", fv);
    }
    assert RenameBound(Scenarios.P1("P", fv), n + 1) == (Scenarios.P1("P", fv), n + 1);
    Scenarios.ScopeStep(x, Scenarios.P1("P", x), n, fv, Scenarios.P1("P", fv), n + 1);
  }

  const px2 := Scenarios.P1("P", "x2")
  const lastRenamed := And(Or(Not(ForAll("x1", px1)), q), Or(Not(q), ForAll("x2", px2)))
  const lastNnf := And(Or(Exists("x1", Not(px1)), q), Or(Not(q), ForAll("x2", px2)))

  /** Eliminated first, the two copies of `\forall x P(x)` are renamed one after the other. */
  lemma IffEliminatedRenamed(x: string)
    ensures RenameBound(ElimImpIff(IffWith(x)), 0).0 == lastRenamed
  {
    Scenarios.FirstFreshNames();
    var a := ForAll(x, Scenarios.P1("P", x));
    assert ElimImpIff(IffWith(x)) == And(Or(Not(a), q), Or(Not(q), a));
    ForAllRenamed(x, 0, "x1");
    ForAllRenamed(x, 1, "x2");
    assert RenameBound(Not(a), 0) == (Not(ForAll("x1", px1)), 1);
    assert RenameBound(q, 1) == (q, 1) && RenameBound(Not(q), 1) == (Not(q), 1);
    assert RenamePair(Not(a), q, 0) == (Not(ForAll("x1", px1)), q, 1);
    assert RenamePair(Not(q), a, 1) == (Not(q), ForAll("x2", px2), 2);
    assert RenameBound(Or(Not(a), q), 0) == (Or(Not(ForAll("x1", px1)), q), 1);
    assert RenameBound(Or(Not(q), a), 1) == (Or(Not(q), ForAll("x2", px2)), 2);
    assert RenamePair(Or(Not(a), q), Or(Not(q), a), 0).0 == Or(Not(ForAll("x1", px1)), q);
  }

  lemma LastNnf()
    ensures Nnf(lastRenamed) == lastNnf
  {
    assert Nnf(Not(px1)) == Not(px1);
    assert Nnf(Not(ForAll("x1", px1))) == Exists("x1", Not(px1));
    assert Nnf(Not(q)) == Not(q);
  }

  lemma LastPulled()
    ensures PullQuantifiers(lastNnf).prefix == [Quant(Ex, "x1"), Quant(All, "x2")]
  {
    assert PullQuantifiers(Or(Exists("x1", Not(px1)), q)).prefix == [Quant(Ex, "x1")];
    assert PullQuantifiers(Or(Not(q), ForAll("x2", px2))).prefix == [Quant(All, "x2")];
  }

  /** Corrected, on the same input: renaming after elimination gives the two copies of the quantifier the names
      `x1` and `x2`. */
  lemma IffRenamedLast(x: string)
    ensures NormalizedRenamingLast(IffWith(x)) == lastNnf
    ensures PullQuantifiers(NormalizedRenamingLast(IffWith(x))).prefix == [Quant(Ex, "x1"), Quant(All, "x2")]
  {
    IffEliminatedRenamed(x);
    LastNnf();
    LastPulled();
  }
}
