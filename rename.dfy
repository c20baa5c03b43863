/** Renaming of bound variables (alpha-conversion, script.js:181-200). The fresh-symbol counter `gensym` is an
    explicit argument and an explicit second result. */
module Rename {
  import opened Syntax
  import opened Names
  import opened Subst
  import opened Semantics

  /** renameBound: each quantifier, visited outside-in and left before right, gets the next fresh name `x<n>`,
      substituted for its old variable throughout its body before the body is renamed. The result has the shape of
      the input, the counter rises by exactly the number of quantifiers, and the bound names are the fresh names
      in visiting order. */
  function RenameBound(f: Formula, n: nat): (r: (Formula, nat))
    ensures SameShape(f, r.0)
    ensures r.1 == n + QuantCount(f)
    ensures BoundNames(r.0) == FreshRun("x", n, QuantCount(f))
    decreases Size(f), 1
  {
    match f
    case Pred(_, _) => (f, n)
    case Not(s) =>
      var (a, m) := RenameBound(s, n);
      (Not(a), m)
    case And(l, r) =>
      var (a, b, m) := RenamePair(l, r, n);
      (And(a, b), m)
    case Or(l, r) =>
      var (a, b, m) := RenamePair(l, r, n);
      (Or(a, b), m)
    case Imp(l, r) =>
      var (a, b, m) := RenamePair(l, r, n);
      (Imp(a, b), m)
    case Iff(l, r) =>
      var (a, b, m) := RenamePair(l, r, n);
      (Iff(a, b), m)
    case ForAll(v, s) =>
      var (fv, b, m) := RenameScope(v, s, n);
      (ForAll(fv, b), m)
    case Exists(v, s) =>
      var (fv, b, m) := RenameScope(v, s, n);
      (Exists(fv, b), m)
  }

  /** The two operands of a binary connective, left first, the counter passing from one to the other. */
  function RenamePair(l: Formula, r: Formula, n: nat): (res: (Formula, Formula, nat))
    ensures SameShape(l, res.0) && SameShape(r, res.1)
    ensures res.2 == n + QuantCount(l) + QuantCount(r)
    ensures BoundNames(res.0) + BoundNames(res.1) == FreshRun("x", n, QuantCount(l) + QuantCount(r))
    decreases Size(l) + Size(r), 0
  {
    var (a, m1) := RenameBound(l, n);
    var (b, m2) := RenameBound(r, m1);
    FreshRunSplit("x", n, QuantCount(l), QuantCount(r));
    (a, b, m2)
  }

  /** A quantifier over `v` with body `s`: the fresh name replaces `v` in the body, then the body is renamed. */
  function RenameScope(v: string, s: Formula, n: nat): (res: (string, Formula, nat))
    ensures SameShape(s, res.1)
    ensures res.2 == n + 1 + QuantCount(s)
    ensures [res.0] + BoundNames(res.1) == FreshRun("x", n, 1 + QuantCount(s))
    decreases Size(s), 2
  {
    var fv := Fresh("x", n);
    var s2 := SubstituteVar(s, v, Var(fv));
    var (b, m) := RenameBound(s2, n + 1);
    SameShapeTrans(s, s2, b);
    FreshRunSplit("x", n, 1, QuantCount(s));
    (fv, b, m)
  }

  /** After renaming, no two quantifiers bind the same name. */
  lemma RenamedBindersDistinct(f: Formula, n: nat)
    ensures var names := BoundNames(RenameBound(f, n).0);
      forall i, j :: 0 <= i < j < |names| ==> names[i] != names[j]
  {
    FreshRunDistinct("x", n, QuantCount(f));
  }

  /** Renaming is not capture-avoiding towards free variables: a free variable spelled like the next fresh name is
      captured, so ∀y.P(y, x1) becomes ∀x1.P(x1, x1). */
  lemma FreeVariableNamedLikeFreshIsCaptured()
    ensures RenameBound(ForAll("y", Pred("P", [Var("y"), Var("x1")])), 0).0
         == ForAll("x1", Pred("P", [Var("x1"), Var("x1")]))
  {
    assert Dec(1) == "1";
    assert Fresh("x", 0) == "x1";
    var args := [Var("y"), Var("x1")];
    var renamed := [Var("x1"), Var("x1")];
    assert ReplaceVarInTerm(args[0], "y", Var("x1")) == renamed[0];
    assert ReplaceVarInTerm(args[1], "y", Var("x1")) == renamed[1];
    assert ReplaceInTerms(args, "y", Var("x1")) == renamed;
    var body := Pred("P", renamed);
    assert SubstituteVar(Pred("P", args), "y", Var("x1")) == body;
    assert RenameBound(body, 1) == (body, 1);
    assert RenameScope("y", Pred("P", args), 0) == ("x1", body, 1);
  }

  /** No fresh name `x<k+1>` with `k >= n` occurs in `f`, free or bound: the names renaming from counter `n` draws
      are new to the formula. */
  ghost predicate AvoidsFresh(f: Formula, n: nat)
  {
    forall k: nat :: n <= k ==> !FreeIn(Fresh("x", k), f) && Fresh("x", k) !in BoundNames(f)
  }

  /** Renaming is alpha-conversion: when the fresh names are new to the formula, the renamed formula holds exactly
      when the input does, in every structure and under every assignment. */
  lemma {:induction false} RenameKeepsMeaning<D(!new)>(m: Structure<D>, env: string -> D, f: Formula, n: nat)
    requires AvoidsFresh(f, n)
    ensures Eval(m, env, RenameBound(f, n).0) == Eval(m, env, f)
    decreases Size(f), 1
  {
    match f
    case Pred(_, _) =>
    case Not(s) => RenameKeepsMeaning(m, env, s, n);
    case And(l, r) => RenamePairKeepsMeaning(m, env, l, r, n);
    case Or(l, r) => RenamePairKeepsMeaning(m, env, l, r, n);
    case Imp(l, r) => RenamePairKeepsMeaning(m, env, l, r, n);
    case Iff(l, r) => RenamePairKeepsMeaning(m, env, l, r, n);
    case ForAll(v, s) =>
      var (fv, b, _) := RenameScope(v, s, n);
      forall d: D
        ensures Eval(m, Update(env, fv, d), b) == Eval(m, Update(env, v, d), s)
      {
        RenameScopeKeepsMeaning(m, env, v, s, n, d);
      }
    case Exists(v, s) =>
      var (fv, b, _) := RenameScope(v, s, n);
      forall d: D
        ensures Eval(m, Update(env, fv, d), b) == Eval(m, Update(env, v, d), s)
      {
        RenameScopeKeepsMeaning(m, env, v, s, n, d);
      }
  }

  /** Both operands of a binary connective keep their meaning; the right one is renamed from a later counter. */
  lemma {:induction false} RenamePairKeepsMeaning<D(!new)>(m: Structure<D>, env: string -> D, l: Formula,
                                                           r: Formula, n: nat)
    requires AvoidsFresh(l, n) && AvoidsFresh(r, n)
    ensures var (a, b, _) := RenamePair(l, r, n);
      Eval(m, env, a) == Eval(m, env, l) && Eval(m, env, b) == Eval(m, env, r)
    decreases Size(l) + Size(r), 2
  {
    var (a, m1) := RenameBound(l, n);
    RenameKeepsMeaning(m, env, l, n);
    RenameKeepsMeaning(m, env, r, m1);
  }

  /** The body of a quantifier over `v`: renamed to the fresh name and evaluated where that name takes `d`, it means
      what the original body means where `v` takes `d`. */
  lemma {:induction false} RenameScopeKeepsMeaning<D(!new)>(m: Structure<D>, env: string -> D, v: string,
                                                            s: Formula, n: nat, d: D)
    requires AvoidsFresh(s, n) && forall k: nat :: n <= k ==> Fresh("x", k) != v
    ensures var (fv, b, _) := RenameScope(v, s, n);
      Eval(m, Update(env, fv, d), b) == Eval(m, Update(env, v, d), s)
    decreases Size(s), 2
  {
    var fv := Fresh("x", n);
    var s2 := SubstituteVar(s, v, Var(fv));
    var e1 := Update(env, fv, d);
    forall k: nat | n + 1 <= k
      ensures !FreeIn(Fresh("x", k), s2) && Fresh("x", k) !in BoundNames(s2)
    {
      if Fresh("x", k) == fv {
        FreshInjective("x", k, n);
      }
      SubstituteFreeVars(s, v, Var(fv), Fresh("x", k));
    }
    RenameKeepsMeaning(m, e1, s2, n + 1);
    SubstituteVarMeaning(m, e1, s, v, Var(fv));
    EvalAgree(m, Update(e1, v, d), Update(env, v, d), s);
  }

  /** Renaming introduces no free variable: a variable free in the renamed formula is free in the input. */
  lemma {:induction false} RenameFree(f: Formula, n: nat, u: string)
    ensures FreeIn(u, RenameBound(f, n).0) ==> FreeIn(u, f)
    decreases Size(f), 1
  {
    match f
    case Pred(_, _) =>
    case Not(s) => RenameFree(s, n, u);
    case And(l, r) => RenamePairFree(l, r, n, u);
    case Or(l, r) => RenamePairFree(l, r, n, u);
    case Imp(l, r) => RenamePairFree(l, r, n, u);
    case Iff(l, r) => RenamePairFree(l, r, n, u);
    case ForAll(v, s) => RenameScopeFree(v, s, n, u);
    case Exists(v, s) => RenameScopeFree(v, s, n, u);
  }

  /** RenameFree for both operands of a binary connective. */
  lemma {:induction false} RenamePairFree(l: Formula, r: Formula, n: nat, u: string)
    ensures var (a, b, _) := RenamePair(l, r, n);
      (FreeIn(u, a) ==> FreeIn(u, l)) && (FreeIn(u, b) ==> FreeIn(u, r))
    decreases Size(l) + Size(r), 2
  {
    var (a, m1) := RenameBound(l, n);
    RenameFree(l, n, u);
    RenameFree(r, m1, u);
  }

  /** RenameFree for a quantifier's body: a variable free in the renamed body, other than the fresh binder, is free
      in the original body and is not the original binder. */
  lemma {:induction false} RenameScopeFree(v: string, s: Formula, n: nat, u: string)
    ensures var (fv, b, _) := RenameScope(v, s, n);
      FreeIn(u, b) && u != fv ==> FreeIn(u, s) && u != v
    decreases Size(s), 2
  {
    var fv := Fresh("x", n);
    var s2 := SubstituteVar(s, v, Var(fv));
    RenameFree(s2, n + 1, u);
    if u != v {
      SubstituteFreeVars(s, v, Var(fv), u);
    }
  }
}
