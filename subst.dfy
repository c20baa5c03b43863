/** Substitution of a term for a variable (script.js:155-178). It stops at a quantifier that binds the same name
    and is otherwise not capture-avoiding; bound-variable renaming runs first to make that safe. */
module Subst {
  import opened Syntax
  import opened Semantics

  /** cloneTerm (script.js:155-158): a structural copy, which for immutable values is the term itself. */
  function CloneTerm(t: Term): (r: Term)
    ensures r == t
    decreases t
  {
    match t
    case Var(n) => Var(n)
    case Func(n, args) =>
      var copies := seq(|args|, i requires 0 <= i < |args| => CloneTerm(args[i]));
      assert copies == args;
      Func(n, copies)
  }

  /** replaceVarInTerm (script.js:159-165): every occurrence of variable `v` becomes a copy of `repl`. */
  function ReplaceVarInTerm(t: Term, v: string, repl: Term): (r: Term)
    ensures !OccursIn(v, t) ==> r == t
    ensures !OccursIn(v, repl) ==> !OccursIn(v, r)
    ensures t.Func? ==> r.Func? && r.name == t.name && |r.args| == |t.args|
    decreases t
  {
    match t
    case Var(n) => if n == v then CloneTerm(repl) else Var(n)
    case Func(n, args) => Func(n, ReplaceInTerms(args, v, repl))
  }

  /** `args.map(a => replaceVarInTerm(a, v, repl))`. */
  function ReplaceInTerms(args: seq<Term>, v: string, repl: Term): (r: seq<Term>)
    ensures |r| == |args|
    ensures forall i :: 0 <= i < |args| ==> r[i] == ReplaceVarInTerm(args[i], v, repl)
    ensures (forall i :: 0 <= i < |args| ==> !OccursIn(v, args[i])) ==> r == args
    ensures !OccursIn(v, repl) ==> forall i :: 0 <= i < |r| ==> !OccursIn(v, r[i])
    decreases args
  {
    seq(|args|, i requires 0 <= i < |args| => ReplaceVarInTerm(args[i], v, repl))
  }

  /** substituteVar (script.js:166-178): replace the free occurrences of `v` in `f` by `repl`. The connective and
      quantifier structure and every binder are kept; a formula in which `v` is not free is returned unchanged;
      when `repl` does not mention `v`, no free `v` is left. */
  function SubstituteVar(f: Formula, v: string, repl: Term): (r: Formula)
    ensures SameShape(f, r) && Size(r) == Size(f) && QuantCount(r) == QuantCount(f)
    ensures BoundNames(r) == BoundNames(f) && Binders(r) == Binders(f)
    ensures !FreeIn(v, f) ==> r == f
    ensures !OccursIn(v, repl) ==> !FreeIn(v, r)
  {
    match f
    case Pred(n, args) => Pred(n, ReplaceInTerms(args, v, repl))
    case Not(s) => Not(SubstituteVar(s, v, repl))
    case And(l, r) => And(SubstituteVar(l, v, repl), SubstituteVar(r, v, repl))
    case Or(l, r) => Or(SubstituteVar(l, v, repl), SubstituteVar(r, v, repl))
    case Imp(l, r) => Imp(SubstituteVar(l, v, repl), SubstituteVar(r, v, repl))
    case Iff(l, r) => Iff(SubstituteVar(l, v, repl), SubstituteVar(r, v, repl))
    case ForAll(w, s) => if w == v then SameShapeRefl(s); ForAll(w, s) else ForAll(w, SubstituteVar(s, v, repl))
    case Exists(w, s) => if w == v then SameShapeRefl(s); Exists(w, s) else Exists(w, SubstituteVar(s, v, repl))
  }

  /** Substitution leaves every other free variable free, and adds only the variables of `repl`. */
  lemma {:induction false} SubstituteFreeVars(f: Formula, v: string, repl: Term, u: string)
    requires u != v
    ensures FreeIn(u, SubstituteVar(f, v, repl)) ==> FreeIn(u, f) || (FreeIn(v, f) && OccursIn(u, repl))
    ensures FreeIn(u, f) ==> FreeIn(u, SubstituteVar(f, v, repl))
  {
    match f
    case Pred(n, args) =>
      forall i | 0 <= i < |args|
        ensures OccursIn(u, ReplaceVarInTerm(args[i], v, repl)) ==>
          OccursIn(u, args[i]) || (OccursIn(v, args[i]) && OccursIn(u, repl))
        ensures OccursIn(u, args[i]) ==> OccursIn(u, ReplaceVarInTerm(args[i], v, repl))
      {
        TermFreeVars(args[i], v, repl, u);
      }
    case Not(s) => SubstituteFreeVars(s, v, repl, u);
    case And(l, r) => SubstituteFreeVars(l, v, repl, u); SubstituteFreeVars(r, v, repl, u);
    case Or(l, r) => SubstituteFreeVars(l, v, repl, u); SubstituteFreeVars(r, v, repl, u);
    case Imp(l, r) => SubstituteFreeVars(l, v, repl, u); SubstituteFreeVars(r, v, repl, u);
    case Iff(l, r) => SubstituteFreeVars(l, v, repl, u); SubstituteFreeVars(r, v, repl, u);
    case ForAll(w, s) => if w != v { SubstituteFreeVars(s, v, repl, u); }
    case Exists(w, s) => if w != v { SubstituteFreeVars(s, v, repl, u); }
  }

  /** The term-level half of SubstituteFreeVars. */
  lemma {:induction false} TermFreeVars(t: Term, v: string, repl: Term, u: string)
    requires u != v
    ensures OccursIn(u, ReplaceVarInTerm(t, v, repl)) ==> OccursIn(u, t) || (OccursIn(v, t) && OccursIn(u, repl))
    ensures OccursIn(u, t) ==> OccursIn(u, ReplaceVarInTerm(t, v, repl))
    decreases t
  {
    match t
    case Var(n) =>
    case Func(n, args) =>
      forall i | 0 <= i < |args|
        ensures OccursIn(u, ReplaceVarInTerm(args[i], v, repl)) ==>
          OccursIn(u, args[i]) || (OccursIn(v, args[i]) && OccursIn(u, repl))
        ensures OccursIn(u, args[i]) ==> OccursIn(u, ReplaceVarInTerm(args[i], v, repl))
      {
        TermFreeVars(args[i], v, repl, u);
      }
  }
  /** The substitution lemma for terms: the value of `t` with `repl` in place of `v` is the value of `t` where `v`
      takes the value of `repl`. */
  lemma {:induction false} ReplaceVarMeaning<D>(m: Structure<D>, env: string -> D, t: Term, v: string, repl: Term)
    ensures EvalTerm(m, env, ReplaceVarInTerm(t, v, repl)) == EvalTerm(m, Update(env, v, EvalTerm(m, env, repl)), t)
    decreases t
  {
    var env' := Update(env, v, EvalTerm(m, env, repl));
    match t
    case Var(n) =>
    case Func(n, args) =>
      var r := ReplaceInTerms(args, v, repl);
      forall i | 0 <= i < |args|
        ensures EvalTerm(m, env, r[i]) == EvalTerm(m, env', args[i])
      {
        ReplaceVarMeaning(m, env, args[i], v, repl);
      }
      assert EvalTerms(m, env, r) == EvalTerms(m, env', args);
  }

  /** The substitution lemma for formulas: when no variable of `repl` is bound in `f`, so that none of its
      occurrences can be captured, `f` with `repl` for the free `v` holds exactly when `f` holds where `v` takes
      the value of `repl`. */
  lemma {:induction false} SubstituteVarMeaning<D(!new)>(m: Structure<D>, env: string -> D, f: Formula, v: string,
                                                         repl: Term)
    requires forall u :: OccursIn(u, repl) ==> u !in BoundNames(f)
    ensures Eval(m, env, SubstituteVar(f, v, repl)) == Eval(m, Update(env, v, EvalTerm(m, env, repl)), f)
    decreases Size(f), 1
  {
    var val := EvalTerm(m, env, repl);
    match f
    case Pred(n, args) =>
      var r := ReplaceInTerms(args, v, repl);
      forall i | 0 <= i < |args|
        ensures EvalTerm(m, env, r[i]) == EvalTerm(m, Update(env, v, val), args[i])
      {
        ReplaceVarMeaning(m, env, args[i], v, repl);
      }
      assert EvalTerms(m, env, r) == EvalTerms(m, Update(env, v, val), args);
    case Not(s) => SubstituteVarMeaning(m, env, s, v, repl);
    case And(l, r) => SubstituteVarMeaning(m, env, l, v, repl); SubstituteVarMeaning(m, env, r, v, repl);
    case Or(l, r) => SubstituteVarMeaning(m, env, l, v, repl); SubstituteVarMeaning(m, env, r, v, repl);
    case Imp(l, r) => SubstituteVarMeaning(m, env, l, v, repl); SubstituteVarMeaning(m, env, r, v, repl);
    case Iff(l, r) => SubstituteVarMeaning(m, env, l, v, repl); SubstituteVarMeaning(m, env, r, v, repl);
    case ForAll(w, s) =>
      if w == v {
        EvalAgree(m, env, Update(env, v, val), f);
      } else {
        forall d: D
          ensures Eval(m, Update(env, w, d), SubstituteVar(s, v, repl))
               == Eval(m, Update(Update(env, v, val), w, d), s)
        {
          ScopeMeaning(m, env, w, d, s, v, repl);
        }
      }
    case Exists(w, s) =>
      if w == v {
        EvalAgree(m, env, Update(env, v, val), f);
      } else {
        forall d: D
          ensures Eval(m, Update(env, w, d), SubstituteVar(s, v, repl))
               == Eval(m, Update(Update(env, v, val), w, d), s)
        {
          ScopeMeaning(m, env, w, d, s, v, repl);
        }
      }
  }

  /** The body of a quantifier over `w`, `w` neither `v` nor a variable of `repl`. */
  lemma {:induction false} ScopeMeaning<D(!new)>(m: Structure<D>, env: string -> D, w: string, d: D, s: Formula,
                                                 v: string, repl: Term)
    requires w != v && !OccursIn(w, repl)
    requires forall u :: OccursIn(u, repl) ==> u !in BoundNames(s)
    ensures Eval(m, Update(env, w, d), SubstituteVar(s, v, repl))
         == Eval(m, Update(Update(env, v, EvalTerm(m, env, repl)), w, d), s)
    decreases Size(s) + 1, 0
  {
    var e1 := Update(env, w, d);
    SubstituteVarMeaning(m, e1, s, v, repl);
    EvalTermAgree(m, e1, env, repl);
    EvalAgree(m, Update(e1, v, EvalTerm(m, env, repl)), Update(Update(env, v, EvalTerm(m, env, repl)), w, d), s);
  }
}
