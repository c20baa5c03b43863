/** Meaning of formulas, used to state that the rewrites keep what a formula says. Two readings: the first-order one
    (a structure over an arbitrary domain and an assignment of the variables), and the propositional one (a truth
    value for every atom) under which a quantifier-free matrix and its clause lists are compared. */
module Semantics {
  import opened Syntax

  /** An interpretation of the function and predicate symbols over a domain `D`. */
  datatype Structure<!D> = Structure(fn: (string, seq<D>) -> D, rel: (string, seq<D>) -> bool)

  function EvalTerm<D>(m: Structure<D>, env: string -> D, t: Term): D
    decreases t
  {
    match t
    case Var(x) => env(x)
    case Func(n, args) => m.fn(n, seq(|args|, i requires 0 <= i < |args| => EvalTerm(m, env, args[i])))
  }

  function EvalTerms<D>(m: Structure<D>, env: string -> D, args: seq<Term>): seq<D>
  {
    seq(|args|, i requires 0 <= i < |args| => EvalTerm(m, env, args[i]))
  }

  /** The assignment `env` with `v` sent to `d`. */
  function Update<D>(env: string -> D, v: string, d: D): string -> D
  {
    x => if x == v then d else env(x)
  }

  /** Truth of `f` in structure `m` under assignment `env`. */
  ghost predicate Eval<D(!new)>(m: Structure<D>, env: string -> D, f: Formula)
    decreases f
  {
    match f
    case Pred(n, args) => m.rel(n, EvalTerms(m, env, args))
    case Not(s) => !Eval(m, env, s)
    case And(l, r) => Eval(m, env, l) && Eval(m, env, r)
    case Or(l, r) => Eval(m, env, l) || Eval(m, env, r)
    case Imp(l, r) => Eval(m, env, l) ==> Eval(m, env, r)
    case Iff(l, r) => Eval(m, env, l) <==> Eval(m, env, r)
    case ForAll(v, s) => forall d: D :: Eval(m, Update(env, v, d), s)
    case Exists(v, s) => exists d: D :: Eval(m, Update(env, v, d), s)
  }

  /** The atom a `Pred` node stands for. */
  function AtomOf(f: Formula): Atom
    requires f.Pred?
  {
    Atom(f.name, f.args)
  }

  /** Truth of a quantifier-free formula when each atom has a fixed truth value. */
  predicate Holds(val: Atom -> bool, f: Formula)
    requires QuantifierFree(f)
  {
    match f
    case Pred(n, args) => val(Atom(n, args))
    case Not(s) => !Holds(val, s)
    case And(l, r) => Holds(val, l) && Holds(val, r)
    case Or(l, r) => Holds(val, l) || Holds(val, r)
    case Imp(l, r) => Holds(val, l) ==> Holds(val, r)
    case Iff(l, r) => Holds(val, l) <==> Holds(val, r)
  }

  predicate LitHolds(val: Atom -> bool, l: Literal)
  {
    if l.neg then !val(l.atom) else val(l.atom)
  }

  /** A CNF clause is a disjunction: some literal holds. */
  predicate ClauseHolds(val: Atom -> bool, c: Clause)
  {
    exists i :: 0 <= i < |c| && LitHolds(val, c[i])
  }

  /** A DNF term is a conjunction: every literal holds. */
  predicate TermHolds(val: Atom -> bool, c: Clause)
  {
    forall i :: 0 <= i < |c| ==> LitHolds(val, c[i])
  }

  /** A clause list read as CNF: every clause holds. */
  predicate CnfHolds(val: Atom -> bool, cs: seq<Clause>)
  {
    forall i :: 0 <= i < |cs| ==> ClauseHolds(val, cs[i])
  }

  /** A term list read as DNF: some term holds. */
  predicate DnfHolds(val: Atom -> bool, ts: seq<Clause>)
  {
    exists i :: 0 <= i < |ts| && TermHolds(val, ts[i])
  }
  /** A term's value depends only on the variables that occur in it. */
  lemma {:induction false} EvalTermAgree<D>(m: Structure<D>, e1: string -> D, e2: string -> D, t: Term)
    requires forall x :: OccursIn(x, t) ==> e1(x) == e2(x)
    ensures EvalTerm(m, e1, t) == EvalTerm(m, e2, t)
    decreases t
  {
    match t
    case Var(_) =>
    case Func(n, args) =>
      forall i | 0 <= i < |args|
        ensures EvalTerm(m, e1, args[i]) == EvalTerm(m, e2, args[i])
      {
        EvalTermAgree(m, e1, e2, args[i]);
      }
      assert EvalTerms(m, e1, args) == EvalTerms(m, e2, args);
  }

  /** A formula's truth depends only on the values of its free variables. */
  lemma {:induction false} EvalAgree<D(!new)>(m: Structure<D>, e1: string -> D, e2: string -> D, f: Formula)
    requires forall x :: FreeIn(x, f) ==> e1(x) == e2(x)
    ensures Eval(m, e1, f) == Eval(m, e2, f)
  {
    match f
    case Pred(n, args) =>
      forall i | 0 <= i < |args|
        ensures EvalTerm(m, e1, args[i]) == EvalTerm(m, e2, args[i])
      {
        EvalTermAgree(m, e1, e2, args[i]);
      }
      assert EvalTerms(m, e1, args) == EvalTerms(m, e2, args);
    case Not(s) => EvalAgree(m, e1, e2, s);
    case And(l, r) => EvalAgree(m, e1, e2, l); EvalAgree(m, e1, e2, r);
    case Or(l, r) => EvalAgree(m, e1, e2, l); EvalAgree(m, e1, e2, r);
    case Imp(l, r) => EvalAgree(m, e1, e2, l); EvalAgree(m, e1, e2, r);
    case Iff(l, r) => EvalAgree(m, e1, e2, l); EvalAgree(m, e1, e2, r);
    case ForAll(v, s) =>
      forall d: D
        ensures Eval(m, Update(e1, v, d), s) == Eval(m, Update(e2, v, d), s)
      {
        EvalAgree(m, Update(e1, v, d), Update(e2, v, d), s);
      }
    case Exists(v, s) =>
      forall d: D
        ensures Eval(m, Update(e1, v, d), s) == Eval(m, Update(e2, v, d), s)
      {
        EvalAgree(m, Update(e1, v, d), Update(e2, v, d), s);
      }
  }
}
