/** Elimination of implication and equivalence (script.js:203-219) and negation normal form (script.js:222-240).
    Both are pure rewrites; both keep the meaning of a formula in every structure. */
module Normalize {
  import opened Syntax
  import opened Semantics

  /** No `Iff` node anywhere: the only connective elimImpIff duplicates. */
  predicate IffFree(f: Formula)
  {
    match f
    case Pred(_, _) => true
    case Not(s) => IffFree(s)
    case And(l, r) => IffFree(l) && IffFree(r)
    case Or(l, r) => IffFree(l) && IffFree(r)
    case Imp(l, r) => IffFree(l) && IffFree(r)
    case Iff(_, _) => false
    case ForAll(_, s) => IffFree(s)
    case Exists(_, s) => IffFree(s)
  }

  /** elimImpIff: `a -> b` becomes `!a | b`, `a <-> b` becomes `(!a | b) & (!b | a)`, everything else is rebuilt
      with its operands rewritten. No `Imp` or `Iff` is left, quantifiers are untouched; without an `Iff` (whose
      operands are copied twice) the bound names are those of the input, in the same order. */
  function ElimImpIff(f: Formula): (r: Formula)
    ensures NoImpIff(r)
    ensures IffFree(f) ==> BoundNames(r) == BoundNames(f)
    ensures NoImpIff(f) ==> r == f
    ensures QuantifierFree(r) == QuantifierFree(f)
  {
    match f
    case Pred(_, _) => f
    case Not(s) => Not(ElimImpIff(s))
    case And(l, r) => And(ElimImpIff(l), ElimImpIff(r))
    case Or(l, r) => Or(ElimImpIff(l), ElimImpIff(r))
    case Imp(l, r) => Or(Not(ElimImpIff(l)), ElimImpIff(r))
    case Iff(l, r) =>
      var a := ElimImpIff(l);
      var b := ElimImpIff(r);
      assert NoImpIff(Or(Not(a), b)) && NoImpIff(Or(Not(b), a));
      assert QuantifierFree(Or(Not(a), b)) == QuantifierFree(Or(Not(b), a)) == (QuantifierFree(a) && QuantifierFree(b));
      And(Or(Not(a), b), Or(Not(b), a))
    case ForAll(v, s) => ForAll(v, ElimImpIff(s))
    case Exists(v, s) => Exists(v, ElimImpIff(s))
  }

  /** elimImpIff copies names and never invents one: a variable is free in the result iff it is free in the input,
      and a name is bound in the result iff it is bound in the input. */
  lemma {:induction false} ElimImpIffNames(f: Formula, u: string)
    ensures FreeIn(u, ElimImpIff(f)) == FreeIn(u, f)
    ensures u in BoundNames(ElimImpIff(f)) <==> u in BoundNames(f)
  {
    match f
    case Pred(_, _) =>
    case Not(s) => ElimImpIffNames(s, u);
    case And(l, r) => ElimImpIffNames(l, u); ElimImpIffNames(r, u);
    case Or(l, r) => ElimImpIffNames(l, u); ElimImpIffNames(r, u);
    case Imp(l, r) => ElimImpIffNames(l, u); ElimImpIffNames(r, u);
    case Iff(l, r) =>
      ElimImpIffNames(l, u); ElimImpIffNames(r, u);
      var a, b := ElimImpIff(l), ElimImpIff(r);
      assert ElimImpIff(f) == And(Or(Not(a), b), Or(Not(b), a));
      assert BoundNames(Or(Not(a), b)) == BoundNames(a) + BoundNames(b);
      assert BoundNames(Or(Not(b), a)) == BoundNames(b) + BoundNames(a);
      assert FreeIn(u, Or(Not(a), b)) == (FreeIn(u, a) || FreeIn(u, b));
      assert FreeIn(u, Or(Not(b), a)) == (FreeIn(u, b) || FreeIn(u, a));
    case ForAll(_, s) => ElimImpIffNames(s, u);
    case Exists(_, s) => ElimImpIffNames(s, u);
  }

  /** elimImpIff keeps the meaning of the formula in every structure and under every assignment. */
  lemma {:induction false} ElimImpIffSound<D(!new)>(m: Structure<D>, env: string -> D, f: Formula)
    ensures Eval(m, env, ElimImpIff(f)) == Eval(m, env, f)
  {
    match f
    case Pred(_, _) =>
    case Not(s) => ElimImpIffSound(m, env, s);
    case And(l, r) => ElimImpIffSound(m, env, l); ElimImpIffSound(m, env, r);
    case Or(l, r) => ElimImpIffSound(m, env, l); ElimImpIffSound(m, env, r);
    case Imp(l, r) => ElimImpIffSound(m, env, l); ElimImpIffSound(m, env, r);
    case Iff(l, r) =>
      ElimImpIffSound(m, env, l); ElimImpIffSound(m, env, r);
      var a, b := ElimImpIff(l), ElimImpIff(r);
      assert Eval(m, env, Or(Not(a), b)) == (Eval(m, env, l) ==> Eval(m, env, r));
      assert Eval(m, env, Or(Not(b), a)) == (Eval(m, env, r) ==> Eval(m, env, l));
    case ForAll(v, s) =>
      forall d: D
        ensures Eval(m, Update(env, v, d), ElimImpIff(s)) == Eval(m, Update(env, v, d), s)
      {
        ElimImpIffSound(m, Update(env, v, d), s);
      }
    case Exists(v, s) =>
      forall d: D
        ensures Eval(m, Update(env, v, d), ElimImpIff(s)) == Eval(m, Update(env, v, d), s)
      {
        ElimImpIffSound(m, Update(env, v, d), s);
      }
  }

  /** nnf: a negation is pushed through `Not`, `And`, `Or` and the quantifiers (De Morgan and quantifier duality);
      above a `Pred`, `Imp` or `Iff` it stays where it is, and `Imp`/`Iff` nodes are returned as they are. On an
      input without `Imp`/`Iff` the result is in negation normal form. The bound names are kept, in the same order.
      The recursion on `Not(s.left)` is not on a subterm, hence the size measure. */
  function Nnf(f: Formula): (r: Formula)
    ensures NoImpIff(f) ==> IsNnf(r)
    ensures BoundNames(r) == BoundNames(f)
    ensures QuantifierFree(r) == QuantifierFree(f)
    decreases Size(f)
  {
    match f
    case Not(s) =>
      NotParts(s);
      if s.Not? then Nnf(s.sub)
      else if s.And? then Or(Nnf(Not(s.left)), Nnf(Not(s.right)))
      else if s.Or? then And(Nnf(Not(s.left)), Nnf(Not(s.right)))
      else if s.ForAll? then Exists(s.v, Nnf(Not(s.sub)))
      else if s.Exists? then ForAll(s.v, Nnf(Not(s.sub)))
      else Not(Nnf(s))
    case And(l, r) => And(Nnf(l), Nnf(r))
    case Or(l, r) => Or(Nnf(l), Nnf(r))
    case ForAll(v, s) => ForAll(v, Nnf(s))
    case Exists(v, s) => Exists(v, Nnf(s))
    case _ => f
  }

  /** Size and Imp/Iff-freedom of what nnf recurses on below a negation, two levels down. */
  lemma NotParts(s: Formula)
    ensures s.Not? ==> Size(s.sub) < Size(Not(s)) && NoImpIff(s.sub) == NoImpIff(Not(s))
    ensures s.And? || s.Or? ==> Size(Not(s.left)) < Size(Not(s)) && Size(Not(s.right)) < Size(Not(s))
    ensures s.And? || s.Or? ==> NoImpIff(Not(s)) == (NoImpIff(Not(s.left)) && NoImpIff(Not(s.right)))
    ensures s.ForAll? || s.Exists? ==> Size(Not(s.sub)) < Size(Not(s)) && NoImpIff(Not(s.sub)) == NoImpIff(Not(s))
  {
  }

  /** The formulas nnf returns, whatever its input: `Not` only directly above `Pred`, `Imp` or `Iff`, and
      `Imp`/`Iff` nodes left as they are. */
  predicate NnfStable(f: Formula)
  {
    match f
    case Pred(_, _) => true
    case Not(s) => s.Pred? || s.Imp? || s.Iff?
    case And(l, r) => NnfStable(l) && NnfStable(r)
    case Or(l, r) => NnfStable(l) && NnfStable(r)
    case Imp(_, _) => true
    case Iff(_, _) => true
    case ForAll(_, s) => NnfStable(s)
    case Exists(_, s) => NnfStable(s)
  }

  /** nnf returns a stable formula, and leaves a stable formula unchanged. */
  lemma {:induction false} NnfStableFixpoint(f: Formula)
    ensures NnfStable(Nnf(f))
    ensures NnfStable(f) ==> Nnf(f) == f
    decreases Size(f)
  {
    match f
    case Not(s) =>
      NotParts(s);
      match s {
        case Not(t) => NnfStableFixpoint(t);
        case And(l, r) => NnfStableFixpoint(Not(l)); NnfStableFixpoint(Not(r));
        case Or(l, r) => NnfStableFixpoint(Not(l)); NnfStableFixpoint(Not(r));
        case ForAll(v, t) => NnfStableFixpoint(Not(t));
        case Exists(v, t) => NnfStableFixpoint(Not(t));
        case _ =>
      }
    case And(l, r) => NnfStableFixpoint(l); NnfStableFixpoint(r);
    case Or(l, r) => NnfStableFixpoint(l); NnfStableFixpoint(r);
    case ForAll(v, s) => NnfStableFixpoint(s);
    case Exists(v, s) => NnfStableFixpoint(s);
    case _ =>
  }

  /** nnf is idempotent on every input. */
  lemma NnfIdempotent(f: Formula)
    ensures Nnf(Nnf(f)) == Nnf(f)
  {
    NnfStableFixpoint(f);
    NnfStableFixpoint(Nnf(f));
  }

  /** A formula already in negation normal form is left unchanged. */
  lemma {:induction false} NnfKeepsNnf(f: Formula)
    requires IsNnf(f)
    ensures Nnf(f) == f
  {
    match f
    case And(l, r) => NnfKeepsNnf(l); NnfKeepsNnf(r);
    case Or(l, r) => NnfKeepsNnf(l); NnfKeepsNnf(r);
    case ForAll(v, s) => NnfKeepsNnf(s);
    case Exists(v, s) => NnfKeepsNnf(s);
    case _ =>
  }

  /** nnf neither adds nor removes a free variable. */
  lemma {:induction false} NnfFree(f: Formula, u: string)
    ensures FreeIn(u, Nnf(f)) == FreeIn(u, f)
    decreases Size(f)
  {
    match f
    case Not(s) =>
      NotParts(s);
      match s {
        case Not(t) => NnfFree(t, u);
        case And(l, r) => NnfFree(Not(l), u); NnfFree(Not(r), u);
        case Or(l, r) => NnfFree(Not(l), u); NnfFree(Not(r), u);
        case ForAll(v, t) => NnfFree(Not(t), u);
        case Exists(v, t) => NnfFree(Not(t), u);
        case _ => NnfFree(s, u);
      }
    case And(l, r) => NnfFree(l, u); NnfFree(r, u);
    case Or(l, r) => NnfFree(l, u); NnfFree(r, u);
    case ForAll(v, s) => NnfFree(s, u);
    case Exists(v, s) => NnfFree(s, u);
    case _ =>
  }

  /** nnf keeps the meaning of the formula in every structure and under every assignment. */
  lemma {:induction false} NnfSound<D(!new)>(m: Structure<D>, env: string -> D, f: Formula)
    ensures Eval(m, env, Nnf(f)) == Eval(m, env, f)
    decreases Size(f)
  {
    match f
    case Not(s) =>
      NotParts(s);
      match s {
        case Not(t) => NnfSound(m, env, t);
        case And(l, r) => NnfSound(m, env, Not(l)); NnfSound(m, env, Not(r));
        case Or(l, r) => NnfSound(m, env, Not(l)); NnfSound(m, env, Not(r));
        case ForAll(v, t) =>
          forall d: D
            ensures Eval(m, Update(env, v, d), Nnf(Not(t))) == !Eval(m, Update(env, v, d), t)
          {
            NnfSound(m, Update(env, v, d), Not(t));
          }
        case Exists(v, t) =>
          forall d: D
            ensures Eval(m, Update(env, v, d), Nnf(Not(t))) == !Eval(m, Update(env, v, d), t)
          {
            NnfSound(m, Update(env, v, d), Not(t));
          }
        case _ => NnfSound(m, env, s);
      }
    case And(l, r) => NnfSound(m, env, l); NnfSound(m, env, r);
    case Or(l, r) => NnfSound(m, env, l); NnfSound(m, env, r);
    case ForAll(v, s) =>
      forall d: D
        ensures Eval(m, Update(env, v, d), Nnf(s)) == Eval(m, Update(env, v, d), s)
      {
        NnfSound(m, Update(env, v, d), s);
      }
    case Exists(v, s) =>
      forall d: D
        ensures Eval(m, Update(env, v, d), Nnf(s)) == Eval(m, Update(env, v, d), s)
      {
        NnfSound(m, Update(env, v, d), s);
      }
    case _ =>
  }
}
