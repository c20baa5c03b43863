/** The abstract syntax of script.js (lines 50-60, 242-247) and the structural measures and shape predicates the
    transformations are stated with. */
module Syntax {
  /** `VarT` / `FuncT`; a 0-ary `Func` is a constant (a Skolem constant, say). */
  datatype Term = Var(name: string) | Func(name: string, args: seq<Term>)

  /** The eight AST node kinds. */
  datatype Formula =
    | Pred(name: string, args: seq<Term>)
    | Not(sub: Formula)
    | And(left: Formula, right: Formula)
    | Or(left: Formula, right: Formula)
    | Imp(left: Formula, right: Formula)
    | Iff(left: Formula, right: Formula)
    | ForAll(v: string, sub: Formula)
    | Exists(v: string, sub: Formula)

  /** The atom of a literal: the name and arguments of a `Pred` node. */
  datatype Atom = Atom(name: string, args: seq<Term>)

  /** `{ neg, atom }` of litFromAst; a clause (CNF) or a term (DNF) is a sequence of literals. */
  datatype Literal = Literal(neg: bool, atom: Atom)
  type Clause = seq<Literal>

  /** One entry of a quantifier prefix, `{ t: 'FORALL' | 'EXISTS', v }`. */
  datatype QKind = All | Ex
  datatype Quant = Quant(kind: QKind, v: string)

  /** Number of formula nodes (terms not counted); the termination measure of the rewrites. */
  function Size(f: Formula): nat
  {
    match f
    case Pred(_, _) => 1
    case Not(s) => 1 + Size(s)
    case And(l, r) => 1 + Size(l) + Size(r)
    case Or(l, r) => 1 + Size(l) + Size(r)
    case Imp(l, r) => 1 + Size(l) + Size(r)
    case Iff(l, r) => 1 + Size(l) + Size(r)
    case ForAll(_, s) => 1 + Size(s)
    case Exists(_, s) => 1 + Size(s)
  }

  /** Number of quantifier nodes. */
  function QuantCount(f: Formula): nat
  {
    match f
    case Pred(_, _) => 0
    case Not(s) => QuantCount(s)
    case And(l, r) => QuantCount(l) + QuantCount(r)
    case Or(l, r) => QuantCount(l) + QuantCount(r)
    case Imp(l, r) => QuantCount(l) + QuantCount(r)
    case Iff(l, r) => QuantCount(l) + QuantCount(r)
    case ForAll(_, s) => 1 + QuantCount(s)
    case Exists(_, s) => 1 + QuantCount(s)
  }

  /** The quantifiers of `f`, outside-in and left operand before right operand (pre-order). */
  function Binders(f: Formula): seq<Quant>
  {
    match f
    case Pred(_, _) => []
    case Not(s) => Binders(s)
    case And(l, r) => Binders(l) + Binders(r)
    case Or(l, r) => Binders(l) + Binders(r)
    case Imp(l, r) => Binders(l) + Binders(r)
    case Iff(l, r) => Binders(l) + Binders(r)
    case ForAll(v, s) => [Quant(All, v)] + Binders(s)
    case Exists(v, s) => [Quant(Ex, v)] + Binders(s)
  }

  /** The bound variable names of `f` in the same pre-order. */
  function BoundNames(f: Formula): seq<string>
  {
    match f
    case Pred(_, _) => []
    case Not(s) => BoundNames(s)
    case And(l, r) => BoundNames(l) + BoundNames(r)
    case Or(l, r) => BoundNames(l) + BoundNames(r)
    case Imp(l, r) => BoundNames(l) + BoundNames(r)
    case Iff(l, r) => BoundNames(l) + BoundNames(r)
    case ForAll(v, s) => [v] + BoundNames(s)
    case Exists(v, s) => [v] + BoundNames(s)
  }

  /** Same tree of connectives and quantifier kinds, same predicate names and arities; bound variable names and
      the terms inside predicates may differ. */
  predicate SameShape(a: Formula, b: Formula)
  {
    match a
    case Pred(n, xs) => b.Pred? && b.name == n && |b.args| == |xs|
    case Not(s) => b.Not? && SameShape(s, b.sub)
    case And(l, r) => b.And? && SameShape(l, b.left) && SameShape(r, b.right)
    case Or(l, r) => b.Or? && SameShape(l, b.left) && SameShape(r, b.right)
    case Imp(l, r) => b.Imp? && SameShape(l, b.left) && SameShape(r, b.right)
    case Iff(l, r) => b.Iff? && SameShape(l, b.left) && SameShape(r, b.right)
    case ForAll(_, s) => b.ForAll? && SameShape(s, b.sub)
    case Exists(_, s) => b.Exists? && SameShape(s, b.sub)
  }

  /** Formulas of the same shape have the same size and the same number of quantifiers. */
  lemma {:induction false} SameShapeMeasures(a: Formula, b: Formula)
    requires SameShape(a, b)
    ensures Size(a) == Size(b) && QuantCount(a) == QuantCount(b)
  {
    match a
    case Pred(_, _) =>
    case Not(s) => SameShapeMeasures(s, b.sub);
    case And(l, r) => SameShapeMeasures(l, b.left); SameShapeMeasures(r, b.right);
    case Or(l, r) => SameShapeMeasures(l, b.left); SameShapeMeasures(r, b.right);
    case Imp(l, r) => SameShapeMeasures(l, b.left); SameShapeMeasures(r, b.right);
    case Iff(l, r) => SameShapeMeasures(l, b.left); SameShapeMeasures(r, b.right);
    case ForAll(_, s) => SameShapeMeasures(s, b.sub);
    case Exists(_, s) => SameShapeMeasures(s, b.sub);
  }

  lemma {:induction false} SameShapeRefl(a: Formula)
    ensures SameShape(a, a)
  {
    match a
    case Pred(_, _) =>
    case Not(s) => SameShapeRefl(s);
    case And(l, r) => SameShapeRefl(l); SameShapeRefl(r);
    case Or(l, r) => SameShapeRefl(l); SameShapeRefl(r);
    case Imp(l, r) => SameShapeRefl(l); SameShapeRefl(r);
    case Iff(l, r) => SameShapeRefl(l); SameShapeRefl(r);
    case ForAll(_, s) => SameShapeRefl(s);
    case Exists(_, s) => SameShapeRefl(s);
  }

  /** SameShape is an equivalence; symmetry and transitivity are used to chain stages. */
  lemma {:induction false} SameShapeTrans(a: Formula, b: Formula, c: Formula)
    requires SameShape(a, b) && SameShape(b, c)
    ensures SameShape(a, c)
  {
    match a
    case Pred(_, _) =>
    case Not(s) => SameShapeTrans(s, b.sub, c.sub);
    case And(l, r) => SameShapeTrans(l, b.left, c.left); SameShapeTrans(r, b.right, c.right);
    case Or(l, r) => SameShapeTrans(l, b.left, c.left); SameShapeTrans(r, b.right, c.right);
    case Imp(l, r) => SameShapeTrans(l, b.left, c.left); SameShapeTrans(r, b.right, c.right);
    case Iff(l, r) => SameShapeTrans(l, b.left, c.left); SameShapeTrans(r, b.right, c.right);
    case ForAll(_, s) => SameShapeTrans(s, b.sub, c.sub);
    case Exists(_, s) => SameShapeTrans(s, b.sub, c.sub);
  }

  /** `v` occurs in term `t`. */
  predicate OccursIn(v: string, t: Term)
  {
    match t
    case Var(n) => n == v
    case Func(_, args) => exists i :: 0 <= i < |args| && OccursIn(v, args[i])
  }

  /** `v` occurs free in `f`: in an argument of a predicate, not under a quantifier binding `v`. */
  predicate FreeIn(v: string, f: Formula)
  {
    match f
    case Pred(_, args) => exists i :: 0 <= i < |args| && OccursIn(v, args[i])
    case Not(s) => FreeIn(v, s)
    case And(l, r) => FreeIn(v, l) || FreeIn(v, r)
    case Or(l, r) => FreeIn(v, l) || FreeIn(v, r)
    case Imp(l, r) => FreeIn(v, l) || FreeIn(v, r)
    case Iff(l, r) => FreeIn(v, l) || FreeIn(v, r)
    case ForAll(w, s) => w != v && FreeIn(v, s)
    case Exists(w, s) => w != v && FreeIn(v, s)
  }

  /** No `Imp` and no `Iff` node anywhere. */
  predicate NoImpIff(f: Formula)
  {
    match f
    case Pred(_, _) => true
    case Not(s) => NoImpIff(s)
    case And(l, r) => NoImpIff(l) && NoImpIff(r)
    case Or(l, r) => NoImpIff(l) && NoImpIff(r)
    case Imp(_, _) => false
    case Iff(_, _) => false
    case ForAll(_, s) => NoImpIff(s)
    case Exists(_, s) => NoImpIff(s)
  }

  /** Negation normal form: only And, Or and quantifiers above literals; `Not` stands only directly above `Pred`. */
  predicate IsNnf(f: Formula)
  {
    match f
    case Pred(_, _) => true
    case Not(s) => s.Pred?
    case And(l, r) => IsNnf(l) && IsNnf(r)
    case Or(l, r) => IsNnf(l) && IsNnf(r)
    case Imp(_, _) => false
    case Iff(_, _) => false
    case ForAll(_, s) => IsNnf(s)
    case Exists(_, s) => IsNnf(s)
  }

  /** No quantifier node anywhere. */
  predicate QuantifierFree(f: Formula)
  {
    match f
    case Pred(_, _) => true
    case Not(s) => QuantifierFree(s)
    case And(l, r) => QuantifierFree(l) && QuantifierFree(r)
    case Or(l, r) => QuantifierFree(l) && QuantifierFree(r)
    case Imp(l, r) => QuantifierFree(l) && QuantifierFree(r)
    case Iff(l, r) => QuantifierFree(l) && QuantifierFree(r)
    case ForAll(_, _) => false
    case Exists(_, _) => false
  }

  /** isLiteral (script.js:243-244): a predicate or a negated predicate. */
  predicate IsLiteral(f: Formula)
  {
    f.Pred? || (f.Not? && f.sub.Pred?)
  }

  /** Every literal is a quantifier-free formula in negation normal form. */
  lemma LiteralIsQfNnf(f: Formula)
    requires IsLiteral(f)
    ensures IsNnf(f) && QuantifierFree(f)
  {
  }

  /** A tree of `And`/`Or` nodes over literals: exactly the inputs clause flattening accepts. */
  predicate AndOrOfLiterals(f: Formula)
  {
    IsLiteral(f) || (f.And? && AndOrOfLiterals(f.left) && AndOrOfLiterals(f.right))
    || (f.Or? && AndOrOfLiterals(f.left) && AndOrOfLiterals(f.right))
  }

  /** The matrices flattening accepts are exactly the quantifier-free formulas in negation normal form. */
  lemma {:induction false} AndOrOfLiteralsIsQfNnf(f: Formula)
    ensures AndOrOfLiterals(f) <==> IsNnf(f) && QuantifierFree(f)
  {
    match f
    case Pred(_, _) =>
    case Not(s) =>
    case And(l, r) => AndOrOfLiteralsIsQfNnf(l); AndOrOfLiteralsIsQfNnf(r);
    case Or(l, r) => AndOrOfLiteralsIsQfNnf(l); AndOrOfLiteralsIsQfNnf(r);
    case Imp(_, _) =>
    case Iff(_, _) =>
    case ForAll(_, _) =>
    case Exists(_, _) =>
  }

  /** The shape predicates above depend on shape only. */
  lemma {:induction false} SameShapeKeepsClass(a: Formula, b: Formula)
    requires SameShape(a, b)
    ensures NoImpIff(a) == NoImpIff(b) && IsNnf(a) == IsNnf(b) && QuantifierFree(a) == QuantifierFree(b)
    ensures AndOrOfLiterals(a) == AndOrOfLiterals(b)
  {
    match a
    case Pred(_, _) =>
    case Not(s) => SameShapeKeepsClass(s, b.sub);
    case And(l, r) => SameShapeKeepsClass(l, b.left); SameShapeKeepsClass(r, b.right);
    case Or(l, r) => SameShapeKeepsClass(l, b.left); SameShapeKeepsClass(r, b.right);
    case Imp(l, r) => SameShapeKeepsClass(l, b.left); SameShapeKeepsClass(r, b.right);
    case Iff(l, r) => SameShapeKeepsClass(l, b.left); SameShapeKeepsClass(r, b.right);
    case ForAll(_, s) => SameShapeKeepsClass(s, b.sub);
    case Exists(_, s) => SameShapeKeepsClass(s, b.sub);
  }

  /** A formula in negation normal form has no `Imp` or `Iff`. */
  lemma {:induction false} NnfHasNoImpIff(f: Formula)
    requires IsNnf(f)
    ensures NoImpIff(f)
  {
    match f
    case And(l, r) => NnfHasNoImpIff(l); NnfHasNoImpIff(r);
    case Or(l, r) => NnfHasNoImpIff(l); NnfHasNoImpIff(r);
    case ForAll(_, s) => NnfHasNoImpIff(s);
    case Exists(_, s) => NnfHasNoImpIff(s);
    case _ =>
  }

  /** The binders and the bound names list the same quantifiers: entry `i` of one names the variable of entry `i`
      of the other. */
  lemma {:induction false} BindersNames(f: Formula)
    ensures |Binders(f)| == |BoundNames(f)|
    ensures forall i :: 0 <= i < |Binders(f)| ==> Binders(f)[i].v == BoundNames(f)[i]
  {
    match f
    case Pred(_, _) =>
    case Not(s) => BindersNames(s);
    case And(l, r) => BindersNames(l); BindersNames(r); ConcatNames(Binders(l), Binders(r), BoundNames(l), BoundNames(r));
    case Or(l, r) => BindersNames(l); BindersNames(r); ConcatNames(Binders(l), Binders(r), BoundNames(l), BoundNames(r));
    case Imp(l, r) => BindersNames(l); BindersNames(r); ConcatNames(Binders(l), Binders(r), BoundNames(l), BoundNames(r));
    case Iff(l, r) => BindersNames(l); BindersNames(r); ConcatNames(Binders(l), Binders(r), BoundNames(l), BoundNames(r));
    case ForAll(v, s) => BindersNames(s); ConcatNames([Quant(All, v)], Binders(s), [v], BoundNames(s));
    case Exists(v, s) => BindersNames(s); ConcatNames([Quant(Ex, v)], Binders(s), [v], BoundNames(s));
  }

  lemma ConcatNames(a: seq<Quant>, b: seq<Quant>, x: seq<string>, y: seq<string>)
    requires |a| == |x| && |b| == |y|
    requires forall i :: 0 <= i < |a| ==> a[i].v == x[i]
    requires forall i :: 0 <= i < |b| ==> b[i].v == y[i]
    ensures forall i :: 0 <= i < |a + b| ==> (a + b)[i].v == (x + y)[i]
  {
  }
}
