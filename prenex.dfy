/** Prenex extraction (pullQuantifiers, script.js:359-382) and its inverse (buildPrenex, script.js:383-390): the
    quantifiers of an NNF formula are collected into a prefix, leaving a quantifier-free matrix, and a prefix and
    matrix are nested back into one formula. */
module Prenex {
  import opened Syntax
  import opened Semantics

  /** `{ prefix, matrix }` of pullQuantifiers. */
  datatype Pulled = Pulled(prefix: seq<Quant>, matrix: Formula)

  /** pullQuantifiers: a quantifier goes to the front of its body's prefix; `And`/`Or` put the left operand's
      prefix before the right operand's; `Not` passes its operand's prefix through; a `Pred`, `Imp` or `Iff` node
      is a matrix with no prefix. On an input without `Imp`/`Iff` the prefix is every quantifier of the input in
      pre-order and the matrix is quantifier-free; on NNF input the matrix is NNF too. */
  function PullQuantifiers(f: Formula): (r: Pulled)
    ensures NoImpIff(f) ==> r.prefix == Binders(f) && QuantifierFree(r.matrix)
    ensures IsNnf(f) ==> IsNnf(r.matrix)
    ensures QuantifierFree(f) ==> r == Pulled([], f)
  {
    match f
    case ForAll(v, s) =>
      var sub := PullQuantifiers(s);
      Pulled([Quant(All, v)] + sub.prefix, sub.matrix)
    case Exists(v, s) =>
      var sub := PullQuantifiers(s);
      Pulled([Quant(Ex, v)] + sub.prefix, sub.matrix)
    case And(l, r) =>
      var L := PullQuantifiers(l);
      var R := PullQuantifiers(r);
      Pulled(L.prefix + R.prefix, And(L.matrix, R.matrix))
    case Or(l, r) =>
      var L := PullQuantifiers(l);
      var R := PullQuantifiers(r);
      Pulled(L.prefix + R.prefix, Or(L.matrix, R.matrix))
    case Not(s) =>
      var S := PullQuantifiers(s);
      Pulled(S.prefix, Not(S.matrix))
    case _ => Pulled([], f)
  }

  /** The formula with every quantifier node replaced by its body: the matrix the prefix is pulled from. */
  function Unquantified(f: Formula): Formula
  {
    match f
    case Pred(_, _) => f
    case Not(s) => Not(Unquantified(s))
    case And(l, r) => And(Unquantified(l), Unquantified(r))
    case Or(l, r) => Or(Unquantified(l), Unquantified(r))
    case Imp(l, r) => Imp(Unquantified(l), Unquantified(r))
    case Iff(l, r) => Iff(Unquantified(l), Unquantified(r))
    case ForAll(_, s) => Unquantified(s)
    case Exists(_, s) => Unquantified(s)
  }

  /** On an input without `Imp`/`Iff` the matrix is the input with its quantifier nodes removed. */
  lemma {:induction false} PullMatrixUnquantified(f: Formula)
    requires NoImpIff(f)
    ensures PullQuantifiers(f).matrix == Unquantified(f)
  {
    match f
    case ForAll(v, s) => PullMatrixUnquantified(s);
    case Exists(v, s) => PullMatrixUnquantified(s);
    case And(l, r) => PullMatrixUnquantified(l); PullMatrixUnquantified(r);
    case Or(l, r) => PullMatrixUnquantified(l); PullMatrixUnquantified(r);
    case Not(s) => PullMatrixUnquantified(s);
    case _ =>
  }

  /** One prefix entry wrapped around a formula. */
  function Quantify(q: Quant, f: Formula): (r: Formula)
    ensures Binders(r) == [q] + Binders(f)
  {
    match q.kind
    case All => ForAll(q.v, f)
    case Ex => Exists(q.v, f)
  }

  /** A chain of quantifiers above a quantifier-free matrix. */
  predicate IsPrenex(f: Formula)
  {
    match f
    case ForAll(_, s) => IsPrenex(s)
    case Exists(_, s) => IsPrenex(s)
    case _ => QuantifierFree(f)
  }

  /** The formula buildPrenex returns: `prefix[0]` outermost, the matrix innermost. Its quantifiers are the
      prefix followed by those of the matrix; with a quantifier-free matrix it is in prenex form, and an empty
      prefix gives the matrix itself. */
  function Nest(prefix: seq<Quant>, matrix: Formula): (r: Formula)
    ensures Binders(r) == prefix + Binders(matrix)
    ensures QuantifierFree(matrix) ==> IsPrenex(r)
    ensures prefix == [] ==> r == matrix
  {
    if |prefix| == 0 then matrix else Quantify(prefix[0], Nest(prefix[1..], matrix))
  }

  /** buildPrenex (script.js:383-390): the loop runs from the last prefix entry to the first, wrapping `out`. */
  method BuildPrenex(prefix: seq<Quant>, matrix: Formula) returns (out: Formula)
    ensures out == Nest(prefix, matrix)
  {
    out := matrix;
    var i := |prefix|;
    while i > 0
      invariant 0 <= i <= |prefix|
      invariant out == Nest(prefix[i..], matrix)
    {
      i := i - 1;
      var q := prefix[i];
      assert prefix[i..][1..] == prefix[i + 1..];
      out := if q.kind == All then ForAll(q.v, out) else Exists(q.v, out);
    }
  }

  /** Pulling the quantifiers out of a nested prefix gives back the prefix and the matrix. */
  lemma {:induction false} PullNest(prefix: seq<Quant>, matrix: Formula)
    requires QuantifierFree(matrix)
    ensures PullQuantifiers(Nest(prefix, matrix)) == Pulled(prefix, matrix)
    decreases |prefix|
  {
    if |prefix| > 0 {
      PullNest(prefix[1..], matrix);
    }
  }

  /** Nesting what was pulled out of a prenex formula gives back the formula. */
  lemma {:induction false} NestPull(f: Formula)
    requires IsPrenex(f)
    ensures Nest(PullQuantifiers(f).prefix, PullQuantifiers(f).matrix) == f
  {
    match f
    case ForAll(v, s) =>
      NestPull(s);
      assert PullQuantifiers(f).prefix[1..] == PullQuantifiers(s).prefix;
    case Exists(v, s) =>
      NestPull(s);
      assert PullQuantifiers(f).prefix[1..] == PullQuantifiers(s).prefix;
    case _ =>
  }

  /** On NNF input, prefix and matrix nest into a prenex formula with the same quantifiers in the same order, whose
      matrix is a quantifier-free NNF formula. */
  lemma PrenexOfNnf(f: Formula)
    requires IsNnf(f)
    ensures var p := PullQuantifiers(f);
      IsPrenex(Nest(p.prefix, p.matrix)) && Binders(Nest(p.prefix, p.matrix)) == Binders(f)
      && QuantifierFree(p.matrix) && IsNnf(p.matrix)
  {
    NnfHasNoImpIff(f);
  }

  /** No two quantifiers of `f` bind the same name, and no bound name also occurs free in `f`. Pulling a quantifier
      over a connective is sound only then: the other operand must not mention the pulled variable. */
  predicate Rectified(f: Formula)
  {
    && Distinct(BoundNames(f))
    && forall x :: x in BoundNames(f) ==> !FreeIn(x, f)
  }

  predicate Distinct(names: seq<string>)
  {
    forall i, j :: 0 <= i < j < |names| ==> names[i] != names[j]
  }

  /** The two halves of a sequence without repetition have none, and share no name. */
  lemma DistinctAppend(a: seq<string>, b: seq<string>)
    requires Distinct(a + b)
    ensures Distinct(a) && Distinct(b)
    ensures forall x :: x in a ==> x !in b
  {
    forall i, j | 0 <= i < j < |a| ensures a[i] != a[j] {
      assert a[i] == (a + b)[i] && a[j] == (a + b)[j];
    }
    forall i, j | 0 <= i < j < |b| ensures b[i] != b[j] {
      assert b[i] == (a + b)[|a| + i] && b[j] == (a + b)[|a| + j];
    }
    forall x | x in a ensures x !in b {
      var i :| 0 <= i < |a| && a[i] == x;
      forall j | 0 <= j < |b| ensures b[j] != x {
        assert a[i] == (a + b)[i] && b[j] == (a + b)[|a| + j];
      }
    }
  }

  /** The operands of a rectified conjunction or disjunction are rectified, bind disjoint names, and neither
      mentions free a name the other binds. */
  lemma RectifiedOperands(f: Formula)
    requires (f.And? || f.Or?) && Rectified(f)
    ensures Rectified(f.left) && Rectified(f.right)
    ensures forall x :: x in BoundNames(f.left) ==> x !in BoundNames(f.right) && !FreeIn(x, f.right)
    ensures forall x :: x in BoundNames(f.right) ==> !FreeIn(x, f.left)
  {
    assert BoundNames(f) == BoundNames(f.left) + BoundNames(f.right);
    assert forall x :: FreeIn(x, f) == (FreeIn(x, f.left) || FreeIn(x, f.right));
    DistinctAppend(BoundNames(f.left), BoundNames(f.right));
  }

  /** The body of a rectified quantifier is rectified. */
  lemma RectifiedBody(f: Formula)
    requires (f.ForAll? || f.Exists?) && Rectified(f)
    ensures Rectified(f.sub)
  {
    DistinctAppend([f.v], BoundNames(f.sub));
    forall x | x in BoundNames(f.sub) ensures !FreeIn(x, f.sub) {
      assert x in BoundNames(f);
    }
  }

  /** A name free in the matrix is free in the formula or bound in it. */
  lemma {:induction false} MatrixFree(f: Formula, x: string)
    ensures FreeIn(x, PullQuantifiers(f).matrix) ==> FreeIn(x, f) || x in BoundNames(f)
  {
    match f
    case ForAll(v, s) => MatrixFree(s, x);
    case Exists(v, s) => MatrixFree(s, x);
    case And(l, r) => MatrixFree(l, x); MatrixFree(r, x);
    case Or(l, r) => MatrixFree(l, x); MatrixFree(r, x);
    case Not(s) => MatrixFree(s, x);
    case _ =>
  }

  /** Every name in the prefix of an Imp/Iff-free formula is bound in it. */
  lemma PrefixBound(f: Formula)
    requires NoImpIff(f)
    ensures forall i :: 0 <= i < |PullQuantifiers(f).prefix| ==> PullQuantifiers(f).prefix[i].v in BoundNames(f)
  {
    BindersNames(f);
  }

  lemma NestCons(prefix: seq<Quant>, matrix: Formula)
    requires |prefix| > 0
    ensures Nest(prefix, matrix) == Quantify(prefix[0], Nest(prefix[1..], matrix))
  {
  }

  /** Nesting adds no free name. */
  lemma {:induction false} NestFree(prefix: seq<Quant>, matrix: Formula, x: string)
    ensures FreeIn(x, Nest(prefix, matrix)) ==> FreeIn(x, matrix)
    decreases |prefix|
  {
    if |prefix| > 0 {
      NestFree(prefix[1..], matrix, x);
    }
  }

  /** Nesting under two prefixes in turn is nesting under their concatenation. */
  lemma {:induction false} NestAppend(p1: seq<Quant>, p2: seq<Quant>, matrix: Formula)
    ensures Nest(p1 + p2, matrix) == Nest(p1, Nest(p2, matrix))
    decreases |p1|
  {
    if |p1| > 0 {
      assert (p1 + p2)[0] == p1[0] && (p1 + p2)[1..] == p1[1..] + p2;
      NestAppend(p1[1..], p2, matrix);
      calc {
        Nest(p1 + p2, matrix);
        Quantify(p1[0], Nest(p1[1..] + p2, matrix));
        Quantify(p1[0], Nest(p1[1..], Nest(p2, matrix)));
        Nest(p1, Nest(p2, matrix));
      }
    } else {
      assert p1 + p2 == p2;
    }
  }

  /** Truth of one prefix entry wrapped around a formula, and the unfolding of a non-empty nest. */
  lemma EvalQuantify<D(!new)>(m: Structure<D>, env: string -> D, q: Quant, f: Formula)
    ensures Eval(m, env, Quantify(q, f))
         == if q.kind == All then forall d: D :: Eval(m, Update(env, q.v, d), f)
            else exists d: D :: Eval(m, Update(env, q.v, d), f)
  {
  }

  /** Nesting two formulas that agree under every assignment gives formulas that agree. */
  lemma {:induction false} NestCongruence<D(!new)>(m: Structure<D>, env: string -> D, prefix: seq<Quant>,
                                                   a: Formula, b: Formula)
    requires forall e: string -> D :: Eval(m, e, a) == Eval(m, e, b)
    ensures Eval(m, env, Nest(prefix, a)) == Eval(m, env, Nest(prefix, b))
    decreases |prefix|
  {
    if |prefix| > 0 {
      var q, rest := prefix[0], prefix[1..];
      var x, y := Nest(rest, a), Nest(rest, b);
      assert Eval(m, env, Quantify(q, x)) == Eval(m, env, Quantify(q, y)) by {
        forall d: D
          ensures Eval(m, Update(env, q.v, d), x) == Eval(m, Update(env, q.v, d), y)
        {
          NestCongruence(m, Update(env, q.v, d), rest, a, b);
        }
        QuantifyCongruence(m, env, q, x, y);
      }
      NestCons(prefix, a);
      NestCons(prefix, b);
    }
  }

  /** A quantifier around two bodies that agree wherever its variable takes a value gives formulas that agree. */
  lemma QuantifyCongruence<D(!new)>(m: Structure<D>, env: string -> D, q: Quant, x: Formula, y: Formula)
    requires forall d: D :: Eval(m, Update(env, q.v, d), x) == Eval(m, Update(env, q.v, d), y)
    ensures Eval(m, env, Quantify(q, x)) == Eval(m, env, Quantify(q, y))
  {
    EvalQuantify(m, env, q, x);
    EvalQuantify(m, env, q, y);
  }

  /** `And(a, b)` when `conj`, `Or(a, b)` otherwise. */
  function Join(conj: bool, a: Formula, b: Formula): Formula
  {
    if conj then And(a, b) else Or(a, b)
  }

  function JoinValue(conj: bool, x: bool, y: bool): bool
  {
    if conj then x && y else x || y
  }

  /** A prefix that binds no name free in `b` can be moved off a conjunction or disjunction onto its left operand.
      The domain must not be empty (`w` is one of its elements): `(forall x. A) && B` with `B` false. */
  lemma {:induction false} NestJoinRight<D(!new)>(m: Structure<D>, env: string -> D, prefix: seq<Quant>,
                                                  conj: bool, a: Formula, b: Formula, w: D)
    requires forall i :: 0 <= i < |prefix| ==> !FreeIn(prefix[i].v, b)
    ensures Eval(m, env, Nest(prefix, Join(conj, a, b)))
         == JoinValue(conj, Eval(m, env, Nest(prefix, a)), Eval(m, env, b))
    decreases |prefix|, 1
  {
    if |prefix| > 0 {
      var q, rest := prefix[0], prefix[1..];
      var x, y := Nest(rest, Join(conj, a, b)), Nest(rest, a);
      assert Eval(m, env, Quantify(q, x)) == JoinValue(conj, Eval(m, env, Quantify(q, y)), Eval(m, env, b)) by {
        forall d: D
          ensures Eval(m, Update(env, q.v, d), x) == JoinValue(conj, Eval(m, Update(env, q.v, d), y), Eval(m, env, b))
        {
          NestJoinRightAt(m, env, prefix, conj, a, b, w, d);
        }
        QuantifyJoin(m, env, q, conj, x, y, Eval(m, env, b), w);
      }
      NestCons(prefix, a);
      NestCons(prefix, Join(conj, a, b));
    }
  }

  /** NestJoinRight below the first prefix entry, its variable taking the value `d`. */
  lemma {:induction false} NestJoinRightAt<D(!new)>(m: Structure<D>, env: string -> D, prefix: seq<Quant>,
                                                    conj: bool, a: Formula, b: Formula, w: D, d: D)
    requires |prefix| > 0 && forall i :: 0 <= i < |prefix| ==> !FreeIn(prefix[i].v, b)
    ensures Eval(m, Update(env, prefix[0].v, d), Nest(prefix[1..], Join(conj, a, b)))
         == JoinValue(conj, Eval(m, Update(env, prefix[0].v, d), Nest(prefix[1..], a)), Eval(m, env, b))
    decreases |prefix|, 0
  {
    var rest := prefix[1..];
    forall i | 0 <= i < |rest| ensures !FreeIn(rest[i].v, b) {
      assert rest[i] == prefix[i + 1];
    }
    NestJoinRight(m, Update(env, prefix[0].v, d), rest, conj, a, b, w);
    EvalAgree(m, Update(env, prefix[0].v, d), env, b);
  }

  /** The quantifier step of NestJoinRight: a body that is `a` joined with a value `c` independent of the
      quantified variable. */
  lemma QuantifyJoin<D(!new)>(m: Structure<D>, env: string -> D, q: Quant, conj: bool, x: Formula, a: Formula,
                              c: bool, w: D)
    requires forall d: D :: Eval(m, Update(env, q.v, d), x) == JoinValue(conj, Eval(m, Update(env, q.v, d), a), c)
    ensures Eval(m, env, Quantify(q, x)) == JoinValue(conj, Eval(m, env, Quantify(q, a)), c)
  {
    EvalQuantify(m, env, q, x);
    EvalQuantify(m, env, q, a);
    assert Eval(m, Update(env, q.v, w), x) == JoinValue(conj, Eval(m, Update(env, q.v, w), a), c);
  }

  /** The mirror image: a prefix that binds no name free in `a` moves onto the right operand. */
  lemma NestJoinLeft<D(!new)>(m: Structure<D>, env: string -> D, prefix: seq<Quant>, conj: bool, a: Formula,
                              b: Formula, w: D)
    requires forall i :: 0 <= i < |prefix| ==> !FreeIn(prefix[i].v, a)
    ensures Eval(m, env, Nest(prefix, Join(conj, a, b)))
         == JoinValue(conj, Eval(m, env, a), Eval(m, env, Nest(prefix, b)))
  {
    NestCongruence(m, env, prefix, Join(conj, a, b), Join(conj, b, a));
    NestJoinRight(m, env, prefix, conj, b, a, w);
  }

  /** Prenex extraction keeps the meaning of a rectified NNF formula over a non-empty domain (`w` is one of its
      elements): the prefix nested around the matrix holds exactly when the formula does. */
  lemma {:induction false} PullQuantifiersKeepsMeaning<D(!new)>(m: Structure<D>, env: string -> D, f: Formula,
                                                                w: D)
    requires IsNnf(f) && Rectified(f)
    ensures var p := PullQuantifiers(f);
      Eval(m, env, Nest(p.prefix, p.matrix)) == Eval(m, env, f)
    decreases Size(f), 1
  {
    match f
    case And(l, r) =>
      RectifiedOperands(f);
      PullJoinKeepsMeaning(m, env, true, l, r, w);
    case Or(l, r) =>
      RectifiedOperands(f);
      PullJoinKeepsMeaning(m, env, false, l, r, w);
    case ForAll(v, s) =>
      RectifiedBody(f);
      var S := PullQuantifiers(s);
      assert ([Quant(All, v)] + S.prefix)[1..] == S.prefix;
      forall d: D
        ensures Eval(m, Update(env, v, d), Nest(S.prefix, S.matrix)) == Eval(m, Update(env, v, d), s)
      {
        PullQuantifiersKeepsMeaning(m, Update(env, v, d), s, w);
      }
    case Exists(v, s) =>
      RectifiedBody(f);
      var S := PullQuantifiers(s);
      assert ([Quant(Ex, v)] + S.prefix)[1..] == S.prefix;
      forall d: D
        ensures Eval(m, Update(env, v, d), Nest(S.prefix, S.matrix)) == Eval(m, Update(env, v, d), s)
      {
        PullQuantifiersKeepsMeaning(m, Update(env, v, d), s, w);
      }
    case _ =>
  }

  /** PullQuantifiersKeepsMeaning for a conjunction (`conj`) or disjunction of rectified operands that share no
      name: the left prefix goes outermost, then the right one. */
  lemma {:induction false} PullJoinKeepsMeaning<D(!new)>(m: Structure<D>, env: string -> D, conj: bool,
                                                         l: Formula, r: Formula, w: D)
    requires IsNnf(l) && IsNnf(r) && Rectified(l) && Rectified(r)
    requires forall x :: x in BoundNames(l) ==> x !in BoundNames(r) && !FreeIn(x, r)
    requires forall x :: x in BoundNames(r) ==> !FreeIn(x, l)
    ensures var p := PullQuantifiers(Join(conj, l, r));
      Eval(m, env, Nest(p.prefix, p.matrix)) == Eval(m, env, Join(conj, l, r))
    decreases Size(l) + Size(r) + 1, 0
  {
    var L, R := PullQuantifiers(l), PullQuantifiers(r);
    assert PullQuantifiers(Join(conj, l, r)) == Pulled(L.prefix + R.prefix, Join(conj, L.matrix, R.matrix));
    NnfHasNoImpIff(l);
    NnfHasNoImpIff(r);
    PrefixBound(l);
    PrefixBound(r);
    forall i | 0 <= i < |R.prefix| ensures !FreeIn(R.prefix[i].v, L.matrix) {
      MatrixFree(l, R.prefix[i].v);
    }
    forall i | 0 <= i < |L.prefix| ensures !FreeIn(L.prefix[i].v, Nest(R.prefix, R.matrix)) {
      NestFree(R.prefix, R.matrix, L.prefix[i].v);
      MatrixFree(r, L.prefix[i].v);
    }
    forall e: string -> D
      ensures Eval(m, e, Nest(R.prefix, Join(conj, L.matrix, R.matrix)))
           == Eval(m, e, Join(conj, L.matrix, Nest(R.prefix, R.matrix)))
    {
      NestJoinLeft(m, e, R.prefix, conj, L.matrix, R.matrix, w);
    }
    NestAppend(L.prefix, R.prefix, Join(conj, L.matrix, R.matrix));
    NestCongruence(m, env, L.prefix, Nest(R.prefix, Join(conj, L.matrix, R.matrix)),
                   Join(conj, L.matrix, Nest(R.prefix, R.matrix)));
    NestJoinRight(m, env, L.prefix, conj, L.matrix, Nest(R.prefix, R.matrix), w);
    PullQuantifiersKeepsMeaning(m, env, l, w);
    PullQuantifiersKeepsMeaning(m, env, r, w);
  }
}
