/** Skolemization (script.js:302-317). `process` walks the leading quantifier chain: a universal variable is pushed
    onto the shared `universals` list, an existential one is replaced by a fresh Skolem term over the universals
    pushed so far. The walk is a single chain, so the shared list is the list of universals above the current
    node and is passed down as an argument; the fresh-symbol counter is an argument and a second result. */
module Skolem {
  import opened Syntax
  import opened Names
  import opened Subst
  import opened Prenex

  /** The Skolem term `name(u1, ..., uk)` over the universal variables `univ`, a constant when there are none. */
  function SkolemTerm(name: string, univ: seq<string>): (t: Term)
    ensures t.Func? && t.name == name && |t.args| == |univ|
    ensures forall i :: 0 <= i < |univ| ==> t.args[i] == Var(univ[i])
  {
    Func(name, seq(|univ|, i requires 0 <= i < |univ| => Var(univ[i])))
  }

  /** The quantifiers of the leading chain of `f`, outermost first. */
  function LeadingPrefix(f: Formula): seq<Quant>
  {
    match f
    case ForAll(v, s) => [Quant(All, v)] + LeadingPrefix(s)
    case Exists(v, s) => [Quant(Ex, v)] + LeadingPrefix(s)
    case _ => []
  }

  /** `f` without its leading quantifier chain. */
  function StripLeading(f: Formula): (m: Formula)
    ensures !m.ForAll? && !m.Exists?
  {
    match f
    case ForAll(_, s) => StripLeading(s)
    case Exists(_, s) => StripLeading(s)
    case _ => f
  }

  /** Number of existential entries of a prefix. */
  function ExCount(p: seq<Quant>): (c: nat)
    ensures c <= |p|
  {
    if |p| == 0 then 0 else (if p[0].kind == Ex then 1 else 0) + ExCount(p[1..])
  }

  /** The variables of the universal entries of a prefix, in order. */
  function UnivNames(p: seq<Quant>): (us: seq<string>)
    ensures |us| + ExCount(p) == |p|
  {
    if |p| == 0 then [] else (if p[0].kind == All then [p[0].v] else []) + UnivNames(p[1..])
  }

  /** process: the leading chain is stripped, each existential variable being replaced, in the processed body, by
      `Sk<n>` applied to the universals above it; the fresh name is drawn before the body is processed. The result
      has the shape of the matrix below the chain, and the counter rises by the number of existentials in the
      chain. */
  function Process(node: Formula, univ: seq<string>, n: nat): (r: (Formula, nat))
    ensures SameShape(StripLeading(node), r.0)
    ensures r.1 == n + ExCount(LeadingPrefix(node))
  {
    match node
    case ForAll(v, s) =>
      Process(s, univ + [v], n)
    case Exists(v, s) =>
      var sk := SkolemTerm(Fresh("Sk", n), univ);
      var (b, m) := Process(s, univ, n + 1);
      SameShapeTrans(StripLeading(s), b, SubstituteVar(b, v, sk));
      (SubstituteVar(b, v, sk), m)
    case _ =>
      SameShapeRefl(node);
      (node, n)
  }

  /** skolemize: process from the root with no universals yet. */
  function Skolemize(f: Formula, n: nat): (r: (Formula, nat))
    ensures SameShape(StripLeading(f), r.0)
    ensures r.1 == n + ExCount(LeadingPrefix(f))
  {
    Process(f, [], n)
  }

  /** The substitutions process performs on a prefix, outermost existential first: each existential variable with
      its Skolem term. */
  function SkolemPlan(p: seq<Quant>, univ: seq<string>, n: nat): (plan: seq<(string, Term)>)
    ensures |plan| == ExCount(p)
    decreases |p|
  {
    if |p| == 0 then []
    else if p[0].kind == All then SkolemPlan(p[1..], univ + [p[0].v], n)
    else [(p[0].v, SkolemTerm(Fresh("Sk", n), univ))] + SkolemPlan(p[1..], univ, n + 1)
  }

  /** Substitutions applied innermost first, as the returns of process apply them. */
  function ApplyPlan(m: Formula, plan: seq<(string, Term)>): (r: Formula)
    ensures SameShape(m, r)
    decreases |plan|
  {
    if |plan| == 0 then SameShapeRefl(m); m
    else
      var inner := ApplyPlan(m, plan[1..]);
      SameShapeTrans(m, inner, SubstituteVar(inner, plan[0].0, plan[0].1));
      SubstituteVar(inner, plan[0].0, plan[0].1)
  }

  /** On any formula, process is the part below the leading quantifiers with the plan of those quantifiers applied;
      on the prenex formula Skolemization receives, that part is the matrix. */
  lemma {:induction false} ProcessPrenex(f: Formula, univ: seq<string>, n: nat)
    ensures Process(f, univ, n).0 == ApplyPlan(StripLeading(f), SkolemPlan(LeadingPrefix(f), univ, n))
  {
    match f
    case ForAll(v, s) =>
      ProcessPrenex(s, univ + [v], n);
      var p := LeadingPrefix(f);
      assert p[0] == Quant(All, v) && p[1..] == LeadingPrefix(s);
    case Exists(v, s) =>
      ProcessPrenex(s, univ, n + 1);
      var p := LeadingPrefix(f);
      assert p[0] == Quant(Ex, v) && p[1..] == LeadingPrefix(s);
      var sk := SkolemTerm(Fresh("Sk", n), univ);
      var plan := SkolemPlan(p, univ, n);
      assert plan[1..] == SkolemPlan(LeadingPrefix(s), univ, n + 1) && plan[0] == (v, sk);
      ApplyPlanCons(StripLeading(s), plan);
    case _ =>
      assert ApplyPlan(f, []) == f;
  }

  /** The leading chain of a nested prefix over a quantifier-free matrix is that prefix, and below it is the
      matrix. */
  lemma {:induction false} LeadingOfNest(p: seq<Quant>, m: Formula)
    requires QuantifierFree(m)
    ensures LeadingPrefix(Nest(p, m)) == p && StripLeading(Nest(p, m)) == m
    decreases |p|
  {
    if |p| > 0 {
      LeadingOfNest(p[1..], m);
    }
  }

  lemma ApplyPlanCons(m: Formula, plan: seq<(string, Term)>)
    requires |plan| > 0
    ensures ApplyPlan(m, plan) == SubstituteVar(ApplyPlan(m, plan[1..]), plan[0].0, plan[0].1)
  {
  }

  /** The Skolem term of the existential at position `i` of the prefix is entry number `ExCount(p[..i])` of the
      plan: it is named `Sk<n + e + 1>`, `e` being the number of existentials before it, and its arguments are the
      variables of the universals before it, in order (none: a constant). */
  lemma SkolemPlanEntry(p: seq<Quant>, univ: seq<string>, n: nat, i: nat)
    requires i < |p| && p[i].kind == Ex
    ensures ExCount(p[..i]) < |SkolemPlan(p, univ, n)|
    ensures SkolemPlan(p, univ, n)[ExCount(p[..i])]
         == (p[i].v, SkolemTerm(Fresh("Sk", n + ExCount(p[..i])), univ + UnivNames(p[..i])))
  {
    var pre, rest := p[..i], p[i..];
    assert rest[0] == p[i];
    var u, e := univ + UnivNames(pre), n + ExCount(pre);
    var first, tail := SkolemPlan(pre, univ, n), SkolemPlan(rest, u, e);
    SkolemPlanEx(rest, u, e);
    calc {
      SkolemPlan(p, univ, n);
      { assert p == pre + rest; }
      SkolemPlan(pre + rest, univ, n);
      { SkolemPlanAppend(pre, rest, univ, n); }
      first + tail;
    }
    assert (first + tail)[|first|] == tail[0];
  }

  /** The plan of two prefixes one after the other is the plan of the first followed by the plan of the second,
      which sees the universals of the first and starts its numbering after the first's existentials. */
  lemma {:induction false} SkolemPlanAppend(a: seq<Quant>, b: seq<Quant>, univ: seq<string>, n: nat)
    ensures SkolemPlan(a + b, univ, n)
         == SkolemPlan(a, univ, n) + SkolemPlan(b, univ + UnivNames(a), n + ExCount(a))
    decreases |a|, 1
  {
    if |a| == 0 {
      assert a + b == b;
      assert univ + UnivNames(a) == univ;
    } else if a[0].kind == All {
      SkolemPlanAppendAll(a, b, univ, n);
    } else {
      SkolemPlanAppendEx(a, b, univ, n);
    }
  }

  /** The append step below a leading universal. */
  lemma {:induction false} SkolemPlanAppendAll(a: seq<Quant>, b: seq<Quant>, univ: seq<string>, n: nat)
    requires |a| > 0 && a[0].kind == All
    ensures SkolemPlan(a + b, univ, n)
         == SkolemPlan(a, univ, n) + SkolemPlan(b, univ + UnivNames(a), n + ExCount(a))
    decreases |a|, 0
  {
    var ab, univ' := a + b, univ + [a[0].v];
    assert ab[0] == a[0] && ab[1..] == a[1..] + b;
    SkolemPlanAll(a, univ, n);
    SkolemPlanAll(ab, univ, n);
    assert UnivNames(a) == [a[0].v] + UnivNames(a[1..]);
    assert univ' + UnivNames(a[1..]) == univ + UnivNames(a);
    SkolemPlanAppend(a[1..], b, univ', n);
  }

  /** The append step below a leading existential. */
  lemma {:induction false} SkolemPlanAppendEx(a: seq<Quant>, b: seq<Quant>, univ: seq<string>, n: nat)
    requires |a| > 0 && a[0].kind == Ex
    ensures SkolemPlan(a + b, univ, n)
         == SkolemPlan(a, univ, n) + SkolemPlan(b, univ + UnivNames(a), n + ExCount(a))
    decreases |a|, 0
  {
    var ab := a + b;
    assert ab[0] == a[0] && ab[1..] == a[1..] + b;
    var head := [(a[0].v, SkolemTerm(Fresh("Sk", n), univ))];
    var x, y := SkolemPlan(a[1..], univ, n + 1), SkolemPlan(b, univ + UnivNames(a[1..]), n + 1 + ExCount(a[1..]));
    SkolemPlanEx(a, univ, n);
    SkolemPlanEx(ab, univ, n);
    assert ExCount(a) == 1 + ExCount(a[1..]);
    assert UnivNames(a) == UnivNames(a[1..]);
    SkolemPlanAppend(a[1..], b, univ, n + 1);
    assert head + (x + y) == head + x + y;
  }

  /** A leading universal adds no entry to the plan: its variable joins the universals of the rest. */
  lemma SkolemPlanAll(p: seq<Quant>, univ: seq<string>, n: nat)
    requires |p| > 0 && p[0].kind == All
    ensures SkolemPlan(p, univ, n) == SkolemPlan(p[1..], univ + [p[0].v], n)
  {
  }

  /** A leading existential is the first entry of the plan, over the universals so far, with the first name. */
  lemma SkolemPlanEx(p: seq<Quant>, univ: seq<string>, n: nat)
    requires |p| > 0 && p[0].kind == Ex
    ensures SkolemPlan(p, univ, n) == [(p[0].v, SkolemTerm(Fresh("Sk", n), univ))] + SkolemPlan(p[1..], univ, n + 1)
  {
  }
}
