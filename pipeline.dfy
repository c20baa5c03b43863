/** The conversion the page runs on one formula (script.js:449-500, the DOM plumbing aside): parse, rename the bound
    variables, eliminate `->`/`<->`, negation normal form, prenex extraction, the CNF and DNF matrices, then
    Skolemization of the prenex formula and its clausal form with the Horn test. The fresh-symbol counter starts
    at 0 for each run and is shared by renaming and Skolemization. */
module Pipeline {
  import opened Syntax
  import opened Semantics
  import opened Outcomes
  import opened Names
  import Subst
  import Parser
  import opened Rename
  import opened Normalize
  import opened Prenex
  import opened Clauses
  import opened Skolem

  /** What one run shows: the parsed formula, the prefix and matrix, the prenex CNF and DNF matrices, the Skolemized
      formula, and its clausal form with the Horn verdict. The clausal form may fail on its own: the page then
      shows the Skolemized formula and no Horn verdict. */
  datatype Report = Report(
    original: Formula,
    prefix: seq<Quant>,
    matrix: Formula,
    cnf: seq<Clause>,
    dnf: seq<Clause>,
    skolemized: Formula,
    clausal: Result<seq<Clause>>,
    horn: Option<bool>)

  /** The intermediate formula the prefix and matrix are pulled from: renamed, Imp/Iff-free, in NNF. */
  function Normalized(ast: Formula): Formula
  {
    Nnf(ElimImpIff(RenameBound(ast, 0).0))
  }

  /** The error of the first failing stage: the CNF matrix is computed, and can throw, before the DNF matrix. */
  function FirstError<X>(cnf: Result<X>, dnf: Result<X>): Error
    requires cnf.Err? || dnf.Err?
  {
    if cnf.Err? then cnf.error else dnf.error
  }

  /** Every stage after parsing, with the counter reset to 0. A failure of the CNF or DNF matrix aborts the run; a
      failure of the clausal form only replaces it and the Horn verdict. */
  function Transform(ast: Formula): (r: Result<Report>)
    ensures r.Err? <==> ToCnf(PullQuantifiers(Normalized(ast)).matrix).Err? || ToDnf(PullQuantifiers(Normalized(ast)).matrix).Err?
    ensures r.Ok? ==> r.value.original == ast && (r.value.horn.Some? <==> r.value.clausal.Ok?)
  {
    var (s1, n1) := RenameBound(ast, 0);
    var s3 := Nnf(ElimImpIff(s1));
    var pq := PullQuantifiers(s3);
    var prenexAst := Nest(pq.prefix, pq.matrix);
    var cnf := ToCnf(pq.matrix);
    var dnf := ToDnf(pq.matrix);
    if cnf.Err? || dnf.Err? then Err(FirstError(cnf, dnf))
    else
      var (sk, _) := Skolemize(prenexAst, n1);
      var clausal := ToCnf(sk);
      var horn := if clausal.Ok? then Some(CheckHornClause(clausal.value)) else None;
      Ok(Report(ast, pq.prefix, pq.matrix, cnf.value, dnf.value, sk, clausal, horn))
  }

  /** One click: parse the input, then transform. */
  function Run(input: string): (r: Result<Report>)
    ensures r.Ok? <==> Parser.ParseInput(input).Ok?
  {
    var ast :- Parser.ParseInput(input);
    TransformTotal(ast);
    Transform(ast)
  }

  /** Once parsing has succeeded nothing fails: the matrix is a quantifier-free NNF formula, so the CNF and DNF
      matrices exist, and the Skolemized prenex formula has the shape of the matrix, so its clausal form and the
      Horn verdict exist too. Its prefix lists the quantifiers of the normalized formula in order. */
  lemma TransformTotal(ast: Formula)
    ensures Transform(ast).Ok?
    ensures Transform(ast).value.prefix == Binders(Normalized(ast))
    ensures QuantifierFree(Transform(ast).value.matrix) && IsNnf(Transform(ast).value.matrix)
    ensures Transform(ast).value.clausal.Ok? && Transform(ast).value.horn.Some?
  {
    var s1 := RenameBound(ast, 0).0;
    var s3 := Nnf(ElimImpIff(s1));
    NnfHasNoImpIff(s3);
    var pq := PullQuantifiers(s3);
    AndOrOfLiteralsIsQfNnf(pq.matrix);
    var prenexAst := Nest(pq.prefix, pq.matrix);
    LeadingOfNest(pq.prefix, pq.matrix);
    var sk := Skolemize(prenexAst, RenameBound(ast, 0).1).0;
    SameShapeKeepsClass(pq.matrix, sk);
  }

  /** The fields of a run that the lemmas below are about, named once: the prefix and matrix pulled from the
      normalized formula, and the Skolemized prenex formula, Skolemization continuing the counter at `q`, the
      number of quantifiers of the parsed formula. */
  lemma TransformFields(ast: Formula)
    ensures Transform(ast).Ok?
    ensures var r := Transform(ast).value;
      var pq := PullQuantifiers(Normalized(ast));
      r.prefix == pq.prefix && r.matrix == pq.matrix && QuantifierFree(pq.matrix)
      && r.skolemized == Skolemize(Nest(pq.prefix, pq.matrix), QuantCount(ast)).0
  {
    TransformTotal(ast);
  }

  /** The counter is shared: the Skolemized formula is the matrix with the Skolem terms of the prefix substituted,
      the numbering continuing after the `q` renamed variables `x1`..`x<q>`: by SkolemPlanEntry, the existential at
      prefix position `i` gets `Sk<q + e + 1>`, `e` being the number of existentials before it, applied to the
      variables of the universals before it. */
  lemma SkolemizedMatrix(ast: Formula)
    ensures Transform(ast).Ok?
    ensures var r := Transform(ast).value;
      r.skolemized == ApplyPlan(r.matrix, SkolemPlan(r.prefix, [], QuantCount(ast)))
  {
    TransformFields(ast);
    var r := Transform(ast).value;
    LeadingOfNest(r.prefix, r.matrix);
    ProcessPrenex(Nest(r.prefix, r.matrix), [], QuantCount(ast));
  }

  /** Without `<->` in the input, the prefix binds exactly the fresh names `x1`..`x<q>`, in order, so no two of
      its quantifiers bind the same variable. */
  lemma PrefixNamesFresh(ast: Formula)
    requires IffFree(ast)
    ensures Transform(ast).Ok?
    ensures var p := Transform(ast).value.prefix;
      |p| == QuantCount(ast)
      && (forall i :: 0 <= i < |p| ==> p[i].v == Fresh("x", i))
      && (forall i, j :: 0 <= i < j < |p| ==> p[i].v != p[j].v)
  {
    TransformTotal(ast);
    var s1 := RenameBound(ast, 0).0;
    IffFreeShape(ast, s1);
    var s3 := Normalized(ast);
    assert BoundNames(s3) == FreshRun("x", 0, QuantCount(ast));
    BindersNames(s3);
    FreshRunDistinct("x", 0, QuantCount(ast));
  }

  /** Renaming, elimination and NNF together keep what the parsed formula means, provided the input does not
      itself use one of the fresh names `x1`, `x2`, ... (FreeVariableNamedLikeFreshIsCaptured shows why). */
  lemma NormalizedKeepsMeaning<D(!new)>(m: Structure<D>, env: string -> D, ast: Formula)
    requires AvoidsFresh(ast, 0)
    ensures Eval(m, env, Normalized(ast)) == Eval(m, env, ast)
  {
    var s1 := RenameBound(ast, 0).0;
    RenameKeepsMeaning(m, env, ast, 0);
    ElimImpIffSound(m, env, s1);
    NnfSound(m, env, ElimImpIff(s1));
  }

  /** The normalization the renaming is meant for: with `<->` eliminated before the bound variables are renamed,
      the two copies elimination makes of each side of an equivalence get names of their own. */
  function NormalizedRenamingLast(ast: Formula): Formula
  {
    Nnf(RenameBound(ElimImpIff(ast), 0).0)
  }

  /** With renaming after elimination, every input, `<->` included, yields a prefix of distinct fresh names
      `x1`..`x<q>`, `q` counting the quantifiers after elimination. */
  lemma RenamingLastPrefixDistinct(ast: Formula)
    ensures var p := PullQuantifiers(NormalizedRenamingLast(ast)).prefix;
      |p| == QuantCount(ElimImpIff(ast))
      && (forall i :: 0 <= i < |p| ==> p[i].v == Fresh("x", i))
      && (forall i, j :: 0 <= i < j < |p| ==> p[i].v != p[j].v)
  {
    var e := ElimImpIff(ast);
    var s1 := RenameBound(e, 0).0;
    SameShapeKeepsClass(e, s1);
    var s3 := NormalizedRenamingLast(ast);
    NnfHasNoImpIff(s3);
    assert BoundNames(s3) == FreshRun("x", 0, QuantCount(e));
    BindersNames(s3);
    FreshRunDistinct("x", 0, QuantCount(e));
  }

  /** The corrected order keeps the meaning too, under the same condition on the input. */
  lemma RenamingLastKeepsMeaning<D(!new)>(m: Structure<D>, env: string -> D, ast: Formula)
    requires AvoidsFresh(ast, 0)
    ensures Eval(m, env, NormalizedRenamingLast(ast)) == Eval(m, env, ast)
  {
    var e := ElimImpIff(ast);
    forall k: nat
      ensures !FreeIn(Fresh("x", k), e) && Fresh("x", k) !in BoundNames(e)
    {
      ElimImpIffNames(ast, Fresh("x", k));
    }
    RenameKeepsMeaning(m, env, e, 0);
    ElimImpIffSound(m, env, ast);
    NnfSound(m, env, RenameBound(e, 0).0);
  }

  /** On inputs without `<->` the order of the two steps does not matter: the corrected normalization is the one
      the page computes. */
  lemma RenamingLastAgrees(ast: Formula)
    requires IffFree(ast)
    ensures NormalizedRenamingLast(ast) == Normalized(ast)
  {
    RenameElimCommute(ast, 0);
  }

  /** In the corrected order the formula the prefix is pulled from is a rectified NNF formula: its quantifiers bind
      the distinct fresh names, none of which the input mentions. */
  lemma RenamingLastRectified(ast: Formula)
    requires AvoidsFresh(ast, 0)
    ensures IsNnf(NormalizedRenamingLast(ast)) && Rectified(NormalizedRenamingLast(ast))
  {
    var e := ElimImpIff(ast);
    var s1 := RenameBound(e, 0).0;
    SameShapeKeepsClass(e, s1);
    var s3 := NormalizedRenamingLast(ast);
    assert BoundNames(s3) == FreshRun("x", 0, QuantCount(e));
    FreshRunDistinct("x", 0, QuantCount(e));
    forall x | x in BoundNames(s3) ensures !FreeIn(x, s3) {
      var i :| 0 <= i < |BoundNames(s3)| && BoundNames(s3)[i] == x;
      assert x == Fresh("x", i);
      NnfFree(s1, x);
      RenameFree(e, 0, x);
      ElimImpIffNames(ast, x);
    }
  }

  /** With renaming after elimination, the prenex formula, the prefix nested around the matrix, means what the
      parsed formula means over every non-empty domain (`w` is an element), `<->` included. */
  lemma RenamingLastPrenexKeepsMeaning<D(!new)>(m: Structure<D>, env: string -> D, ast: Formula, w: D)
    requires AvoidsFresh(ast, 0)
    ensures var p := PullQuantifiers(NormalizedRenamingLast(ast));
      Eval(m, env, Nest(p.prefix, p.matrix)) == Eval(m, env, ast)
  {
    RenamingLastRectified(ast);
    PullQuantifiersKeepsMeaning(m, env, NormalizedRenamingLast(ast), w);
    RenamingLastKeepsMeaning(m, env, ast);
  }

  /** On inputs without `<->` the page's own prefix and matrix nest into a formula equivalent to the input. */
  lemma PrenexKeepsMeaning<D(!new)>(m: Structure<D>, env: string -> D, ast: Formula, w: D)
    requires IffFree(ast) && AvoidsFresh(ast, 0)
    ensures Transform(ast).Ok?
    ensures var r := Transform(ast).value;
      Eval(m, env, Nest(r.prefix, r.matrix)) == Eval(m, env, ast)
  {
    TransformFields(ast);
    RenamingLastAgrees(ast);
    RenamingLastPrenexKeepsMeaning(m, env, ast, w);
  }

  /** Renaming and elimination commute on `<->`-free formulas, counter included. */
  lemma {:induction false} RenameElimCommute(f: Formula, n: nat)
    requires IffFree(f)
    ensures RenameBound(ElimImpIff(f), n) == (ElimImpIff(RenameBound(f, n).0), RenameBound(f, n).1)
    decreases Size(f), 1
  {
    match f
    case Pred(_, _) =>
    case Not(s) => RenameElimCommute(s, n);
    case And(l, r) => RenamePairElimCommute(l, r, n);
    case Or(l, r) => RenamePairElimCommute(l, r, n);
    case Imp(l, r) =>
      RenameElimCommute(l, n);
      var (a, m1) := RenameBound(l, n);
      RenameElimCommute(r, m1);
      var (b, m2) := RenameBound(r, m1);
      assert RenameBound(f, n) == (Imp(a, b), m2);
      assert RenameBound(Not(ElimImpIff(l)), n) == (Not(ElimImpIff(a)), m1);
      assert ElimImpIff(f) == Or(Not(ElimImpIff(l)), ElimImpIff(r));
    case ForAll(v, s) => RenameScopeElimCommute(v, s, n);
    case Exists(v, s) => RenameScopeElimCommute(v, s, n);
  }

  /** The binary case of RenameElimCommute: the counter leaves the left operand at the same value either way. */
  lemma {:induction false} RenamePairElimCommute(l: Formula, r: Formula, n: nat)
    requires IffFree(l) && IffFree(r)
    ensures var (a, b, m) := RenamePair(l, r, n);
      RenamePair(ElimImpIff(l), ElimImpIff(r), n) == (ElimImpIff(a), ElimImpIff(b), m)
    decreases Size(l) + Size(r), 0
  {
    RenameElimCommute(l, n);
    RenameElimCommute(r, RenameBound(l, n).1);
  }

  /** The quantifier case of RenameElimCommute: the fresh name is substituted into the same body either way. */
  lemma {:induction false} RenameScopeElimCommute(v: string, s: Formula, n: nat)
    requires IffFree(s)
    ensures var (fv, b, m) := RenameScope(v, s, n);
      RenameScope(v, ElimImpIff(s), n) == (fv, ElimImpIff(b), m)
    decreases Size(s), 2
  {
    var fv := Fresh("x", n);
    var s2 := Subst.SubstituteVar(s, v, Var(fv));
    SubstElimCommute(s, v, Var(fv));
    IffFreeShape(s, s2);
    RenameElimCommute(s2, n + 1);
  }

  /** Substitution and elimination commute: elimination only rearranges connectives. */
  lemma {:induction false} SubstElimCommute(f: Formula, v: string, t: Term)
    ensures Subst.SubstituteVar(ElimImpIff(f), v, t) == ElimImpIff(Subst.SubstituteVar(f, v, t))
  {
    match f
    case Pred(_, _) =>
    case Not(s) =>
      SubstElimCommute(s, v, t);
      assert Subst.SubstituteVar(f, v, t) == Not(Subst.SubstituteVar(s, v, t));
    case And(l, r) =>
      SubstElimCommute(l, v, t); SubstElimCommute(r, v, t);
      assert Subst.SubstituteVar(f, v, t) == And(Subst.SubstituteVar(l, v, t), Subst.SubstituteVar(r, v, t));
    case Or(l, r) =>
      SubstElimCommute(l, v, t); SubstElimCommute(r, v, t);
      assert Subst.SubstituteVar(f, v, t) == Or(Subst.SubstituteVar(l, v, t), Subst.SubstituteVar(r, v, t));
    case Imp(l, r) =>
      SubstElimCommute(l, v, t); SubstElimCommute(r, v, t);
      SubstElimImp(l, r, v, t);
    case Iff(l, r) =>
      SubstElimCommute(l, v, t); SubstElimCommute(r, v, t);
      SubstElimIff(l, r, v, t);
    case ForAll(w, s) =>
      SubstElimCommute(s, v, t);
    case Exists(w, s) =>
      SubstElimCommute(s, v, t);
  }

  /** The `->` case of SubstElimCommute, given the commutation for both operands. */
  lemma SubstElimImp(l: Formula, r: Formula, v: string, t: Term)
    requires Subst.SubstituteVar(ElimImpIff(l), v, t) == ElimImpIff(Subst.SubstituteVar(l, v, t))
    requires Subst.SubstituteVar(ElimImpIff(r), v, t) == ElimImpIff(Subst.SubstituteVar(r, v, t))
    ensures Subst.SubstituteVar(ElimImpIff(Imp(l, r)), v, t) == ElimImpIff(Subst.SubstituteVar(Imp(l, r), v, t))
  {
    var a, b := ElimImpIff(l), ElimImpIff(r);
    SubstOrNot(a, b, v, t);
    assert ElimImpIff(Imp(l, r)) == Or(Not(a), b);
    var sl, sr := Subst.SubstituteVar(l, v, t), Subst.SubstituteVar(r, v, t);
    SubstImpIff(l, r, v, t);
    assert ElimImpIff(Imp(sl, sr)) == Or(Not(ElimImpIff(sl)), ElimImpIff(sr));
  }

  /** The `<->` case of SubstElimCommute, given the commutation for both operands. */
  lemma SubstElimIff(l: Formula, r: Formula, v: string, t: Term)
    requires Subst.SubstituteVar(ElimImpIff(l), v, t) == ElimImpIff(Subst.SubstituteVar(l, v, t))
    requires Subst.SubstituteVar(ElimImpIff(r), v, t) == ElimImpIff(Subst.SubstituteVar(r, v, t))
    ensures Subst.SubstituteVar(ElimImpIff(Iff(l, r)), v, t) == ElimImpIff(Subst.SubstituteVar(Iff(l, r), v, t))
  {
    var a, b := ElimImpIff(l), ElimImpIff(r);
    SubstOrNot(a, b, v, t);
    SubstOrNot(b, a, v, t);
    assert ElimImpIff(Iff(l, r)) == And(Or(Not(a), b), Or(Not(b), a));
    var sl, sr := Subst.SubstituteVar(l, v, t), Subst.SubstituteVar(r, v, t);
    SubstImpIff(l, r, v, t);
    var ea, eb := ElimImpIff(sl), ElimImpIff(sr);
    assert ElimImpIff(Iff(sl, sr)) == And(Or(Not(ea), eb), Or(Not(eb), ea));
  }

  /** Substitution into `->` and `<->`, one operand at a time. */
  lemma SubstImpIff(l: Formula, r: Formula, v: string, t: Term)
    ensures Subst.SubstituteVar(Imp(l, r), v, t) == Imp(Subst.SubstituteVar(l, v, t), Subst.SubstituteVar(r, v, t))
    ensures Subst.SubstituteVar(Iff(l, r), v, t) == Iff(Subst.SubstituteVar(l, v, t), Subst.SubstituteVar(r, v, t))
  {
  }

  /** Substitution into the implication `elimImpIff` writes, one operand at a time. */
  lemma SubstOrNot(a: Formula, b: Formula, v: string, t: Term)
    ensures Subst.SubstituteVar(Or(Not(a), b), v, t) == Or(Not(Subst.SubstituteVar(a, v, t)), Subst.SubstituteVar(b, v, t))
  {
  }

  /** IffFree depends on shape only. */
  lemma {:induction false} IffFreeShape(a: Formula, b: Formula)
    requires SameShape(a, b) && IffFree(a)
    ensures IffFree(b)
  {
    match a
    case Pred(_, _) =>
    case Not(s) => IffFreeShape(s, b.sub);
    case And(l, r) => IffFreeShape(l, b.left); IffFreeShape(r, b.right);
    case Or(l, r) => IffFreeShape(l, b.left); IffFreeShape(r, b.right);
    case Imp(l, r) => IffFreeShape(l, b.left); IffFreeShape(r, b.right);
    case ForAll(_, s) => IffFreeShape(s, b.sub);
    case Exists(_, s) => IffFreeShape(s, b.sub);
  }

  /** The click handler with its imperative steps: the parser object, the backward prenex loop and the merge
      loops of the matrices. */
  method Convert(input: string) returns (r: Result<Report>)
    ensures r == Run(input)
  {
    var ast :- Parser.Parse(input);
    var (s1, n1) := RenameBound(ast, 0);
    var s3 := Nnf(ElimImpIff(s1));
    var pq := PullQuantifiers(s3);
    var prenexAst := BuildPrenex(pq.prefix, pq.matrix);
    var cnf := CnfMatrix(pq.matrix);
    var dnf := DnfMatrix(pq.matrix);
    if cnf.Err? || dnf.Err? {
      return Err(FirstError(cnf, dnf));
    }
    var (sk, _) := Skolemize(prenexAst, n1);
    var clausal := CnfMatrix(sk);
    var horn := if clausal.Ok? then Some(CheckHornClause(clausal.value)) else None;
    r := Ok(Report(ast, pq.prefix, pq.matrix, cnf.value, dnf.value, sk, clausal, horn));
  }
}
