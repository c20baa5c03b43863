/** Literals, the CNF and DNF clause matrices of a quantifier-free NNF matrix, and the Horn test
    (script.js:242-299, 320-323). */
module Clauses {
  import opened Syntax
  import opened Outcomes
  import opened Semantics

  /** litFromAst (script.js:245-249): `P(..)` is the positive literal of its atom, `!P(..)` the negative one; any
      other node fails. */
  function LitFromAst(a: Formula): (r: Result<Literal>)
    ensures r.Ok? <==> IsLiteral(a)
    ensures r.Ok? ==> LitToFormula(r.value) == a
    ensures r.Err? ==> r.error == NotALiteral
  {
    if a.Pred? then Ok(Literal(false, Atom(a.name, a.args)))
    else if a.Not? && a.sub.Pred? then Ok(Literal(true, Atom(a.sub.name, a.sub.args)))
    else Err(NotALiteral)
  }

  /** The formula a literal stands for. */
  function LitToFormula(l: Literal): (f: Formula)
    ensures IsLiteral(f)
  {
    var p := Pred(l.atom.name, l.atom.args);
    if l.neg then Not(p) else p
  }

  /** Reading a literal back from its formula gives the literal. */
  lemma LitRoundTrip(l: Literal)
    ensures LitFromAst(LitToFormula(l)) == Ok(l)
  {
  }

  /** A literal has the truth value of its formula. */
  lemma LitHoldsAsFormula(val: Atom -> bool, l: Literal)
    ensures QuantifierFree(LitToFormula(l)) && LitHolds(val, l) == Holds(val, LitToFormula(l))
  {
  }

  /** The clauses `a ++ b` for each `b` of `B`, in order (the inner loop of merge). */
  function Row<T>(a: seq<T>, B: seq<seq<T>>): (r: seq<seq<T>>)
    ensures |r| == |B|
    ensures forall j :: 0 <= j < |B| ==> r[j] == a + B[j]
  {
    seq(|B|, j requires 0 <= j < |B| => a + B[j])
  }

  /** merge (script.js:253-257, 278-282): every `A[i] ++ B[j]`, `i` in the outer and `j` in the inner loop, so
      `|A|·|B|` entries. */
  function Product<T>(A: seq<seq<T>>, B: seq<seq<T>>): (r: seq<seq<T>>)
    ensures |r| == |A| * |B|
    decreases |A|
  {
    if |A| == 0 then [] else Product(A[..|A| - 1], B) + Row(A[|A| - 1], B)
  }

  /** Entry `i·|B| + j` of the product is `A[i] ++ B[j]`: the outer loop runs over `A`, the inner over `B`. */
  lemma {:induction false} ProductAt<T>(A: seq<seq<T>>, B: seq<seq<T>>, i: nat, j: nat)
    requires i < |A| && j < |B|
    ensures i * |B| + j < |Product(A, B)| && Product(A, B)[i * |B| + j] == A[i] + B[j]
    decreases |A|
  {
    var n := |A|;
    var P := Product(A[..n - 1], B);
    assert |P| == (n - 1) * |B|;
    if i < n - 1 {
      ProductAt(A[..n - 1], B, i, j);
      assert i * |B| + j < (i + 1) * |B| <= (n - 1) * |B| by {
        MulMonotone(i + 1, n - 1, |B|);
      }
    } else {
      assert i * |B| + j == |P| + j;
    }
  }

  lemma MulMonotone(a: nat, b: nat, c: nat)
    requires a <= b
    ensures a * c <= b * c
  {
  }

  /** The merge loops of script.js: `out` grows by `A[i] ++ B[j]` for every pair, in loop order. */
  method Merge<T>(A: seq<seq<T>>, B: seq<seq<T>>) returns (out: seq<seq<T>>)
    ensures out == Product(A, B)
  {
    out := [];
    for i := 0 to |A|
      invariant out == Product(A[..i], B)
    {
      for j := 0 to |B|
        invariant out == Product(A[..i], B) + Row(A[i], B[..j])
      {
        assert Row(A[i], B[..j + 1]) == Row(A[i], B[..j]) + [A[i] + B[j]];
        out := out + [A[i] + B[j]];
      }
      assert B[..|B|] == B;
      assert A[..i + 1][..i] == A[..i];
    }
    assert A[..|A|] == A;
  }

  /** toCNF (script.js:258-274): a literal is one unit clause, `And` concatenates the clause lists of its operands,
      `Or` takes their merge; anything else (a quantifier, `Imp`, `Iff`, a negation above a non-predicate) fails.
      Exactly the And/Or trees over literals succeed, and every clause is non-empty. */
  function ToCnf(a: Formula): (r: Result<seq<Clause>>)
    ensures r.Ok? <==> AndOrOfLiterals(a)
    ensures r.Err? ==> r.error == UnexpectedForCnf
    ensures r.Ok? ==> |r.value| >= 1 && forall i :: 0 <= i < |r.value| ==> |r.value[i]| >= 1
    ensures IsLiteral(a) ==> r == Ok([[LitFromAst(a).value]])
  {
    if IsLiteral(a) then
      Ok([[LitFromAst(a).value]])
    else if a.And? then
      var L :- ToCnf(a.left);
      var R :- ToCnf(a.right);
      Ok(L + R)
    else if a.Or? then
      var L :- ToCnf(a.left);
      var R :- ToCnf(a.right);
      ProductNonEmpty(L, R);
      Ok(Product(L, R))
    else
      Err(UnexpectedForCnf)
  }

  /** toDNF (script.js:283-299): the dual, `Or` concatenating and `And` merging. */
  function ToDnf(a: Formula): (r: Result<seq<Clause>>)
    ensures r.Ok? <==> AndOrOfLiterals(a)
    ensures r.Err? ==> r.error == UnexpectedForDnf
    ensures r.Ok? ==> |r.value| >= 1 && forall i :: 0 <= i < |r.value| ==> |r.value[i]| >= 1
    ensures IsLiteral(a) ==> r == Ok([[LitFromAst(a).value]])
  {
    if IsLiteral(a) then
      Ok([[LitFromAst(a).value]])
    else if a.Or? then
      var L :- ToDnf(a.left);
      var R :- ToDnf(a.right);
      Ok(L + R)
    else if a.And? then
      var L :- ToDnf(a.left);
      var R :- ToDnf(a.right);
      ProductNonEmpty(L, R);
      Ok(Product(L, R))
    else
      Err(UnexpectedForDnf)
  }

  /** A product of non-empty lists of non-empty clauses is again one. */
  lemma {:induction false} ProductNonEmpty<T>(A: seq<seq<T>>, B: seq<seq<T>>)
    requires |A| >= 1 && |B| >= 1
    requires forall i :: 0 <= i < |A| ==> |A[i]| >= 1
    ensures |Product(A, B)| >= 1
    ensures forall k :: 0 <= k < |Product(A, B)| ==> |Product(A, B)[k]| >= 1
    decreases |A|
  {
    var n := |A|;
    if n > 1 {
      ProductNonEmpty(A[..n - 1], B);
    }
    MulMonotone(1, n, |B|);
  }

  /** The clause lists of an `And` node's operands, concatenated, hold exactly when both hold. */
  lemma CnfHoldsAppend(val: Atom -> bool, X: seq<Clause>, Y: seq<Clause>)
    ensures CnfHolds(val, X + Y) == (CnfHolds(val, X) && CnfHolds(val, Y))
  {
    if CnfHolds(val, X) && CnfHolds(val, Y) {
      forall k | 0 <= k < |X + Y|
        ensures ClauseHolds(val, (X + Y)[k])
      {
        if k >= |X| {
          assert (X + Y)[k] == Y[k - |X|];
        } else {
          assert (X + Y)[k] == X[k];
        }
      }
    }
    if CnfHolds(val, X + Y) {
      forall k | 0 <= k < |X|
        ensures ClauseHolds(val, X[k])
      {
        assert (X + Y)[k] == X[k];
      }
      forall k | 0 <= k < |Y|
        ensures ClauseHolds(val, Y[k])
      {
        assert (X + Y)[|X| + k] == Y[k];
      }
    }
  }

  lemma ClauseHoldsAppend(val: Atom -> bool, a: Clause, b: Clause)
    ensures ClauseHolds(val, a + b) == (ClauseHolds(val, a) || ClauseHolds(val, b))
  {
    if ClauseHolds(val, a) {
      var k :| 0 <= k < |a| && LitHolds(val, a[k]);
      assert (a + b)[k] == a[k];
    }
    if ClauseHolds(val, b) {
      var k :| 0 <= k < |b| && LitHolds(val, b[k]);
      assert (a + b)[|a| + k] == b[k];
    }
    if ClauseHolds(val, a + b) {
      var k :| 0 <= k < |a + b| && LitHolds(val, (a + b)[k]);
      if k >= |a| {
        assert (a + b)[k] == b[k - |a|];
      } else {
        assert (a + b)[k] == a[k];
      }
    }
  }

  /** Every clause of the merge holds exactly when every clause of `A` holds or every clause of `B` does: the
      merge of two CNFs is the CNF of their disjunction. */
  lemma {:induction false} CnfHoldsProduct(val: Atom -> bool, A: seq<Clause>, B: seq<Clause>)
    ensures CnfHolds(val, Product(A, B)) == (CnfHolds(val, A) || CnfHolds(val, B))
    decreases |A|
  {
    if |A| > 0 {
      var n := |A|;
      var A' := A[..n - 1];
      var a := A[n - 1];
      CnfHoldsProduct(val, A', B);
      CnfHoldsAppend(val, Product(A', B), Row(a, B));
      assert A == A' + [a];
      CnfHoldsAppend(val, A', [a]);
      if CnfHolds(val, Row(a, B)) && !CnfHolds(val, B) {
        var j :| 0 <= j < |B| && !ClauseHolds(val, B[j]);
        ClauseHoldsAppend(val, a, B[j]);
      }
      if ClauseHolds(val, a) || CnfHolds(val, B) {
        forall j | 0 <= j < |B|
          ensures ClauseHolds(val, Row(a, B)[j])
        {
          ClauseHoldsAppend(val, a, B[j]);
        }
      }
    }
  }

  /** Some term of the concatenation holds exactly when some term of one of the two lists does. */
  lemma DnfHoldsAppend(val: Atom -> bool, X: seq<Clause>, Y: seq<Clause>)
    ensures DnfHolds(val, X + Y) == (DnfHolds(val, X) || DnfHolds(val, Y))
  {
    if DnfHolds(val, X) {
      var k :| 0 <= k < |X| && TermHolds(val, X[k]);
      assert (X + Y)[k] == X[k];
    }
    if DnfHolds(val, Y) {
      var k :| 0 <= k < |Y| && TermHolds(val, Y[k]);
      assert (X + Y)[|X| + k] == Y[k];
    }
    if DnfHolds(val, X + Y) {
      var k :| 0 <= k < |X + Y| && TermHolds(val, (X + Y)[k]);
      if k >= |X| {
        assert (X + Y)[k] == Y[k - |X|];
      } else {
        assert (X + Y)[k] == X[k];
      }
    }
  }

  lemma TermHoldsAppend(val: Atom -> bool, a: Clause, b: Clause)
    ensures TermHolds(val, a + b) == (TermHolds(val, a) && TermHolds(val, b))
  {
    if TermHolds(val, a + b) {
      forall k | 0 <= k < |a|
        ensures LitHolds(val, a[k])
      {
        assert (a + b)[k] == a[k];
      }
      forall k | 0 <= k < |b|
        ensures LitHolds(val, b[k])
      {
        assert (a + b)[|a| + k] == b[k];
      }
    }
    if TermHolds(val, a) && TermHolds(val, b) {
      forall k | 0 <= k < |a + b|
        ensures LitHolds(val, (a + b)[k])
      {
        if k >= |a| {
          assert (a + b)[k] == b[k - |a|];
        } else {
          assert (a + b)[k] == a[k];
        }
      }
    }
  }

  /** Some term of the merge holds exactly when some term of `A` and some term of `B` hold: the merge of two DNFs
      is the DNF of their conjunction. */
  lemma {:induction false} DnfHoldsProduct(val: Atom -> bool, A: seq<Clause>, B: seq<Clause>)
    ensures DnfHolds(val, Product(A, B)) == (DnfHolds(val, A) && DnfHolds(val, B))
    decreases |A|
  {
    if |A| > 0 {
      var n := |A|;
      var A' := A[..n - 1];
      var a := A[n - 1];
      DnfHoldsProduct(val, A', B);
      DnfHoldsAppend(val, Product(A', B), Row(a, B));
      assert A == A' + [a];
      DnfHoldsAppend(val, A', [a]);
      if DnfHolds(val, Row(a, B)) {
        var j :| 0 <= j < |B| && TermHolds(val, Row(a, B)[j]);
        TermHoldsAppend(val, a, B[j]);
      }
      if TermHolds(val, a) && DnfHolds(val, B) {
        var j :| 0 <= j < |B| && TermHolds(val, B[j]);
        TermHoldsAppend(val, a, B[j]);
        assert TermHolds(val, Row(a, B)[j]);
      }
    }
  }

  /** Under every truth assignment to the atoms, the CNF clause list holds exactly when the matrix does. */
  lemma {:induction false} ToCnfFaithful(val: Atom -> bool, a: Formula)
    requires ToCnf(a).Ok?
    ensures QuantifierFree(a)
    ensures CnfHolds(val, ToCnf(a).value) == Holds(val, a)
  {
    AndOrOfLiteralsIsQfNnf(a);
    if IsLiteral(a) {
      var l := LitFromAst(a).value;
      LitHoldsAsFormula(val, l);
      assert [[l]][0] == [l] && [l][0] == l;
      assert ClauseHolds(val, [l]) == LitHolds(val, l);
      assert CnfHolds(val, [[l]]) == ClauseHolds(val, [l]);
    } else if a.And? {
      ToCnfFaithful(val, a.left);
      ToCnfFaithful(val, a.right);
      CnfHoldsAppend(val, ToCnf(a.left).value, ToCnf(a.right).value);
    } else {
      ToCnfFaithful(val, a.left);
      ToCnfFaithful(val, a.right);
      CnfHoldsProduct(val, ToCnf(a.left).value, ToCnf(a.right).value);
    }
  }

  /** Under every truth assignment to the atoms, the DNF term list holds exactly when the matrix does. */
  lemma {:induction false} ToDnfFaithful(val: Atom -> bool, a: Formula)
    requires ToDnf(a).Ok?
    ensures QuantifierFree(a)
    ensures DnfHolds(val, ToDnf(a).value) == Holds(val, a)
  {
    AndOrOfLiteralsIsQfNnf(a);
    if IsLiteral(a) {
      var l := LitFromAst(a).value;
      LitHoldsAsFormula(val, l);
      assert [[l]][0] == [l] && [l][0] == l;
      assert TermHolds(val, [l]) == LitHolds(val, l);
      assert DnfHolds(val, [[l]]) == TermHolds(val, [l]);
    } else if a.Or? {
      ToDnfFaithful(val, a.left);
      ToDnfFaithful(val, a.right);
      DnfHoldsAppend(val, ToDnf(a.left).value, ToDnf(a.right).value);
    } else {
      ToDnfFaithful(val, a.left);
      ToDnfFaithful(val, a.right);
      DnfHoldsProduct(val, ToDnf(a.left).value, ToDnf(a.right).value);
    }
  }

  /** cnfMatrix: the recursion of toCNF with the merge loops run in place. */
  method CnfMatrix(a: Formula) returns (r: Result<seq<Clause>>)
    ensures r == ToCnf(a)
    decreases a
  {
    if IsLiteral(a) {
      return Ok([[LitFromAst(a).value]]);
    }
    if a.And? {
      var L :- CnfMatrix(a.left);
      var R :- CnfMatrix(a.right);
      return Ok(L + R);
    }
    if a.Or? {
      var L :- CnfMatrix(a.left);
      var R :- CnfMatrix(a.right);
      var out := Merge(L, R);
      return Ok(out);
    }
    return Err(UnexpectedForCnf);
  }

  /** dnfMatrix: the recursion of toDNF with the merge loops run in place. */
  method DnfMatrix(a: Formula) returns (r: Result<seq<Clause>>)
    ensures r == ToDnf(a)
    decreases a
  {
    if IsLiteral(a) {
      return Ok([[LitFromAst(a).value]]);
    }
    if a.Or? {
      var L :- DnfMatrix(a.left);
      var R :- DnfMatrix(a.right);
      return Ok(L + R);
    }
    if a.And? {
      var L :- DnfMatrix(a.left);
      var R :- DnfMatrix(a.right);
      var out := Merge(L, R);
      return Ok(out);
    }
    return Err(UnexpectedForDnf);
  }

  /** `cl.filter(l => !l.neg)`: the positive literals of a clause, in order. */
  function Positives(cl: Clause): (r: seq<Literal>)
    ensures |r| <= |cl|
    ensures forall l :: l in r <==> l in cl && !l.neg
  {
    if |cl| == 0 then [] else (if cl[0].neg then [] else [cl[0]]) + Positives(cl[1..])
  }

  /** At most one positive literal means no two positions of the clause both hold a positive literal. */
  lemma {:induction false} AtMostOnePositive(cl: Clause)
    ensures |Positives(cl)| <= 1 <==> forall p, q :: 0 <= p < q < |cl| ==> cl[p].neg || cl[q].neg
  {
    if |cl| > 0 {
      var rest := cl[1..];
      AtMostOnePositive(rest);
      if !cl[0].neg {
        if |Positives(rest)| > 0 {
          var x := Positives(rest)[0];
          assert x in Positives(rest);
          var q :| 0 <= q < |rest| && rest[q] == x;
          assert cl[q + 1] == x;
        }
        if exists q :: 1 <= q < |cl| && !cl[q].neg {
          var q :| 1 <= q < |cl| && !cl[q].neg;
          assert rest[q - 1] in Positives(rest);
        }
      } else {
        forall p, q | 0 <= p < q < |cl| && !cl[p].neg
          ensures cl[q].neg || !(|Positives(rest)| <= 1)
        {
          assert cl[p] == rest[p - 1] && cl[q] == rest[q - 1];
        }
      }
    }
  }

  /** checkHornClause (script.js:320-323): true exactly when no clause has two positive literals. */
  function CheckHornClause(clauses: seq<Clause>): (r: bool)
    ensures r <==> forall i, p, q :: 0 <= i < |clauses| && 0 <= p < q < |clauses[i]| ==>
                     clauses[i][p].neg || clauses[i][q].neg
  {
    HornPositions(clauses);
    forall i :: 0 <= i < |clauses| ==> |Positives(clauses[i])| <= 1
  }

  lemma HornPositions(clauses: seq<Clause>)
    ensures (forall i :: 0 <= i < |clauses| ==> |Positives(clauses[i])| <= 1) <==>
            (forall i, p, q :: 0 <= i < |clauses| && 0 <= p < q < |clauses[i]| ==> clauses[i][p].neg || clauses[i][q].neg)
  {
    forall i | 0 <= i < |clauses| {
      AtMostOnePositive(clauses[i]);
    }
  }
}
