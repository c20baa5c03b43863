/** Fresh symbols: `fresh(pref)` returns `pref + ++gensym` (script.js:152-153). The counter is threaded
    explicitly: `Fresh(pref, n)` is the name produced when the counter holds `n`, and the counter then holds `n + 1`. */
module Names {
  /** Decimal rendering of a natural number, as JavaScript's number-to-string conversion gives it. */
  function Dec(n: nat): (s: string)
    ensures |s| > 0
    ensures forall i :: 0 <= i < |s| ==> '0' <= s[i] <= '9'
  {
    if n < 10 then [Digit(n)] else Dec(n / 10) + [Digit(n % 10)]
  }

  function Digit(d: nat): (c: char)
    requires d < 10
    ensures '0' <= c <= '9'
  {
    "0123456789"[d]
  }

  /** Different numbers render differently. */
  lemma {:induction false} DecInjective(a: nat, b: nat)
    requires Dec(a) == Dec(b)
    ensures a == b
  {
    if a >= 10 && b >= 10 {
      var sa, sb := Dec(a), Dec(b);
      assert sa[..|sa| - 1] == Dec(a / 10);
      assert sb[..|sb| - 1] == Dec(b / 10);
      DecInjective(a / 10, b / 10);
      assert Digit(a % 10) == Digit(b % 10);
    } else if a < 10 && b < 10 {
      assert Digit(a) == Digit(b);
    }
  }

  /** The symbol `fresh(pref)` returns when the counter holds `n`. */
  function Fresh(pref: string, n: nat): (s: string)
  {
    pref + Dec(n + 1)
  }

  /** A fresh symbol is its prefix followed by a non-empty run of decimal digits. */
  lemma FreshShape(pref: string, n: nat)
    ensures var s := Fresh(pref, n);
      |s| > |pref| && s[..|pref|] == pref && forall i :: |pref| <= i < |s| ==> '0' <= s[i] <= '9'
  {
  }

  /** Fresh symbols with one prefix never repeat: distinct counter values give distinct names. */
  lemma FreshInjective(pref: string, a: nat, b: nat)
    requires Fresh(pref, a) == Fresh(pref, b)
    ensures a == b
  {
    assert Fresh(pref, a)[|pref|..] == Dec(a + 1);
    assert Fresh(pref, b)[|pref|..] == Dec(b + 1);
    DecInjective(a + 1, b + 1);
  }

  /** The `q` names `fresh(pref)` returns in a row, starting from counter value `n`. */
  function FreshRun(pref: string, n: nat, q: nat): (names: seq<string>)
    ensures |names| == q
    ensures forall i :: 0 <= i < q ==> names[i] == Fresh(pref, n + i)
  {
    seq(q, i requires 0 <= i < q => Fresh(pref, n + i))
  }

  /** A run of fresh names has no repetition. */
  lemma FreshRunDistinct(pref: string, n: nat, q: nat)
    ensures forall i, j :: 0 <= i < j < q ==> FreshRun(pref, n, q)[i] != FreshRun(pref, n, q)[j]
  {
    forall i, j | 0 <= i < j < q
      ensures FreshRun(pref, n, q)[i] != FreshRun(pref, n, q)[j]
    {
      if FreshRun(pref, n, q)[i] == FreshRun(pref, n, q)[j] {
        FreshInjective(pref, n + i, n + j);
      }
    }
  }

  /** Two consecutive runs make one run. */
  lemma FreshRunSplit(pref: string, n: nat, p: nat, q: nat)
    ensures FreshRun(pref, n, p) + FreshRun(pref, n + p, q) == FreshRun(pref, n, p + q)
  {
  }
}
