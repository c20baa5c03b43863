/** The recursive-descent parser of script.js:63-149. The grammar levels are first given as functions of the token
    list and a cursor position (each loop of the source becomes a tail function carrying the tree built so far);
    the class `Parser` then runs the source's algorithm with a mutable cursor `k` and is proved to agree with them. */
module Parser {
  import T = Tokens
  import opened Syntax
  import opened Outcomes
  import Lexer

  /** A parsed value and the cursor position after it. */
  datatype Parsed<X> = Parsed(value: X, next: nat)

  /** Where the parser may stand: a lexer token list and a cursor inside it. */
  predicate At(toks: seq<T.Token>, k: nat)
  {
    T.Stream(toks) && k < |toks|
  }

  /** eat (script.js:67-71): consume a token of the required kind or fail naming both kinds. The parser never eats
      `Eof`, so the cursor stays inside the list. */
  function EatAt(toks: seq<T.Token>, k: nat, kind: T.Kind): (r: Result<nat>)
    requires At(toks, k) && kind != T.Eof
    ensures r.Ok? <==> toks[k].kind == kind
    ensures r.Ok? ==> r.value == k + 1 && At(toks, r.value)
    ensures r.Err? ==> r.error == Expected(kind, toks[k].kind)
  {
    if toks[k].kind == kind then Ok(k + 1) else Err(Expected(kind, toks[k].kind))
  }

  /** parseTerm (script.js:73-88): a variable, or a function symbol applied to a parenthesised argument list. */
  function TermAt(toks: seq<T.Token>, k: nat): (r: Result<Parsed<Term>>)
    requires At(toks, k)
    ensures r.Ok? ==> k < r.value.next < |toks|
    decreases |toks| - k, 0
  {
    if toks[k].kind != T.Id then Err(ExpectedTerm(toks[k].kind))
    else if toks[k + 1].kind == T.LParen then
      var args :- ArgListAt(toks, k + 2);
      Ok(Parsed(Func(toks[k].value, args.value), args.next))
    else Ok(Parsed(Var(toks[k].value), k + 1))
  }

  /** The argument list after `(` up to and including `)` (script.js:79-84 and 96-101). */
  function ArgListAt(toks: seq<T.Token>, k: nat): (r: Result<Parsed<seq<Term>>>)
    requires At(toks, k)
    ensures r.Ok? ==> k < r.value.next < |toks|
    decreases |toks| - k, 1
  {
    if toks[k].kind != T.RParen then
      var first :- TermAt(toks, k);
      var all :- ArgsTailAt(toks, first.next, [first.value]);
      var close :- EatAt(toks, all.next, T.RParen);
      Ok(Parsed(all.value, close))
    else
      Ok(Parsed([], k + 1))
  }

  /** The `while (peek().type === TT.COMMA)` loop collecting further arguments after `acc`. */
  function ArgsTailAt(toks: seq<T.Token>, k: nat, acc: seq<Term>): (r: Result<Parsed<seq<Term>>>)
    requires At(toks, k)
    ensures r.Ok? ==> k <= r.value.next < |toks| && toks[r.value.next].kind != T.Comma
    ensures r.Ok? ==> |r.value.value| >= |acc| && r.value.value[..|acc|] == acc
    decreases |toks| - k, 0
  {
    if toks[k].kind == T.Comma then
      var t :- TermAt(toks, k + 1);
      var r := ArgsTailAt(toks, t.next, acc + [t.value]);
      assert r.Ok? ==> r.value.value[..|acc|] == (acc + [t.value])[..|acc|];
      r
    else Ok(Parsed(acc, k))
  }

  /** parseAtom (script.js:90-107): a predicate symbol with an optional argument list. */
  function AtomAt(toks: seq<T.Token>, k: nat): (r: Result<Parsed<Formula>>)
    requires At(toks, k)
    ensures r.Ok? ==> k < r.value.next < |toks| && r.value.value.Pred?
    decreases |toks| - k, 2
  {
    if toks[k].kind == T.Pred then
      if toks[k + 1].kind == T.LParen then
        var args :- ArgListAt(toks, k + 2);
        Ok(Parsed(Pred(toks[k].value, args.value), args.next))
      else Ok(Parsed(Pred(toks[k].value, []), k + 1))
    else Err(ExpectedPredicate(toks[k].kind))
  }

  /** parseQN (script.js:109-122): a quantifier with its variable, an optional period and an implication-level
      body; a negation of a unit; a parenthesised formula; or an atom. */
  function UnitAt(toks: seq<T.Token>, k: nat): (r: Result<Parsed<Formula>>)
    requires At(toks, k)
    ensures r.Ok? ==> k < r.value.next < |toks|
    decreases |toks| - k, 3
  {
    if toks[k].kind == T.Forall || toks[k].kind == T.Exists then
      var afterVar :- EatAt(toks, k + 1, T.Id);
      var start := if toks[afterVar].kind == T.Dot then afterVar + 1 else afterVar;
      var body :- ImpAt(toks, start);
      var v := toks[k + 1].value;
      Ok(Parsed(if toks[k].kind == T.Forall then ForAll(v, body.value) else Exists(v, body.value), body.next))
    else if toks[k].kind == T.Neg then
      var s :- UnitAt(toks, k + 1);
      Ok(Parsed(Not(s.value), s.next))
    else if toks[k].kind == T.LParen then
      var f :- ImpAt(toks, k + 1);
      var close :- EatAt(toks, f.next, T.RParen);
      Ok(Parsed(f.value, close))
    else AtomAt(toks, k)
  }

  /** parseAnd (script.js:124-128). It stops only at a token other than `\land`. */
  function AndAt(toks: seq<T.Token>, k: nat): (r: Result<Parsed<Formula>>)
    requires At(toks, k)
    ensures r.Ok? ==> k < r.value.next < |toks| && toks[r.value.next].kind != T.And
    decreases |toks| - k, 4
  {
    var first :- UnitAt(toks, k);
    AndTailAt(toks, first.next, first.value)
  }

  /** The loop of parseAnd: each `\land` makes the tree so far the left operand. */
  function AndTailAt(toks: seq<T.Token>, k: nat, acc: Formula): (r: Result<Parsed<Formula>>)
    requires At(toks, k)
    ensures r.Ok? ==> k <= r.value.next < |toks| && toks[r.value.next].kind != T.And
    decreases |toks| - k, 4
  {
    if toks[k].kind == T.And then
      var m :- UnitAt(toks, k + 1);
      AndTailAt(toks, m.next, And(acc, m.value))
    else Ok(Parsed(acc, k))
  }

  /** parseOr (script.js:130-134). It stops only at a token other than `\land` and `\lor`. */
  function OrAt(toks: seq<T.Token>, k: nat): (r: Result<Parsed<Formula>>)
    requires At(toks, k)
    ensures r.Ok? ==> k < r.value.next < |toks| && toks[r.value.next].kind !in {T.And, T.Or}
    decreases |toks| - k, 5
  {
    var first :- AndAt(toks, k);
    OrTailAt(toks, first.next, first.value)
  }

  /** The loop of parseOr. */
  function OrTailAt(toks: seq<T.Token>, k: nat, acc: Formula): (r: Result<Parsed<Formula>>)
    requires At(toks, k)
    ensures r.Ok? ==> k <= r.value.next < |toks| && toks[r.value.next].kind != T.Or
    ensures r.Ok? && toks[k].kind != T.And ==> toks[r.value.next].kind != T.And
    decreases |toks| - k, 5
  {
    if toks[k].kind == T.Or then
      var m :- AndAt(toks, k + 1);
      OrTailAt(toks, m.next, Or(acc, m.value))
    else Ok(Parsed(acc, k))
  }

  /** parseImp (script.js:136-144). A complete implication-level formula ends at a token that cannot extend it. */
  function ImpAt(toks: seq<T.Token>, k: nat): (r: Result<Parsed<Formula>>)
    requires At(toks, k)
    ensures r.Ok? ==> k < r.value.next < |toks| && toks[r.value.next].kind !in {T.And, T.Or, T.Imp, T.Iff}
    decreases |toks| - k, 6
  {
    var first :- OrAt(toks, k);
    ImpTailAt(toks, first.next, first.value)
  }

  /** The loop of parseImp: `\to` and `\leftrightarrow` alternate freely at one level, left-associatively. */
  function ImpTailAt(toks: seq<T.Token>, k: nat, acc: Formula): (r: Result<Parsed<Formula>>)
    requires At(toks, k)
    ensures r.Ok? ==> k <= r.value.next < |toks| && toks[r.value.next].kind !in {T.Imp, T.Iff}
    ensures r.Ok? && toks[k].kind !in {T.And, T.Or} ==> toks[r.value.next].kind !in {T.And, T.Or}
    decreases |toks| - k, 6
  {
    if toks[k].kind == T.Imp then
      var m :- OrAt(toks, k + 1);
      ImpTailAt(toks, m.next, Imp(acc, m.value))
    else if toks[k].kind == T.Iff then
      var m :- OrAt(toks, k + 1);
      ImpTailAt(toks, m.next, Iff(acc, m.value))
    else Ok(Parsed(acc, k))
  }

  /** The body of parse after tokenizing (script.js:146-148): one implication-level formula, then `Eof`.
      It succeeds exactly when that formula spans every token before `Eof`. */
  function ParseTokens(toks: seq<T.Token>): (r: Result<Formula>)
    requires T.Stream(toks)
    ensures r.Ok? <==> ImpAt(toks, 0).Ok? && ImpAt(toks, 0).value.next == |toks| - 1
    ensures r.Ok? ==> r.value == ImpAt(toks, 0).value.value
  {
    var f :- ImpAt(toks, 0);
    if toks[f.next].kind != T.Eof then Err(TrailingTokens(toks[f.next].kind)) else Ok(f.value)
  }

  /** parse (script.js:63-149): tokenize, then parse the tokens. */
  function ParseInput(input: string): (r: Result<Formula>)
    ensures Lexer.Lex(Lexer.Preprocess(input)).Err? ==> r == Err(Lexer.Lex(Lexer.Preprocess(input)).error)
    ensures Lexer.Lex(Lexer.Preprocess(input)).Ok? ==> r == ParseTokens(Lexer.Lex(Lexer.Preprocess(input)).value)
  {
    var toks :- Lexer.Lex(Lexer.Preprocess(input));
    ParseTokens(toks)
  }

  /** A method's result and cursor agree with a parsing function's result. */
  predicate Agrees<X(==)>(r: Result<X>, s: Result<Parsed<X>>, k: nat)
  {
    match s
    case Ok(p) => r == Ok(p.value) && k == p.next
    case Err(e) => r == Err(e)
  }

  /** The parser's state: the token list and the cursor `k` of script.js:65. */
  class Parser {
    const toks: seq<T.Token>
    var k: nat

    ghost predicate Valid()
      reads this
    {
      At(toks, k)
    }

    constructor (toks: seq<T.Token>)
      requires T.Stream(toks)
      ensures Valid() && this.toks == toks && k == 0
    {
      this.toks := toks;
      k := 0;
    }

    /** eat: on success the cursor moves past the eaten token. */
    method Eat(kind: T.Kind) returns (r: Result<T.Token>)
      requires Valid() && kind != T.Eof
      modifies this`k
      ensures Valid()
      ensures r.Ok? ==> r.value == toks[old(k)] && EatAt(toks, old(k), kind) == Ok(k)
      ensures r.Err? ==> EatAt(toks, old(k), kind) == Err(r.error) && k == old(k)
    {
      var t := toks[k];
      if t.kind != kind {
        return Err(Expected(kind, t.kind));
      }
      k := k + 1;
      return Ok(t);
    }

    method ParseTerm() returns (r: Result<Term>)
      requires Valid()
      modifies this`k
      ensures Valid() && Agrees(r, TermAt(toks, old(k)), k)
      decreases |toks| - k, 0
    {
      var t := toks[k];
      if t.kind != T.Id {
        return Err(ExpectedTerm(t.kind));
      }
      var id := Eat(T.Id);
      if toks[k].kind == T.LParen {
        var lp := Eat(T.LParen);
        var args :- ParseArgs();
        return Ok(Func(t.value, args));
      }
      return Ok(Var(t.value));
    }

    /** The argument list after `(`, shared by terms and atoms. */
    method ParseArgs() returns (r: Result<seq<Term>>)
      requires Valid()
      modifies this`k
      ensures Valid() && Agrees(r, ArgListAt(toks, old(k)), k)
      decreases |toks| - k, 1
    {
      var args: seq<Term> := [];
      if toks[k].kind != T.RParen {
        var first :- ParseTerm();
        args := [first];
        ghost var k1 := k;
        while toks[k].kind == T.Comma
          invariant Valid() && old(k) < k1 <= k
          invariant TermAt(toks, old(k)) == Ok(Parsed(first, k1))
          invariant ArgsTailAt(toks, k, args) == ArgsTailAt(toks, k1, [first])
          decreases |toks| - k
        {
          var comma := Eat(T.Comma);
          var a :- ParseTerm();
          args := args + [a];
        }
      }
      var close :- Eat(T.RParen);
      return Ok(args);
    }

    method ParseAtom() returns (r: Result<Formula>)
      requires Valid()
      modifies this`k
      ensures Valid() && Agrees(r, AtomAt(toks, old(k)), k)
      decreases |toks| - k, 2
    {
      var t := toks[k];
      if t.kind == T.Pred {
        var p := Eat(T.Pred);
        if toks[k].kind == T.LParen {
          var lp := Eat(T.LParen);
          var args :- ParseArgs();
          return Ok(Pred(t.value, args));
        }
        return Ok(Pred(t.value, []));
      }
      return Err(ExpectedPredicate(t.kind));
    }

    /** parseQN */
    method ParseUnit() returns (r: Result<Formula>)
      requires Valid()
      modifies this`k
      ensures Valid() && Agrees(r, UnitAt(toks, old(k)), k)
      decreases |toks| - k, 3
    {
      var t := toks[k];
      if t.kind == T.Forall || t.kind == T.Exists {
        var isFor := t.kind == T.Forall;
        var q := Eat(t.kind);
        var v :- Eat(T.Id);
        if toks[k].kind == T.Dot {
          var dot := Eat(T.Dot);
        }
        var sub :- ParseImp();
        return Ok(if isFor then ForAll(v.value, sub) else Exists(v.value, sub));
      }
      if t.kind == T.Neg {
        var neg := Eat(T.Neg);
        var s :- ParseUnit();
        return Ok(Not(s));
      }
      if t.kind == T.LParen {
        var lp := Eat(T.LParen);
        var f :- ParseImp();
        var rp :- Eat(T.RParen);
        return Ok(f);
      }
      r := ParseAtom();
    }

    method ParseAnd() returns (r: Result<Formula>)
      requires Valid()
      modifies this`k
      ensures Valid() && Agrees(r, AndAt(toks, old(k)), k)
      decreases |toks| - k, 4
    {
      var n :- ParseUnit();
      ghost var k1, n1 := k, n;
      while toks[k].kind == T.And
        invariant Valid() && old(k) < k1 <= k
        invariant UnitAt(toks, old(k)) == Ok(Parsed(n1, k1))
        invariant AndTailAt(toks, k, n) == AndTailAt(toks, k1, n1)
        decreases |toks| - k
      {
        var op := Eat(T.And);
        var m :- ParseUnit();
        n := And(n, m);
      }
      return Ok(n);
    }

    method ParseOr() returns (r: Result<Formula>)
      requires Valid()
      modifies this`k
      ensures Valid() && Agrees(r, OrAt(toks, old(k)), k)
      decreases |toks| - k, 5
    {
      var n :- ParseAnd();
      ghost var k1, n1 := k, n;
      while toks[k].kind == T.Or
        invariant Valid() && old(k) < k1 <= k
        invariant AndAt(toks, old(k)) == Ok(Parsed(n1, k1))
        invariant OrTailAt(toks, k, n) == OrTailAt(toks, k1, n1)
        decreases |toks| - k
      {
        var op := Eat(T.Or);
        var m :- ParseAnd();
        n := Or(n, m);
      }
      return Ok(n);
    }

    method ParseImp() returns (r: Result<Formula>)
      requires Valid()
      modifies this`k
      ensures Valid() && Agrees(r, ImpAt(toks, old(k)), k)
      decreases |toks| - k, 6
    {
      var n :- ParseOr();
      ghost var k1, n1 := k, n;
      while toks[k].kind == T.Imp || toks[k].kind == T.Iff
        invariant Valid() && old(k) < k1 <= k
        invariant OrAt(toks, old(k)) == Ok(Parsed(n1, k1))
        invariant ImpTailAt(toks, k, n) == ImpTailAt(toks, k1, n1)
        decreases |toks| - k
      {
        // `\to` and `\leftrightarrow` differ only in the node they build
        var isImp := toks[k].kind == T.Imp;
        var op := Eat(toks[k].kind);
        var m :- ParseOr();
        n := if isImp then Imp(n, m) else Iff(n, m);
      }
      return Ok(n);
    }
  }

  /** parse (script.js:63-149): tokenize, parse one implication-level formula, and reject leftover tokens. */
  method Parse(input: string) returns (r: Result<Formula>)
    ensures r == ParseInput(input)
  {
    var toks :- Lexer.Tokenize(input);
    var p := new Parser(toks);
    var ast :- p.ParseImp();
    if p.toks[p.k].kind != T.Eof {
      return Err(TrailingTokens(p.toks[p.k].kind));
    }
    return Ok(ast);
  }
}
