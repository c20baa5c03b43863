/** The tokenizer of script.js:13-48: input normalisation, then a left-to-right scan with a cursor `i` that pushes
    tokens and ends with exactly one `Eof`, or fails at the first character no token can start with. */
module Lexer {
  import opened Tokens
  import opened Outcomes

  /** The characters JavaScript's `\s` matches. */
  predicate IsSpace(c: char)
  {
    c == ' ' || c == '\t' || c == '\n' || c == '\r' || c == '\U{000B}' || c == '\U{000C}'
    || c == '\U{00A0}' || c == '\U{1680}' || ('\U{2000}' <= c <= '\U{200A}') || c == '\U{2028}'
    || c == '\U{2029}' || c == '\U{202F}' || c == '\U{205F}' || c == '\U{3000}' || c == '\U{FEFF}'
  }

  predicate IsUpper(c: char) { 'A' <= c <= 'Z' }
  predicate IsDigit(c: char) { '0' <= c <= '9' }

  /** `/[A-Za-z]/` (script.js:18). */
  predicate IsLetter(c: char) { IsUpper(c) || 'a' <= c <= 'z' }

  /** `/[A-Za-z0-9_]/` (script.js:19). */
  predicate IsIdentChar(c: char) { IsLetter(c) || IsDigit(c) || c == '_' }

  /** Letters are neither blanks nor digits, and an identifier character is never a blank, a backslash or a
      punctuation character the scan gives a token of its own, so the branches of the scan do not overlap. */
  lemma IdentCharClass(c: char)
    ensures IsLetter(c) ==> !IsSpace(c) && !IsDigit(c)
    ensures IsIdentChar(c) ==> !IsSpace(c) && c !in "\\(),.{}"
  {
  }

  /** The whitespace run starting at `s[0]`, dropped. */
  function DropSpaces(s: string): (r: string)
    ensures |r| <= |s| && r == s[|s| - |r|..]
    ensures r == [] || !IsSpace(r[0])
    ensures s != [] && IsSpace(s[0]) ==> |r| < |s|
  {
    if s != [] && IsSpace(s[0]) then DropSpaces(s[1..]) else s
  }

  /** `s` with its whitespace dropped, the other characters kept in order. */
  function NonSpace(s: string): string
  {
    if s == [] then [] else (if IsSpace(s[0]) then [] else [s[0]]) + NonSpace(s[1..])
  }

  lemma {:induction false} NonSpaceAppend(a: string, b: string)
    ensures NonSpace(a + b) == NonSpace(a) + NonSpace(b)
  {
    if a == [] {
      assert a + b == b;
    } else {
      assert (a + b)[0] == a[0] && (a + b)[1..] == a[1..] + b;
      NonSpaceAppend(a[1..], b);
      var h := if IsSpace(a[0]) then [] else [a[0]];
      assert NonSpace(a + b) == h + (NonSpace(a[1..]) + NonSpace(b));
      assert NonSpace(a) == h + NonSpace(a[1..]);
    }
  }

  lemma {:induction false} NonSpaceOfSpaces(s: string)
    requires forall k :: 0 <= k < |s| ==> IsSpace(s[k])
    ensures NonSpace(s) == []
  {
    if s != [] {
      NonSpaceOfSpaces(s[1..]);
    }
  }

  /** Dropping a whitespace run drops no other character. */
  lemma {:induction false} NonSpaceDropSpaces(s: string)
    ensures NonSpace(DropSpaces(s)) == NonSpace(s)
  {
    if s != [] && IsSpace(s[0]) {
      NonSpaceDropSpaces(s[1..]);
    }
  }

  /** The only whitespace is the blank, and no two blanks are adjacent. */
  predicate Collapsed(r: string)
  {
    && (forall k :: 0 <= k < |r| && IsSpace(r[k]) ==> r[k] == ' ')
    && (forall k :: 0 <= k < |r| - 1 ==> !(r[k] == ' ' && r[k + 1] == ' '))
  }

  /** A character in front of a collapsed text keeps it collapsed when it is not other whitespace and, if a blank,
      is not followed by one. */
  lemma CollapsedCons(c: char, rest: string)
    requires Collapsed(rest) && (IsSpace(c) ==> c == ' ')
    requires c == ' ' ==> rest == [] || rest[0] != ' '
    ensures Collapsed([c] + rest)
  {
    var r := [c] + rest;
    forall k | 0 < k < |r|
      ensures r[k] == rest[k - 1]
    {
    }
  }

  /** `replace(/\s+/g, " ")`: every maximal whitespace run becomes one blank. Only blanks are left as whitespace,
      no two of them adjacent, and the other characters are those of the input, in order. */
  function Collapse(s: string): (r: string)
    ensures Collapsed(r)
    ensures s != [] && !IsSpace(s[0]) ==> r != [] && r[0] == s[0]
    ensures NonSpace(r) == NonSpace(s)
    decreases |s|
  {
    if s == [] then []
    else if IsSpace(s[0]) then
      var rest := Collapse(DropSpaces(s));
      NonSpaceDropSpaces(s);
      assert ([' '] + rest)[1..] == rest;
      CollapsedCons(' ', rest);
      [' '] + rest
    else
      var rest := Collapse(s[1..]);
      assert ([s[0]] + rest)[1..] == rest;
      CollapsedCons(s[0], rest);
      [s[0]] + rest
  }

  /** A whitespace run in front of a text with a non-whitespace character is dropped on its own; what is left of
      the text still ends in that character. */
  lemma {:induction false} DropSpacesAppend(a: string, b: string)
    requires a != [] && !IsSpace(a[|a| - 1])
    ensures DropSpaces(a + b) == DropSpaces(a) + b
    ensures DropSpaces(a) != [] && DropSpaces(a)[|DropSpaces(a)| - 1] == a[|a| - 1]
    decreases |a|
  {
    assert (a + b)[0] == a[0];
    if IsSpace(a[0]) {
      assert (a + b)[1..] == a[1..] + b;
      DropSpacesAppend(a[1..], b);
    }
  }

  /** A text that is one whitespace run followed by `b` loses exactly the run. */
  lemma {:induction false} DropSpacesRun(w: string, b: string)
    requires forall k :: 0 <= k < |w| ==> IsSpace(w[k])
    requires b == [] || !IsSpace(b[0])
    ensures DropSpaces(w + b) == b
  {
    if w == [] {
      assert w + b == b;
    } else {
      assert (w + b)[0] == w[0] && (w + b)[1..] == w[1..] + b;
      DropSpacesRun(w[1..], b);
    }
  }

  /** Collapse works run by run: a text cut after a non-whitespace character collapses in two independent parts. */
  lemma {:induction false} CollapseAppend(a: string, b: string)
    requires a == [] || !IsSpace(a[|a| - 1])
    ensures Collapse(a + b) == Collapse(a) + Collapse(b)
    decreases |a|
  {
    if a == [] {
      assert a + b == b;
    } else if IsSpace(a[0]) {
      assert (a + b)[0] == a[0];
      DropSpacesAppend(a, b);
      var d := DropSpaces(a);
      CollapseAppend(d, b);
      assert Collapse(a + b) == [' '] + Collapse(d + b);
      assert Collapse(a) == [' '] + Collapse(d);
      ConsAppend(' ', Collapse(d), Collapse(b));
    } else {
      var c, t := a[0], a[1..];
      assert (a + b)[0] == c && (a + b)[1..] == t + b;
      assert t == [] || t[|t| - 1] == a[|a| - 1];
      CollapseAppend(t, b);
      assert Collapse(a + b) == [c] + Collapse(t + b);
      assert Collapse(a) == [c] + Collapse(t);
      ConsAppend(c, Collapse(t), Collapse(b));
    }
  }

  lemma ConsAppend(c: char, x: string, y: string)
    ensures [c] + (x + y) == ([c] + x) + y
  {
  }

  /** A whole whitespace run, whatever its length and characters, becomes one blank; alone it collapses to " ". */
  lemma CollapseBlankRun(w: string, b: string)
    requires w != [] && forall k :: 0 <= k < |w| ==> IsSpace(w[k])
    requires b == [] || !IsSpace(b[0])
    ensures Collapse(w + b) == [' '] + Collapse(b)
    ensures b == [] ==> Collapse(w) == " "
  {
    assert (w + b)[0] == w[0];
    DropSpacesRun(w, b);
    assert w + [] == w;
  }

  /** A collapsed text is left unchanged, so collapsing twice is collapsing once; in particular a single
      non-whitespace character collapses to itself. */
  lemma {:induction false} CollapseOfCollapsed(s: string)
    requires Collapsed(s)
    ensures Collapse(s) == s
    ensures Collapse(Collapse(s)) == Collapse(s)
  {
    if s != [] {
      assert Collapsed(s[1..]) by {
        assert forall k :: 0 <= k < |s| - 1 ==> s[1..][k] == s[k + 1];
      }
      CollapseOfCollapsed(s[1..]);
      if IsSpace(s[0]) {
        assert s[1..] == [] || s[1] != ' ';
        assert DropSpaces(s[1..]) == s[1..];
      }
    }
  }

  /** Collapsing a text gives a collapsed text, so Collapse is idempotent on every input. */
  lemma CollapseIdempotent(s: string)
    ensures Collapse(Collapse(s)) == Collapse(s)
  {
    CollapseOfCollapsed(Collapse(s));
  }

  predicate IsBrace(c: char) { c == '{' || c == '}' }

  /** `replace(/[{}]/g, "")`: braces are deleted and every other character is kept. The result holds no brace and
      exactly the other characters of the input, and a text without braces is left as it is; with
      StripBracesAppend, which says that the characters are treated one by one in order, this determines the
      result. */
  function StripBraces(s: string): (r: string)
    ensures forall c :: c in r <==> c in s && !IsBrace(c)
    ensures |r| <= |s|
    ensures '{' !in s && '}' !in s ==> r == s
  {
    if s == [] then []
    else if IsBrace(s[0]) then StripBraces(s[1..])
    else
      assert s == [s[0]] + s[1..];
      [s[0]] + StripBraces(s[1..])
  }

  /** StripBraces works character by character, so it keeps the order of what it keeps: stripping a
      concatenation concatenates the stripped parts. */
  lemma {:induction false} StripBracesAppend(a: string, b: string)
    ensures StripBraces(a + b) == StripBraces(a) + StripBraces(b)
  {
    if a == [] {
      assert a + b == b;
    } else {
      assert a + b == [a[0]] + (a[1..] + b);
      StripBracesCons(a[0], a[1..] + b);
      StripBracesAppend(a[1..], b);
    }
  }

  lemma StripBracesCons(c: char, t: string)
    ensures StripBraces([c] + t) == (if IsBrace(c) then [] else [c]) + StripBraces(t)
  {
    assert ([c] + t)[0] == c && ([c] + t)[1..] == t;
  }

  /** Deleting braces and dropping whitespace can be done in either order. */
  lemma {:induction false} NonSpaceStripBraces(s: string)
    ensures NonSpace(StripBraces(s)) == StripBraces(NonSpace(s))
  {
    if s != [] {
      var c, t := s[0], s[1..];
      assert s == [c] + t;
      NonSpaceStripBraces(t);
      StripBracesCons(c, t);
      NonSpaceCons(c, t);
      if IsBrace(c) {
        StripBracesCons(c, NonSpace(t));
      } else if IsSpace(c) {
        NonSpaceCons(c, StripBraces(t));
        assert StripBraces(s) == [c] + StripBraces(t);
        assert NonSpace(StripBraces(s)) == NonSpace(StripBraces(t));
        assert NonSpace(s) == NonSpace(t);
      } else {
        StripBracesCons(c, NonSpace(t));
        NonSpaceCons(c, StripBraces(t));
      }
    }
  }

  lemma NonSpaceCons(c: char, t: string)
    ensures NonSpace([c] + t) == (if IsSpace(c) then [] else [c]) + NonSpace(t)
  {
    assert ([c] + t)[0] == c && ([c] + t)[1..] == t;
  }

  /** Index of the first non-whitespace character (or |s|). */
  function TrimStart(s: string): (a: nat)
    ensures a <= |s| && (a < |s| ==> !IsSpace(s[a]))
    ensures forall k :: 0 <= k < a ==> IsSpace(s[k])
  {
    if s == [] || !IsSpace(s[0]) then 0 else 1 + TrimStart(s[1..])
  }

  /** One past the index of the last non-whitespace character (or 0). */
  function TrimEnd(s: string): (b: nat)
    ensures b <= |s| && (b > 0 ==> !IsSpace(s[b - 1]))
    ensures forall k :: b <= k < |s| ==> IsSpace(s[k])
  {
    if s == [] || !IsSpace(s[|s| - 1]) then |s| else TrimEnd(s[..|s| - 1])
  }

  /** `trim()`: the input without its leading and trailing whitespace. The result is the slice of `s` that starts
      at the first non-whitespace character; everything outside it is whitespace, and it neither starts nor ends
      with whitespace. */
  function Trim(s: string): (r: string)
    ensures TrimStart(s) + |r| <= |s| && r == s[TrimStart(s)..TrimStart(s) + |r|]
    ensures forall k :: 0 <= k < TrimStart(s) ==> IsSpace(s[k])
    ensures forall k :: TrimStart(s) + |r| <= k < |s| ==> IsSpace(s[k])
    ensures r == [] || (!IsSpace(r[0]) && !IsSpace(r[|r| - 1]))
  {
    var a := TrimStart(s);
    var b := TrimEnd(s);
    if a < b then s[a..b] else []
  }

  /** Trimming drops whitespace only. */
  lemma NonSpaceTrim(s: string)
    ensures NonSpace(Trim(s)) == NonSpace(s)
  {
    var a := TrimStart(s);
    NonSpaceSlice(s, a, a + |Trim(s)|);
  }

  /** A slice outside which there is only whitespace keeps every other character. */
  lemma NonSpaceSlice(s: string, a: nat, e: nat)
    requires a <= e <= |s|
    requires forall k :: 0 <= k < a ==> IsSpace(s[k])
    requires forall k :: e <= k < |s| ==> IsSpace(s[k])
    ensures NonSpace(s[a..e]) == NonSpace(s)
  {
    var t := s[a..];
    assert t[..e - a] == s[a..e];
    assert forall k :: e - a <= k < |t| ==> t[k] == s[a + k];
    NonSpaceDropTail(t, e - a);
    NonSpaceDropHead(s, a);
  }

  /** Dropping a leading whitespace run keeps every other character. */
  lemma {:induction false} NonSpaceDropHead(s: string, a: nat)
    requires a <= |s|
    requires forall k :: 0 <= k < a ==> IsSpace(s[k])
    ensures NonSpace(s[a..]) == NonSpace(s)
  {
    if a == 0 {
      assert s[a..] == s;
    } else {
      assert s[1..][a - 1..] == s[a..];
      NonSpaceDropHead(s[1..], a - 1);
    }
  }

  /** Dropping a trailing whitespace run keeps every other character. */
  lemma {:induction false} NonSpaceDropTail(s: string, e: nat)
    requires e <= |s|
    requires forall k :: e <= k < |s| ==> IsSpace(s[k])
    ensures NonSpace(s[..e]) == NonSpace(s)
  {
    if e == 0 {
      assert s[..e] == [];
      NonSpaceOfSpaces(s);
    } else {
      var t := s[..e];
      assert t[0] == s[0] && t[1..] == s[1..][..e - 1];
      NonSpaceDropTail(s[1..], e - 1);
    }
  }

  /** A word: a non-empty run of non-whitespace characters. */
  predicate IsWord(w: string)
  {
    w != [] && forall k :: 0 <= k < |w| ==> !IsSpace(w[k])
  }

  /** The word being read, `cur`, as a list of at most one word. */
  function Flush(cur: string): seq<string>
  {
    if cur == [] then [] else [cur]
  }

  /** The words of `s`, its maximal runs of non-whitespace characters in order, `cur` being a word already begun
      before `s`. */
  function WordsFrom(s: string, cur: string): seq<string>
    decreases |s|
  {
    if s == [] then Flush(cur)
    else if IsSpace(s[0]) then Flush(cur) + WordsFrom(s[1..], [])
    else WordsFrom(s[1..], cur + [s[0]])
  }

  /** Every element WordsFrom returns is a word. */
  lemma {:induction false} WordsAreWords(s: string, cur: string)
    requires cur == [] || IsWord(cur)
    ensures forall i :: 0 <= i < |WordsFrom(s, cur)| ==> IsWord(WordsFrom(s, cur)[i])
    decreases |s|
  {
    if s != [] {
      if IsSpace(s[0]) {
        WordsAreWords(s[1..], []);
      } else {
        var w := cur + [s[0]];
        assert IsWord(w) by {
          assert forall k :: 0 <= k < |cur| ==> w[k] == cur[k];
          assert w[|cur|] == s[0];
        }
        WordsAreWords(s[1..], w);
      }
    }
  }

  function Words(s: string): seq<string>
  {
    WordsFrom(s, [])
  }

  /** The words with their braces deleted, those left empty dropped. */
  function KeptWords(ws: seq<string>): seq<string>
  {
    if ws == [] then [] else Flush(StripBraces(ws[0])) + KeptWords(ws[1..])
  }

  lemma {:induction false} KeptWordsAppend(a: seq<string>, b: seq<string>)
    ensures KeptWords(a + b) == KeptWords(a) + KeptWords(b)
  {
    if a == [] {
      assert a + b == b;
    } else {
      assert (a + b)[0] == a[0] && (a + b)[1..] == a[1..] + b;
      KeptWordsAppend(a[1..], b);
    }
  }

  lemma WordsFromCons(c: char, x: string, cur: string)
    ensures WordsFrom([c] + x, cur) == if IsSpace(c) then Flush(cur) + WordsFrom(x, []) else WordsFrom(x, cur + [c])
  {
    assert ([c] + x)[0] == c && ([c] + x)[1..] == x;
  }

  /** A leading whitespace run separates no word from the ones before. */
  lemma {:induction false} WordsDropSpaces(s: string)
    ensures WordsFrom(DropSpaces(s), []) == WordsFrom(s, [])
  {
    if s != [] && IsSpace(s[0]) {
      WordsDropSpaces(s[1..]);
    }
  }

  /** Collapsing whitespace keeps the words. */
  lemma {:induction false} WordsFromCollapse(s: string, cur: string)
    ensures WordsFrom(Collapse(s), cur) == WordsFrom(s, cur)
    decreases |s|, 1
  {
    if s != [] && IsSpace(s[0]) {
      WordsFromCollapseRun(s, cur);
    } else if s != [] {
      WordsFromCollapseChar(s, cur);
    }
  }

  /** WordsFromCollapse for a text that starts with whitespace: the run ends the word being read. */
  lemma {:induction false} WordsFromCollapseRun(s: string, cur: string)
    requires s != [] && IsSpace(s[0])
    ensures WordsFrom(Collapse(s), cur) == WordsFrom(s, cur)
    decreases |s|, 0
  {
    var d := DropSpaces(s);
    assert d == DropSpaces(s[1..]);
    var x := Collapse(d);
    assert Collapse(s) == [' '] + x;
    WordsFromCons(' ', x, cur);
    WordsFromCollapse(d, []);
    WordsDropSpaces(s[1..]);
  }

  /** WordsFromCollapse for a text that starts with another character: it extends the word being read. */
  lemma {:induction false} WordsFromCollapseChar(s: string, cur: string)
    requires s != [] && !IsSpace(s[0])
    ensures WordsFrom(Collapse(s), cur) == WordsFrom(s, cur)
    decreases |s|, 0
  {
    var x := Collapse(s[1..]);
    assert Collapse(s) == [s[0]] + x;
    WordsFromCons(s[0], x, cur);
    WordsFromCollapse(s[1..], cur + [s[0]]);
  }

  lemma KeptFlush(cur: string)
    ensures KeptWords(Flush(cur)) == Flush(StripBraces(cur))
  {
    if cur != [] {
      assert Flush(cur)[1..] == [];
    }
  }

  /** Deleting braces deletes them inside each word, and a word made of braces only disappears with the
      whitespace around it. */
  lemma {:induction false} WordsFromStripBraces(s: string, cur: string)
    ensures WordsFrom(StripBraces(s), StripBraces(cur)) == KeptWords(WordsFrom(s, cur))
    decreases |s|, 1
  {
    if s == [] {
      KeptFlush(cur);
    } else if IsSpace(s[0]) {
      WordsFromStripBracesRun(s, cur);
    } else {
      WordsFromStripBracesChar(s, cur);
    }
  }

  /** WordsFromStripBraces for a text that starts with whitespace, which is kept and ends the word being read. */
  lemma {:induction false} WordsFromStripBracesRun(s: string, cur: string)
    requires s != [] && IsSpace(s[0])
    ensures WordsFrom(StripBraces(s), StripBraces(cur)) == KeptWords(WordsFrom(s, cur))
    decreases |s|, 0
  {
    var t := s[1..];
    assert StripBraces(s) == [s[0]] + StripBraces(t);
    WordsFromCons(s[0], StripBraces(t), StripBraces(cur));
    WordsFromStripBraces(t, []);
    KeptWordsAppend(Flush(cur), WordsFrom(t, []));
    KeptFlush(cur);
  }

  /** WordsFromStripBraces for a text that starts with another character: it extends the word being read, and is
      deleted from it when it is a brace. */
  lemma {:induction false} WordsFromStripBracesChar(s: string, cur: string)
    requires s != [] && !IsSpace(s[0])
    ensures WordsFrom(StripBraces(s), StripBraces(cur)) == KeptWords(WordsFrom(s, cur))
    decreases |s|, 0
  {
    var c, t := s[0], s[1..];
    StripBracesAppend(cur, [c]);
    assert StripBraces([c]) == if IsBrace(c) then [] else [c] by {
      StripBracesCons(c, []);
      assert [c] + [] == [c];
    }
    WordsFromStripBraces(t, cur + [c]);
    if IsBrace(c) {
      assert StripBraces(cur + [c]) == StripBraces(cur);
    } else {
      assert StripBraces(s) == [c] + StripBraces(t);
      WordsFromCons(c, StripBraces(t), StripBraces(cur));
    }
  }

  /** A text of whitespace only ends the word being read and adds none. */
  lemma {:induction false} WordsFromSpaces(s: string, cur: string)
    requires forall k :: 0 <= k < |s| ==> IsSpace(s[k])
    ensures WordsFrom(s, cur) == Flush(cur)
  {
    if s != [] {
      WordsFromSpaces(s[1..], []);
      assert Flush(cur) + [] == Flush(cur);
    }
  }

  /** Dropping a leading whitespace run keeps the words. */
  lemma {:induction false} WordsDropHead(s: string, a: nat)
    requires a <= |s|
    requires forall k :: 0 <= k < a ==> IsSpace(s[k])
    ensures Words(s[a..]) == Words(s)
  {
    if a == 0 {
      assert s[a..] == s;
    } else {
      assert s[1..][a - 1..] == s[a..];
      WordsDropHead(s[1..], a - 1);
    }
  }

  /** Dropping a trailing whitespace run keeps the words. */
  lemma {:induction false} WordsDropTail(s: string, e: nat, cur: string)
    requires e <= |s|
    requires forall k :: e <= k < |s| ==> IsSpace(s[k])
    ensures WordsFrom(s[..e], cur) == WordsFrom(s, cur)
  {
    if e == 0 {
      assert s[..e] == [];
      WordsFromSpaces(s, cur);
    } else {
      var t := s[..e];
      assert t == [s[0]] + s[1..][..e - 1] && s == [s[0]] + s[1..];
      WordsFromCons(s[0], s[1..][..e - 1], cur);
      WordsFromCons(s[0], s[1..], cur);
      WordsDropTail(s[1..], e - 1, []);
      WordsDropTail(s[1..], e - 1, cur + [s[0]]);
    }
  }

  /** Trimming keeps the words. */
  lemma WordsTrim(s: string)
    ensures Words(Trim(s)) == Words(s)
  {
    var a := TrimStart(s);
    var r := Trim(s);
    var t := s[a..];
    assert t[..|r|] == r;
    assert forall k :: |r| <= k < |t| ==> t[k] == s[a + k];
    WordsDropTail(t, |r|, []);
    WordsDropHead(s, a);
  }

  /** No brace, and no whitespace but the blank. */
  predicate BlanksOnly(s: string)
  {
    forall k :: 0 <= k < |s| ==> !IsBrace(s[k]) && (IsSpace(s[k]) ==> s[k] == ' ')
  }

  /** What the scan sees: no braces, no whitespace but the blank, no blank at either end. */
  predicate Normalised(src: string)
  {
    BlanksOnly(src) && (src == [] || (src[0] != ' ' && src[|src| - 1] != ' '))
  }

  /** script.js:14, the normalisation before the scan. The scanned text is normalised, and its non-whitespace
      characters are exactly those of the input with the braces deleted, in order. */
  function Preprocess(input: string): (src: string)
    ensures Normalised(src)
    ensures NonSpace(src) == StripBraces(NonSpace(input))
    ensures Words(src) == KeptWords(Words(input))
  {
    var c := Collapse(input);
    var b := StripBraces(c);
    StripBracesBlanksOnly(c);
    TrimNormalises(b);
    NonSpaceTrim(b);
    NonSpaceStripBraces(c);
    WordsFromCollapse(input, []);
    WordsFromStripBraces(c, []);
    WordsTrim(b);
    Trim(b)
  }

  /** Deleting the braces of a text whose only whitespace is the blank leaves a text with no brace either. */
  lemma {:induction false} StripBracesBlanksOnly(c: string)
    requires forall k :: 0 <= k < |c| && IsSpace(c[k]) ==> c[k] == ' '
    ensures BlanksOnly(StripBraces(c))
  {
    if c != [] {
      assert c == [c[0]] + c[1..];
      StripBracesCons(c[0], c[1..]);
      StripBracesBlanksOnly(c[1..]);
    }
  }

  /** Trimming the collapsed text with its braces deleted leaves a normalised text. */
  lemma TrimNormalises(b: string)
    requires BlanksOnly(b)
    ensures Normalised(Trim(b))
  {
    var r := Trim(b);
    var a := TrimStart(b);
    var slice := b[a..a + |r|];
    assert r == slice;
    forall k | 0 <= k < |r|
      ensures !IsBrace(r[k]) && (IsSpace(r[k]) ==> r[k] == ' ')
    {
      assert r[k] == slice[k] == b[a + k];
    }
  }

  /** `startsWith(kw)` at cursor `i` (script.js:17). */
  predicate StartsAt(src: string, i: nat, kw: string)
  {
    i + |kw| <= |src| && src[i..i + |kw|] == kw
  }

  /** A keyword found at the cursor fits before the end of the text and matches it character by character. */
  lemma StartsAtMatches(src: string, i: nat, kw: string)
    requires StartsAt(src, i, kw)
    ensures i + |kw| <= |src| && forall m :: 0 <= m < |kw| ==> src[i + m] == kw[m]
  {
  }

  /** The end of the identifier whose characters after the first begin at `j` (script.js:36-37). */
  function IdentEnd(src: string, j: nat): (e: nat)
    requires j <= |src|
    ensures j <= e <= |src|
    ensures forall m :: j <= m < e ==> IsIdentChar(src[m])
    ensures e == |src| || !IsIdentChar(src[e])
    decreases |src| - j
  {
    if j < |src| && IsIdentChar(src[j]) then IdentEnd(src, j + 1) else j
  }

  /** An identifier is a `Pred` token when it begins with an upper-case letter, an `Id` token otherwise
      (script.js:39-40). */
  function IdentToken(ident: string): (t: Token)
    requires |ident| > 0
    ensures t.value == ident
    ensures t.kind == Pred || t.kind == Id
    ensures t.kind == Pred <==> IsUpper(ident[0])
  {
    if IsUpper(ident[0]) then Token(Pred, ident) else Token(Id, ident)
  }

  /** Some branch of the scan accepts the character at `i`. */
  predicate CanStartToken(src: string, i: nat)
    requires i < |src|
  {
    || src[i] == ' '
    || StartsAt(src, i, "\\forall") || StartsAt(src, i, "\\exists") || StartsAt(src, i, "\\neg")
    || StartsAt(src, i, "\\land") || StartsAt(src, i, "\\lor") || StartsAt(src, i, "\\to")
    || StartsAt(src, i, "\\leftrightarrow")
    || src[i] == '(' || src[i] == ')' || src[i] == '.' || src[i] == ','
    || IsLetter(src[i])
  }

  /** What one pass of the loop body does at cursor `i`: skip a blank, push a token, or throw. */
  datatype Step = Skip(next: nat) | Emit(token: Token, next: nat) | Fail

  /** One pass of the loop body of script.js:22-44, branch for branch and in the same order. */
  function StepAt(src: string, i: nat): (s: Step)
    requires i < |src|
    ensures s.Skip? ==> i < s.next <= |src|
    ensures s.Emit? ==> i < s.next <= |src| && s.token.kind != Eof && WellClassified(s.token)
    ensures s.Fail? <==> !CanStartToken(src, i)
  {
    if src[i] == ' ' then Skip(i + 1)
    else if StartsAt(src, i, "\\forall") then Emit(Token(Forall, ""), i + 7)
    else if StartsAt(src, i, "\\exists") then Emit(Token(Exists, ""), i + 7)
    else if StartsAt(src, i, "\\neg") then Emit(Token(Neg, ""), i + 4)
    else if StartsAt(src, i, "\\land") then Emit(Token(And, ""), i + 5)
    else if StartsAt(src, i, "\\lor") then Emit(Token(Or, ""), i + 4)
    else if StartsAt(src, i, "\\to") then Emit(Token(Imp, ""), i + 3)
    else if StartsAt(src, i, "\\leftrightarrow") then Emit(Token(Iff, ""), i + 15)
    else if src[i] == '(' then Emit(Token(LParen, ""), i + 1)
    else if src[i] == ')' then Emit(Token(RParen, ""), i + 1)
    else if src[i] == '.' then Emit(Token(Dot, ""), i + 1)
    else if src[i] == ',' then Emit(Token(Comma, ""), i + 1)
    else if IsLetter(src[i]) then
      var j := IdentEnd(src, i + 1);
      var ident := src[i..j];
      assert forall m :: 0 <= m < |ident| ==> IsIdentChar(ident[m]) by {
        forall m | 0 <= m < |ident| ensures IsIdentChar(ident[m]) {
          if m > 0 { assert ident[m] == src[i + m]; }
        }
      }
      Emit(IdentToken(ident), j)
    else Fail
  }

  /** `v` extends `acc` with tokens that are not `Eof` and exactly one `Eof`, which is last. */
  predicate EofTerminated(acc: seq<Token>, v: seq<Token>)
  {
    && |v| > |acc| && v[..|acc|] == acc
    && v[|v| - 1].kind == Eof
    && forall m :: |acc| <= m < |v| - 1 ==> v[m].kind != Eof
  }

  /** A token other than `Eof` pushed onto `acc` before the rest of the scan is part of what extends `acc`. */
  lemma EofTerminatedPush(acc: seq<Token>, t: Token, v: seq<Token>)
    requires t.kind != Eof && EofTerminated(acc + [t], v)
    ensures EofTerminated(acc, v)
  {
    assert v[..|acc|] == (acc + [t])[..|acc|];
    assert v[|acc|] == t;
  }

  /** The scan of script.js:21-47 from cursor `i` with tokens `acc` already pushed. On success the result extends
      `acc` with the remaining tokens and exactly one `Eof`, which is last. */
  function LexLoop(src: string, i: nat, acc: seq<Token>): (r: Result<seq<Token>>)
    requires i <= |src|
    ensures r.Ok? ==> EofTerminated(acc, r.value)
    decreases |src| - i
  {
    if i == |src| then Ok(acc + [Token(Eof, "")])
    else
      match StepAt(src, i)
      case Skip(j) => LexLoop(src, j, acc)
      case Emit(t, j) =>
        var r := LexLoop(src, j, acc + [t]);
        if r.Ok? then EofTerminatedPush(acc, t, r.value); r else r
      case Fail => Err(UnexpectedChar(src[i], i))
  }

  /** The token list of a normalised source text. */
  function Lex(src: string): (r: Result<seq<Token>>)
    ensures r.Ok? ==> Stream(r.value)
  {
    LexLoop(src, 0, [])
  }

  /** One pass of the loop body of script.js:22-44 at cursor `i`, its branches tried in the source's order; the
      identifier branch advances over the identifier characters in an inner loop. */
  method ScanAt(src: string, i: nat) returns (s: Step)
    requires i < |src|
    ensures s == StepAt(src, i)
  {
    var ch, n := src[i], |src|;
    if ch == ' ' { return Skip(i + 1); }
    if StartsAt(src, i, "\\forall") { return Emit(Token(Forall, ""), i + 7); }
    if StartsAt(src, i, "\\exists") { return Emit(Token(Exists, ""), i + 7); }
    if StartsAt(src, i, "\\neg") { return Emit(Token(Neg, ""), i + 4); }
    if StartsAt(src, i, "\\land") { return Emit(Token(And, ""), i + 5); }
    if StartsAt(src, i, "\\lor") { return Emit(Token(Or, ""), i + 4); }
    if StartsAt(src, i, "\\to") { return Emit(Token(Imp, ""), i + 3); }
    if StartsAt(src, i, "\\leftrightarrow") { return Emit(Token(Iff, ""), i + 15); }
    if ch == '(' { return Emit(Token(LParen, ""), i + 1); }
    if ch == ')' { return Emit(Token(RParen, ""), i + 1); }
    if ch == '.' { return Emit(Token(Dot, ""), i + 1); }
    if ch == ',' { return Emit(Token(Comma, ""), i + 1); }
    if IsLetter(ch) {
      var j := i + 1;
      while j < n && IsIdentChar(src[j])
        invariant i + 1 <= j <= n
        invariant IdentEnd(src, j) == IdentEnd(src, i + 1)
        decreases n - j
      {
        j := j + 1;
      }
      return Emit(IdentToken(src[i..j]), j);
    }
    return Fail;
  }

  /** tokenize (script.js:13-48): the scan loop pushes tokens until the end of the text or the first character no
      branch accepts, then pushes `Eof`. */
  method Tokenize(input: string) returns (r: Result<seq<Token>>)
    ensures r == Lex(Preprocess(input))
  {
    var src := Preprocess(input);
    var tokens: seq<Token> := [];
    var i, n := 0, |src|;
    while i < n
      invariant 0 <= i <= n
      invariant LexLoop(src, i, tokens) == Lex(src)
      decreases n - i
    {
      var step := ScanAt(src, i);
      match step
      case Skip(j) =>
        i := j;
      case Emit(t, j) =>
        tokens := tokens + [t];
        i := j;
      case Fail =>
        return Err(UnexpectedChar(src[i], i));
    }
    tokens := tokens + [Token(Eof, "")];
    return Ok(tokens);
  }

  /** A token as the scan builds it: identifier tokens carry a non-empty identifier whose first character is a
      letter, and they are `Pred` exactly when that letter is upper-case; every other token carries no text. */
  predicate WellClassified(t: Token)
  {
    if t.kind == Pred || t.kind == Id then
      && |t.value| > 0 && IsLetter(t.value[0])
      && (forall m :: 0 <= m < |t.value| ==> IsIdentChar(t.value[m]))
      && (t.kind == Pred <==> IsUpper(t.value[0]))
    else t.value == ""
  }

  /** Every token the scan produces is well classified. */
  lemma {:induction false} LexClassifies(src: string, i: nat, acc: seq<Token>)
    requires i <= |src|
    requires forall m :: 0 <= m < |acc| ==> WellClassified(acc[m])
    ensures LexLoop(src, i, acc).Ok? ==>
      forall m :: 0 <= m < |LexLoop(src, i, acc).value| ==> WellClassified(LexLoop(src, i, acc).value[m])
    decreases |src| - i
  {
    if i < |src| {
      match StepAt(src, i)
      case Skip(j) => LexClassifies(src, j, acc);
      case Emit(t, j) => LexClassifies(src, j, acc + [t]);
      case Fail =>
    }
  }

  /** The scan fails only at a character no branch accepts, and reports that character and its position. */
  lemma {:induction false} LexErrorIsBadChar(src: string, i: nat, acc: seq<Token>)
    requires i <= |src|
    ensures LexLoop(src, i, acc).Err? ==>
      var e := LexLoop(src, i, acc).error;
      e.UnexpectedChar? && i <= e.pos < |src| && e.ch == src[e.pos] && !CanStartToken(src, e.pos)
    decreases |src| - i
  {
    if i < |src| {
      match StepAt(src, i)
      case Skip(j) => LexErrorIsBadChar(src, j, acc);
      case Emit(t, j) => LexErrorIsBadChar(src, j, acc + [t]);
      case Fail =>
    }
  }

  /** Conversely, a character where a token must start and that no branch accepts — a digit, an underscore, an
      unknown backslash command, any other symbol — stops the scan with that character and its position. */
  lemma BadCharRejected(src: string, i: nat, acc: seq<Token>)
    requires i < |src| && !CanStartToken(src, i)
    ensures LexLoop(src, i, acc) == Err(UnexpectedChar(src[i], i))
  {
  }

  /** A keyword that begins with a backslash starts only where there is a backslash. */
  lemma BackslashKeywordsNeedBackslash(src: string, i: nat)
    requires i < |src| && src[i] != '\\'
    ensures !StartsAt(src, i, "\\forall") && !StartsAt(src, i, "\\exists") && !StartsAt(src, i, "\\neg")
    ensures !StartsAt(src, i, "\\land") && !StartsAt(src, i, "\\lor") && !StartsAt(src, i, "\\to")
    ensures !StartsAt(src, i, "\\leftrightarrow")
  {
    forall kw: string | |kw| > 0 && kw[0] == '\\' && i + |kw| <= |src|
      ensures src[i..i + |kw|] != kw
    {
      assert src[i..i + |kw|][0] == src[i];
    }
  }

  /** In particular a leading digit and a backslash that begins no known command are rejected. */
  lemma DigitAndUnknownCommandRejected(src: string, i: nat, acc: seq<Token>)
    requires i < |src|
    requires IsDigit(src[i]) || (src[i] == '\\' && !StartsAt(src, i, "\\forall") && !StartsAt(src, i, "\\exists")
      && !StartsAt(src, i, "\\neg") && !StartsAt(src, i, "\\land") && !StartsAt(src, i, "\\lor")
      && !StartsAt(src, i, "\\to") && !StartsAt(src, i, "\\leftrightarrow"))
    ensures LexLoop(src, i, acc) == Err(UnexpectedChar(src[i], i))
  {
    if IsDigit(src[i]) {
      BackslashKeywordsNeedBackslash(src, i);
      assert !CanStartToken(src, i);
    }
    BadCharRejected(src, i, acc);
  }
}
