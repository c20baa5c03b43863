# First-order normal forms, verified

This project models the symbolic engine of a small web page that takes a first-order formula written in
LaTeX-like notation and shows its normal forms. The engine is `script.js`, lines 1-394, and the pipeline that
the page's button runs is at lines 440-500. Its stages are:

1. the lexer (`tokenize`), which turns text into tokens;
2. a recursive-descent parser with a token cursor;
3. renaming of the bound variables to fresh names `x1`, `x2`, ...;
4. elimination of `\to` and `\leftrightarrow`;
5. negation normal form;
6. extraction of the quantifier prefix and the matrix;
7. the CNF and DNF clause matrices of the matrix;
8. Skolemization of the prenex formula, whose Skolem symbols are `Sk<n>`;
9. the clausal form and the Horn test.

A single counter, `gensym`, numbers both the fresh variables and the Skolem symbols. It is reset at the start
of every run.

## How the model is built

The model follows the source's own form:

- Formulas, terms, literals and clauses are datatypes, in `syntax.dfy` and `clauses.dfy`.
- The recursive rewrites are functions: substitution, renaming, elimination, NNF, prefix extraction, the CNF
  and DNF builders, Skolemization and the Horn test.
- The global counter is threaded explicitly. Renaming and Skolemization take it as an argument and return the
  new value.
- Each loop of the source is a method with a loop, proved equal to the function that specifies it:
  - the lexer's scanning loop (`Lexer.Tokenize`, with one iteration in `Lexer.ScanAt`);
  - the parser object and its cursor `k`, as a class (`Parser.Parser`);
  - the nested `merge` loops (`Clauses.Merge`);
  - the backward loop of `buildPrenex` (`Prenex.BuildPrenex`).
- The click handler (`Pipeline.Convert`) has no loop of its own. It is a method that calls the parser object
  and the loop methods above, and it is proved to compute `Pipeline.Run`.
- Two semantics state what the rewrites preserve:
  - `Semantics.Eval` gives first-order truth in any structure. Elimination and NNF are proved to keep it, and so
    is prenex extraction on NNF formulas whose quantifiers bind distinct names, none of them also free,
    over a non-empty domain.
  - `Semantics.Holds` gives propositional truth under an assignment to atoms. The CNF and DNF matrices are
    proved to keep it.
- Two substitution lemmas pin down what substitution and renaming compute. `Subst.SubstituteVarMeaning`
  says that replacing `v` by a term means evaluating with `v` set to that term's value. `Rename.RenameKeepsMeaning`
  says that renaming keeps the meaning whenever the input does not use the names `x1`, `x2`, ... itself.
- `scenarios.dfy` proves what the conversion yields on the page's three example formulas. It proves the same for
  a fourth formula, which shows how the Skolem symbols are numbered.

What the code does on some inputs:

- **Example 3.** The page's third example is `\forall x (P(x) \land \exists y Q(y)) \to R`. The body of a
  quantifier extends as far right as possible, so this is `\forall x ((P(x) \land \exists y Q(y)) \to R)`.
  After NNF it has no existential left. Its prefix is `\forall x1 \forall x2` and its single clause is
  `[!P(x1), !Q(x2), R]`, which is Horn.
- **Example 2.** `(\neg P \land Q) \leftrightarrow R` has three CNF clauses: `[P, !Q, R]`, `[!R, !P]` and
  `[!R, Q]`. The first has two positive literals, so it is not Horn.
- **Skolem numbering.** The counter is shared with renaming and counts from 1. For
  `\forall x (R(x) \to \exists y (P(x) \land Q(y)))`, the Skolem function for `y` is `Sk3(x1)`. The comment at
  script.js:301 says the numbering starts at `Sk0`. `Scenarios.SkolemNumbering` proves the `Sk3`.
- **Distribution and Skolemization.** Distribution of one connective over the other has no size limit. NNF is
  not run again after Skolemization.
- **Empty input.** The empty-input check is an `alert` in the click handler. In the model, empty input is a
  parse error.
- **Failures of the clausal form.** A failure of the clausal form is caught by the page, which shows the
  Skolemized formula instead. `Pipeline.Report` keeps that as a failed `clausal` field beside the rest of the
  report.

## Model

| member | source | states |
|---|---|---|
| Lexer.Collapse | script.js:14 | the only whitespace left is the blank, no two blanks are adjacent, and the other characters are those of the input, in order |
| Lexer.CollapseAppend | script.js:14 | collapsing works run by run: a text cut after a non-whitespace character collapses as its two parts do |
| Lexer.CollapseBlankRun | script.js:14 | a whole whitespace run, whatever its length and characters, becomes one blank; alone it collapses to `" "` |
| Lexer.CollapseOfCollapsed | script.js:14 | a text whose only whitespace is single blanks is left unchanged, a single non-whitespace character included |
| Lexer.CollapseIdempotent | script.js:14 | collapsing twice is collapsing once |
| Lexer.DropSpacesAppend | script.js:14 | a whitespace run is matched on its own, up to the next non-whitespace character |
| Lexer.WordsFromCollapse | script.js:14 | collapsing whitespace keeps the words of the text |
| Lexer.WordsFromStripBraces | script.js:14 | deleting braces deletes them inside each word, and a word of braces only disappears |
| Lexer.WordsTrim | script.js:14 | trimming keeps the words of the text |
| Lexer.StripBraces | script.js:14 | the result holds exactly the characters of the input other than `{` and `}`, is no longer than the input, and equals an input without braces |
| Lexer.StripBracesAppend | script.js:14 | deleting braces works character by character in order: stripping a concatenation concatenates the stripped parts |
| Lexer.NonSpaceStripBraces | script.js:14 | deleting braces and dropping whitespace can be done in either order |
| Lexer.Trim | script.js:14 | the result is the slice of the input starting at its first non-whitespace character, everything outside the slice is whitespace, and the result neither starts nor ends with whitespace |
| Lexer.NonSpaceTrim | script.js:14 | trimming drops whitespace only |
| Lexer.NonSpaceSlice | script.js:14 | cutting whitespace off both ends of a text drops whitespace only |
| Lexer.Preprocess | script.js:14 | the text the lexer scans has no braces, no whitespace other than the blank, and no blank at either end; its non-whitespace characters are those of the input with the braces deleted, in order; its words (maximal runs of non-whitespace) are the input's words with their braces deleted, a word of braces only disappearing, so two characters stand in one word of the scanned text iff they stand in one word of the input |
| Lexer.StartsAt | script.js:17 | `startsWith`: the slice of the text at the cursor with the keyword's length is the keyword |
| Lexer.StartsAtMatches | script.js:17 | a keyword found at the cursor fits before the end and matches character by character |
| Lexer.IsLetter | script.js:18 | `/[A-Za-z]/`: an ASCII letter of either case |
| Lexer.IsIdentChar | script.js:19 | `/[A-Za-z0-9_]/`: an ASCII letter, a digit or `_` |
| Lexer.IdentCharClass | script.js:18-19 | a letter is never whitespace nor a digit; an identifier character is never whitespace, a backslash, a parenthesis, a comma, a dot or a brace |
| Lexer.IdentToken | script.js:39-40 | an identifier becomes a token carrying its text, of kind `Pred` iff it begins with an upper-case letter and `Id` otherwise |
| Lexer.IdentEnd | script.js:36-37 | an identifier runs over identifier characters and stops at the first other character or the end |
| Lexer.StepAt | script.js:22-44 | one loop iteration skips a space or emits a non-`EOF` token of the right class and advances; it fails exactly when no case of the loop applies at that position |
| Lexer.LexLoop | script.js:21-47 | on success the tokens already pushed are kept, the list ends with `EOF`, and no earlier token is `EOF` |
| Lexer.Lex | script.js:13-48 | a successful tokenization is a token stream with exactly one `EOF`, at the end |
| Lexer.ScanAt | script.js:22-44 | the branches, tried in the source's order, compute StepAt |
| Lexer.Tokenize | script.js:13-48 | the loop computes Lex of the preprocessed text, error included |
| Lexer.LexClassifies | script.js:35-40 | every identifier token is `PRED` iff its first character is upper case, and `ID` otherwise |
| Lexer.LexErrorIsBadChar | script.js:44 | a lexing error names a character of the input, at its position, where no token can start |
| Lexer.BadCharRejected | script.js:44 | a character where no token can start is rejected with that character and position |
| Lexer.DigitAndUnknownCommandRejected | script.js:24-44 | a leading digit, or a backslash that starts none of the seven commands, is rejected |
| Parser.EatAt | script.js:67-71 | `eat` succeeds iff the current token has the required type; it then advances by one, and otherwise reports expected and actual types |
| Parser.TermAt | script.js:73-88 | a parsed term consumes at least one token and leaves the cursor inside the stream |
| Parser.ArgListAt | script.js:79-84 | a parenthesised argument list consumes at least one token and leaves the cursor inside the stream |
| Parser.ArgsTailAt | script.js:82 | the comma loop keeps the arguments already read and stops at a token that is not a comma |
| Parser.AtomAt | script.js:90-107 | a parsed atom is a predicate node |
| Parser.UnitAt | script.js:109-122 | a quantified, negated, parenthesised or atomic unit consumes at least one token |
| Parser.AndAt | script.js:124-128 | a conjunction stops only before a token that is not `\land` |
| Parser.AndTailAt | script.js:126 | the `\land` loop stops only before a token that is not `\land` |
| Parser.OrAt | script.js:130-134 | a disjunction stops only before a token that is neither `\land` nor `\lor` |
| Parser.OrTailAt | script.js:132 | the `\lor` loop stops only before a token that is not `\lor` |
| Parser.ImpAt | script.js:136-144 | an implication-level formula stops only before a token that is no binary connective |
| Parser.ImpTailAt | script.js:138-142 | the `\to`/`\leftrightarrow` loop stops only before a token that is neither |
| Parser.ParseTokens | script.js:146-148 | parsing succeeds iff the implication level succeeds and stops exactly at `EOF`, and yields its formula |
| Parser.Parser.constructor | script.js:63-65 | the parser starts at token 0 of a token stream |
| Parser.Parser.Eat | script.js:67-71 | the method advances the cursor exactly as EatAt says and returns the token it consumed |
| Parser.Parser.ParseTerm | script.js:73-88 | result and new cursor agree with TermAt |
| Parser.Parser.ParseArgs | script.js:79-84 | result and new cursor agree with ArgListAt |
| Parser.Parser.ParseAtom | script.js:90-107 | result and new cursor agree with AtomAt |
| Parser.Parser.ParseUnit | script.js:109-122 | result and new cursor agree with UnitAt |
| Parser.Parser.ParseAnd | script.js:124-128 | result and new cursor agree with AndAt |
| Parser.Parser.ParseOr | script.js:130-134 | result and new cursor agree with OrAt |
| Parser.Parser.ParseImp | script.js:136-144 | result and new cursor agree with ImpAt |
| Parser.ParseInput | script.js:63-149 | a tokenizer error is the result as is; otherwise the result is parsing the token stream |
| Parser.Parse | script.js:63-149 | tokenizing and then parsing with the cursor object gives ParseInput, errors included |
| ParserProps.UnitIsAtom | script.js:104 | a predicate letter without `(` is a 0-ary predicate and consumes one token |
| ParserProps.AndTailChain | script.js:126 | a run of `\land P` steps folds onto the accumulated formula from the left |
| ParserProps.OrTailChain | script.js:132 | a run of `\lor P` steps folds onto the accumulated formula from the left |
| ParserProps.ImpTailChain | script.js:138-142 | a mixed run of `\to`/`\leftrightarrow` steps folds from the left, `\to` building Imp and `\leftrightarrow` Iff |
| ParserProps.AndChainIsLeftAssociative | script.js:124-128 | `P \land Q \land ...` parses to the left-nested conjunction |
| ParserProps.OrChainIsLeftAssociative | script.js:130-134 | `P \lor Q \lor ...` parses to the left-nested disjunction |
| ParserProps.ImpIffChainIsLeftAssociative | script.js:136-144 | `\to` and `\leftrightarrow` share one level and any chain of them nests to the left |
| ParserProps.MixedPrecedence | script.js:124-144 | `P \lor Q \land R \to S` parses to `(P \lor (Q \land R)) \to S`: `\land` binds tighter than `\lor`, and `\lor` tighter than `\to` |
| ParserProps.QuantifierScopeIsMaximal | script.js:109-118 | a quantifier's body extends past every binary connective |
| ParserProps.ForallOverConjunction | script.js:114-117 | `\forall x . P \land Q` parses as `\forall x (P \land Q)` |
| ParserProps.UnclosedArgumentList | script.js:84 | `P(x` fails expecting `)` and finding `EOF` |
| ParserProps.LeftoverTokenRejected | script.js:147 | `P Q` is rejected with TrailingTokens(Pred): the token left before `EOF` makes the parse fail |
| Names.Dec | script.js:153 | the decimal numeral of a counter value is non-empty and all digits |
| Names.Fresh | script.js:153 | the symbol `fresh(pref)` returns when the counter holds `n`: the prefix and the numeral of `n + 1` |
| Names.FreshShape | script.js:153 | a fresh symbol is the prefix followed by a non-empty run of decimal digits |
| Names.DecInjective | script.js:153 | distinct counter values give distinct numerals |
| Names.FreshInjective | script.js:153 | `fresh` with one prefix never gives the same name for two counter values |
| Names.FreshRun | script.js:184 | `q` successive `fresh` calls from counter `n` give `pref<n+1>` .. `pref<n+q>` |
| Names.FreshRunDistinct | script.js:153 | names drawn from successive counter values are pairwise distinct |
| Subst.CloneTerm | script.js:155-158 | cloning a term yields an equal term |
| Subst.ReplaceVarInTerm | script.js:159-165 | a term without the variable is unchanged; the variable is gone afterwards unless the replacement holds it; function symbols and arities are kept |
| Subst.ReplaceInTerms | script.js:168 | the argument list is replaced element-wise and keeps its length |
| Subst.SubstituteVar | script.js:166-178 | the shape, size, quantifiers and bound names are kept; with no free occurrence the formula is unchanged; the variable is no longer free unless the replacement holds it |
| Subst.SubstituteFreeVars | script.js:166-178 | substitution keeps every other free variable free and adds only variables of the replacement |
| Subst.TermFreeVars | script.js:159-165 | replacing in a term keeps the other variables and adds only those of the replacement |
| Subst.ReplaceVarMeaning | script.js:159-165 | the value of a term after replacing `v` is its value with `v` set to the replacement's value, for every term |
| Subst.SubstituteVarMeaning | script.js:166-178 | when no variable of the replacement is bound in the formula, the substituted formula holds iff the formula holds with `v` set to the replacement's value |
| Rename.RenameBound | script.js:181-200 | the output has the input's shape, the counter rises by the number of quantifiers, and the bound names are `x<n+1>` .. `x<n+q>` in visiting order |
| Rename.RenamePair | script.js:194-197 | the left operand is renamed first and the right continues its counter |
| Rename.RenameScope | script.js:183-192 | a quantifier takes the next fresh name and its body continues the counter |
| Rename.RenameKeepsMeaning | script.js:181-200 | when the input uses none of the names `x<n+1>`, `x<n+2>`, ..., the renamed formula holds iff the input does, in every structure and assignment |
| Rename.RenamePairKeepsMeaning | script.js:194-197 | both operands of a binary connective keep their meaning |
| Rename.RenameScopeKeepsMeaning | script.js:183-192 | a renamed body with the fresh name set to `d` means the old body with the old variable set to `d` |
| Rename.RenamedBindersDistinct | script.js:181-200 | after renaming, no two quantifiers bind the same name |
| Rename.FreeVariableNamedLikeFreshIsCaptured | script.js:183-187 | renaming is not capture-avoiding for free variables: in `\forall y P(y, x1)` the free `x1` becomes bound |
| Rename.RenameFree | script.js:181-200 | renaming adds no free variable: a variable free in the output is free in the input |
| Rename.RenamePairFree | script.js:194-197 | the same for each operand of a binary connective |
| Rename.RenameScopeFree | script.js:183-192 | a variable free in a renamed body, other than the fresh name, is free in the old body and is not the old variable |
| Normalize.ElimImpIff | script.js:203-218 | the result has no `Imp`/`Iff`; it is the identity on such formulas; it keeps the bound names of an `Iff`-free input and quantifier-freeness |
| Normalize.ElimImpIffNames | script.js:203-218 | elimination keeps the free variables and the set of bound names |
| Normalize.ElimImpIffSound | script.js:203-218 | elimination keeps the truth value in every structure and assignment |
| Normalize.Nnf | script.js:221-240 | on an `Imp`/`Iff`-free input, negation ends up only directly above predicates; bound names and quantifier-freeness are kept |
| Normalize.NnfStableFixpoint | script.js:221-240 | the output is always a fixpoint of nnf, and every fixpoint shape is left unchanged |
| Normalize.NnfIdempotent | script.js:221-240 | nnf applied twice equals nnf applied once |
| Normalize.NnfKeepsNnf | script.js:221-240 | a formula already in NNF is returned unchanged |
| Normalize.NnfSound | script.js:221-240 | nnf keeps the truth value in every structure and assignment |
| Normalize.NnfFree | script.js:221-240 | nnf keeps exactly the free variables of its input |
| Syntax.IsLiteral | script.js:243-244 | `isLiteral`: a predicate node, or a negation directly above a predicate node |
| Syntax.LiteralIsQfNnf | script.js:243-244 | every literal is a quantifier-free formula in negation normal form |
| Clauses.LitFromAst | script.js:245-249 | succeeds iff the node is a predicate or a negated predicate, and then returns its literal; otherwise it fails with the literal error |
| Clauses.LitToFormula | script.js:244 | a literal read back as a formula is a literal node |
| Clauses.LitRoundTrip | script.js:245-249 | reading a literal's formula gives back the literal |
| Clauses.LitHoldsAsFormula | script.js:244-247 | a literal holds under an assignment iff its formula does |
| Clauses.Row | script.js:255 | one clause of the left joined with each clause of the right |
| Clauses.Product | script.js:253-257 | the merge has as many clauses as the product of the two lists' lengths |
| Clauses.ProductAt | script.js:253-257 | the clause at position `i * len(B) + j` is `A[i] ++ B[j]`, the order of the nested loops |
| Clauses.Merge | script.js:253-257 | the nested loops compute Product |
| Clauses.ToCnf | script.js:258-272 | succeeds iff the formula is an and/or tree of literals, otherwise fails with the CNF structure error; a literal gives one unit clause; clauses are non-empty |
| Clauses.ToDnf | script.js:283-297 | the dual of ToCnf, with the DNF structure error |
| Clauses.ProductNonEmpty | script.js:253-257 | merging non-empty lists of non-empty clauses gives a non-empty list of non-empty clauses |
| Clauses.CnfHoldsAppend | script.js:260-263 | a concatenated clause set holds iff both parts hold |
| Clauses.ClauseHoldsAppend | script.js:255 | a joined clause holds iff either part holds |
| Clauses.CnfHoldsProduct | script.js:265-268 | the merged clause set holds iff either operand's set holds (distribution) |
| Clauses.DnfHoldsAppend | script.js:285-288 | a concatenated term set holds iff either part holds |
| Clauses.TermHoldsAppend | script.js:280 | a joined term holds iff both parts hold |
| Clauses.DnfHoldsProduct | script.js:290-293 | the merged term set holds iff both operands' sets hold |
| Clauses.ToCnfFaithful | script.js:252-274 | an accepted matrix is quantifier-free, and under every assignment its clause set holds iff it does |
| Clauses.ToDnfFaithful | script.js:277-299 | the same for the DNF term set |
| Clauses.CnfMatrix | script.js:252-274 | the recursion with the merge loop computes ToCnf, errors included |
| Clauses.DnfMatrix | script.js:277-299 | the recursion with the merge loop computes ToDnf, errors included |
| Clauses.Positives | script.js:322 | the filter keeps exactly the unnegated literals |
| Clauses.AtMostOnePositive | script.js:322 | a clause has at most one positive literal iff no two of its positions are both positive |
| Clauses.CheckHornClause | script.js:321-323 | true iff in every clause no two literals are both unnegated |
| Clauses.HornPositions | script.js:321-323 | every clause has at most one positive literal iff no clause has two positive positions, the two readings of the Horn test |
| Prenex.PullQuantifiers | script.js:359-382 | on an `Imp`/`Iff`-free input the prefix is the quantifiers in outside-in, left-before-right order and the matrix is quantifier-free; NNF is kept; a quantifier-free input gives the empty prefix and itself |
| Prenex.Quantify | script.js:387 | one quantifier of the prefix wrapped around a formula |
| Prenex.Nest | script.js:383-390 | the quantifiers of the nested formula are the prefix, first outermost; on a quantifier-free matrix it is prenex; an empty prefix returns the matrix |
| Prenex.BuildPrenex | script.js:383-390 | the backward loop computes Nest |
| Prenex.PullNest | script.js:359-390 | pulling the quantifiers out of a nested prefix gives back that prefix and matrix |
| Prenex.NestPull | script.js:359-390 | nesting the pulled prefix around the matrix rebuilds any prenex formula |
| Prenex.PrenexOfNnf | script.js:359-382 | for an NNF formula the rebuilt formula is prenex, has the same quantifiers, and its matrix is quantifier-free NNF |
| Prenex.PullMatrixUnquantified | script.js:359-382 | on an `Imp`/`Iff`-free input the matrix is the input with every quantifier node replaced by its body |
| Prenex.MatrixFree | script.js:359-382 | a variable free in the matrix is free in the input or bound in it |
| Prenex.NestFree | script.js:383-390 | nesting adds no free variable |
| Prenex.NestAppend | script.js:383-390 | nesting under two prefixes in turn is nesting under their concatenation |
| Prenex.NestCongruence | script.js:383-390 | matrices true under the same assignments nest into formulas true under the same assignments |
| Prenex.QuantifyCongruence | script.js:387 | the same for one quantifier |
| Prenex.NestJoinRight | script.js:369-375 | a prefix binding no variable free in `B` moves off `A` over `A \land B` and `A \lor B`, over a non-empty domain |
| Prenex.NestJoinLeft | script.js:369-375 | the mirror image, a prefix binding no variable free in `A` moving off `B` |
| Prenex.RectifiedOperands | script.js:369-375 | the operands of a rectified conjunction or disjunction are rectified, bind disjoint names, and neither has a name the other binds free |
| Prenex.RectifiedBody | script.js:361-368 | the body of a rectified quantifier is rectified |
| Prenex.PullQuantifiersKeepsMeaning | script.js:359-390 | for an NNF formula whose quantifiers bind distinct names, none of them also free, the prefix nested around the matrix holds iff the formula does, in every structure over a non-empty domain and under every assignment |
| Prenex.PullJoinKeepsMeaning | script.js:369-375 | the same for a conjunction or disjunction, the left operand's prefix outermost |
| Skolem.SkolemTerm | script.js:312 | the Skolem term is the fresh symbol applied to the universals, in order; with none it is a constant |
| Skolem.StripLeading | script.js:306-315 | the leading quantifier chain is stripped |
| Skolem.Process | script.js:305-316 | the result has the shape of the formula below the leading quantifiers; the counter rises by the number of existentials |
| Skolem.Skolemize | script.js:302-318 | the same, from an empty list of universals |
| Skolem.SkolemPlan | script.js:310-313 | one substitution per existential of the prefix |
| Skolem.ApplyPlan | script.js:313 | applying the substitutions keeps the matrix's shape |
| Skolem.ProcessPrenex | script.js:305-316 | on a prenex formula, Skolemization is the matrix with the planned substitutions applied, innermost first |
| Skolem.LeadingOfNest | script.js:306-315 | the leading chain of a nested prefix is that prefix, and below it is the matrix |
| Skolem.SkolemPlanAppend | script.js:305-313 | the substitutions planned for two prefixes one after the other are those of the first followed by those of the second, which sees the first one's universals and numbers its Skolem symbols after the first one's existentials |
| Skolem.SkolemPlanEntry | script.js:310-313 | the existential at prefix position `i` gets `Sk<n+e+1>`, `e` being the number of existentials before it, applied to exactly the universals before it, in order |
| Pipeline.Transform | script.js:459-500 | parse output through renaming, elimination, NNF and prefix/matrix extraction, the CNF and DNF matrices, then Skolemization of the prenex formula with the counter continuing, its clausal form and the Horn test; it fails iff the CNF or DNF matrix fails, keeps the parsed formula, and has a Horn verdict iff the clausal form exists |
| Pipeline.Run | script.js:453-500 | a run fails iff parsing fails |
| Pipeline.TransformTotal | script.js:459-500 | after parsing nothing fails: the matrix is quantifier-free NNF, the prefix is the normalized formula's quantifiers, and the clausal form and Horn verdict exist |
| Pipeline.TransformFields | script.js:459-485 | the report holds the pulled prefix and matrix, and Skolemization continues the counter after the renamed variables |
| Pipeline.SkolemizedMatrix | script.js:451-485 | the Skolemized formula is the matrix with the prefix's Skolem terms substituted, numbered after `x1`..`x<q>` |
| Pipeline.PrefixNamesFresh | script.js:459-468 | without `\leftrightarrow`, the prefix binds exactly `x1`..`x<q>` in order, pairwise distinct |
| Pipeline.NormalizedKeepsMeaning | script.js:459-465 | renaming, elimination and NNF keep the parsed formula's meaning when it uses none of the names `x1`, `x2`, ... |
| Pipeline.RenamingLastPrefixDistinct | script.js:459-468 | with renaming moved after elimination, every input gets a prefix of pairwise distinct names `x1`..`x<q>` |
| Pipeline.RenamingLastKeepsMeaning | script.js:459-465 | the corrected order keeps the meaning under the same condition |
| Pipeline.RenamingLastAgrees | script.js:459-465 | on inputs without `\leftrightarrow` the corrected order gives the same normalized formula as the page |
| Pipeline.RenamingLastRectified | script.js:459-465 | with renaming after elimination, the formula the prefix is pulled from is NNF with distinct bound names, none of them free, when the input uses none of `x1`, `x2`, ... |
| Pipeline.RenamingLastPrenexKeepsMeaning | script.js:459-469 | with renaming after elimination, the prenex formula holds iff the parsed formula does, `\leftrightarrow` included |
| Pipeline.PrenexKeepsMeaning | script.js:459-469 | without `\leftrightarrow` in the input, the page's own prefix and matrix nest into a formula that holds iff the parsed formula does |
| Pipeline.RenameElimCommute | script.js:181-218 | renaming and elimination commute on `\leftrightarrow`-free formulas, counter included |
| Pipeline.SubstElimCommute | script.js:166-218 | substitution and elimination commute on every formula |
| Pipeline.Convert | script.js:451-500 | the click handler with the parser object, the prenex loop and the merge loops computes Run |
| Scenarios.ExampleOne | script.js:430-432 | `(A \lor B) \to C`: empty prefix, CNF `[!A, C]`, `[!B, C]`, DNF `[!A, !B]`, `[C]`, Horn |
| Scenarios.ExampleTwo | script.js:433-435 | `(\neg P \land Q) \leftrightarrow R`: empty prefix, CNF `[P, !Q, R]`, `[!R, !P]`, `[!R, Q]`, not Horn |
| Scenarios.ExampleThree | script.js:436-438 | `\forall x (P(x) \land \exists y Q(y)) \to R`: prefix `\forall x1 \forall x2`, single clause `[!P(x1), !Q(x2), R]`, Horn |
| Scenarios.SkolemNumbering | script.js:302-317 | `\forall x (R(x) \to \exists y (P(x) \land Q(y)))`: prefix `\forall x1 \exists x2`, Skolem term `Sk3(x1)`, clauses `[!R(x1), P(x1)]`, `[!R(x1), Q(Sk3(x1))]`, Horn |
| Findings.IffRepeatsBinder | script.js:459-468 | `(\forall x P(x)) \leftrightarrow Q` yields the prefix `\exists x1 \forall x1` |
| Findings.IffPrenexChangesMeaning | script.js:459-469 | in a two-element structure that input holds and its prenex formula does not |
| Findings.IffSkolemized | script.js:485 | Skolemization then puts `Sk2` in place of the universal's `x1` as well |
| Findings.IffRenamedLast | script.js:459-465 | with the corrected order the same input gets the prefix `\exists x1 \forall x2` |

## Left out

- The page itself is left out: the DOM, MathJax, `renderMath`, `setPlainText`, the example buttons' handlers and
  the `alert` calls (script.js:397-507). The example formulas are kept, as the inputs of `scenarios.dfy`.
- The empty-input check (script.js:441-442) is UI code and is not modelled. In the model, empty input fails in
  the parser, with `EOF` where a predicate was expected.
- Error messages are modelled as error values (`Outcomes.Error`), not as the Portuguese message strings.
- The two regular expressions at script.js:14 are modelled as plain character functions over `seq<char>`, with
  the characters JavaScript's `\s` matches listed in `Lexer.IsSpace`; the regular-expression engine itself is
  not modelled. Characters outside the Basic Multilingual Plane are single `char`s here, where JavaScript sees
  two UTF-16 units.
- Lexer.Preprocess: the contract fixes the words of the scanned text and that its only whitespace is the blank,
  but not how many blanks stand between two words. A word made only of braces leaves its blank behind, so
  `a { } b` is scanned as `a`, three blanks, `b`. The scan skips blanks one at a time, so the count only moves the
  position a lexing error reports, which `Lexer.Tokenize` states exactly.
- The LaTeX serialisers (`literalToLatex`, `predToLatex`, `termToLatex`, `clausesToLatex`, `dnfToLatex`,
  `astToLatex`, `prefixToLatex`, script.js:326-394) are presentation only and are not modelled.
- The clausal form's `try/catch` (script.js:491-500) is kept only as a failed `clausal` field. Which text the
  page then shows is not modelled.
- The second `isLiteral` test in `toCNF` and `toDNF` (script.js:270, 295) can never succeed after the first one
  (script.js:259, 284). It is left out of ToCnf and ToDnf.
- Prenex.PullQuantifiers: the prenex formula is proved equivalent to its input only for a rectified NNF formula
  (distinct bound names, none also free) over a non-empty domain (`Prenex.PullQuantifiersKeepsMeaning`).
  Without rectification, pulling a quantifier out of one operand can capture a variable of the other, and the
  meaning changes (see Findings). Renaming yields a rectified formula when the input does not use `x1`, `x2`,
  ... itself and renaming runs after `\leftrightarrow` is eliminated. The page's order meets that condition only
  on inputs without `\leftrightarrow` (`Pipeline.PrenexKeepsMeaning`).
- Skolemization is specified by the substitutions it makes. That it preserves satisfiability is not proved.
- The counter is an unbounded `nat`. JavaScript numbers lose precision above 2^53, and this is not modelled.
- `Pipeline.Run`: a failed run is only an error value. The page has already rendered the parsed formula, and
  possibly the CNF, before a later stage throws; that partial output is not modelled.

## Findings

| source | as written | input that shows it | evidently intended | confidence | as-written member | corrected member |
|---|---|---|---|---|---|---|
| script.js:459-462 | bound variables are renamed (script.js:181-200) before `\leftrightarrow` is eliminated (script.js:206-209), and elimination copies each side, so the two copies of a quantifier share one fresh name; the prenex formula nests `\exists x1 \forall x1`, which means something else, and Skolemization then replaces the universal's variable by the Skolem constant as well | `(\forall x P(x)) \leftrightarrow Q`; in the structure over {true, false} where `P(d)` is `d` and `Q` is false, the input holds and `\exists x1 \forall x1 ((\neg P(x1) \lor Q) \land (\neg Q \lor P(x1)))` does not | every quantifier of the prefix binds its own name, which is what renaming (alpha-conversion) is for: rename after eliminating `\leftrightarrow` | high (proved in the model; not executed) | Findings.IffPrenexChangesMeaning | Pipeline.RenamingLastPrenexKeepsMeaning |

The corrected order is `Pipeline.NormalizedRenamingLast`. On inputs without `\leftrightarrow` it gives the same
result as the page (`Pipeline.RenamingLastAgrees`). It binds a distinct name at each prefix position
(`Pipeline.RenamingLastPrefixDistinct`). It keeps the meaning of the input (`Pipeline.RenamingLastKeepsMeaning`),
and so does the prenex formula built from it (`Pipeline.RenamingLastPrenexKeepsMeaning`). `Pipeline.Run` and `Pipeline.Convert` keep the page's order,
so the model of the pipeline stays faithful to the code as written.
