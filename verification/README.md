# rose-lisp interpreter core in Dafny

This project models the core of rose-lisp, a small Lisp interpreter written in
JavaScript, and proves properties of the model. The pipeline runs text →
tokens → tree → value:

- **Lists** (`lists.dfy`). The persistent cons list everything is built on:
  `cons`, `car`, `cdr`, `map`, `reduce`, `reverse`, `replace` and `nth`. A
  list is the sequence of its values, head first.
- **Tokens and lexer** (`tokens.dfy`, `lexer.dfy`). A single pass over
  indices.
  - Whitespace is skipped.
  - Each `()[]` character becomes its own token.
  - A digit run becomes a number literal or throws `Malformed atom`.
  - A word that starts with `"` throws.
  - Any other run becomes a symbol.
  - The accumulated tokens are reversed at the end.
- **Tree and parser** (`syntax.dfy`, `parser.dfy`). A tree node's children
  are consed, so they arrive reversed.
  - `_parseSExp` recurses on `(` and returns on `)`.
  - `parse` takes `nthChild(0)`, which is the last top-level item, and
    `flip`s it back into source order.
- **Equality** (`equality.dfy`). `_divineEquality`, and the `equals`
  methods of lists, trees and tokens, over a universe of JavaScript values.
- **Environment** (`environment.dfy`). A chain of frames with `lookup`,
  `augment` and `bind`, plus `baseEnv`.
- **Values and builtins** (`values.dfy`, `primitives.dfy`). JavaScript
  truthiness, the `value || null` storing of list cells, and the primitives
  `+`, `>` and `print`.
- **Evaluator** (`evaluator.dfy`). `rEval`, `rApply` and `evalList`; the
  special forms `do`, `let` and `if`; and `readEval`. These are mutually
  recursive total functions. They terminate on the size of the tree, because
  the base environment creates no closures.
- **Properties** (`semantics.dfy`, `scoping.dfy`, `pipeline.dfy`).
  - Evaluation order and error propagation.
  - Scoping of `let` and `if`.
  - Worked examples of the whole pipeline on fixed inputs, proved.

Every exception the original throws is an `Err` of the `Errors.Error`
datatype.

Behaviours of the code worth knowing, all of which the model follows:

- `map` returns its results in reverse order.
- `replace` swaps every match, not just the first.
- `parse` returns the last top-level form, not the first.
- When the brackets balance (every `(` closed and no unmatched `)`),
  trailing whitespace makes `parse` throw: it lexes to a final empty symbol,
  which becomes the last top-level item. An unmatched `)` ends parsing
  before that symbol is reached.
- `nth(0)` of the empty list answers `null` rather than throwing.
- The else-arm of `if` is evaluated in a fresh child of the base
  environment, so it does not see the caller's bindings.

## Model

| member | source | states |
|---|---|---|
| `Lists.Car` | src/parser.js:16-18 | `car` yields the head exactly when the list is non-empty, and `null` for the empty list |
| `Lists.Cdr` | src/parser.js:19-21 | `cdr` of a non-empty list is one shorter; the terminal node's `next` is `null` |
| `Lists.Cons` | src/parser.js:4-15 | `cons(x)` gives a list one longer whose `car` is `x` and whose `cdr` is the receiver itself, unchanged |
| `Lists.MapOnto` | src/parser.js:22-32 | the `map` loop puts `f` of the last walked value first, and keeps the accumulator as the tail |
| `Lists.Map` | src/parser.js:22-32 | `map(f)` has the same length, and position `i` holds `f` of the value at the mirrored position: the results are reversed |
| `Lists.MapThenReverse` | src/parser.js:22-62 | reversing the result of `map` gives `f` applied in source order |
| `Lists.ReverseOnto` | src/parser.js:52-62 | the `reverse` loop lays the walked values down mirrored in front of the accumulator |
| `Lists.Reverse` | src/parser.js:52-62 | `reverse` has the same length, and position `i` holds the value at the mirrored position |
| `Lists.ReverseInvolutive` | src/parser.js:52-62 | reversing twice restores the list |
| `Lists.FoldLeftCons` | src/parser.js:33-51 | left-folding a list with a value in front is folding the rest from the updated accumulator |
| `Lists.ReduceOnto` | src/parser.js:46-48 | the `each` loop of `reduce` equals the reference left fold |
| `Lists.Reduce` | src/parser.js:33-51 | `reduce`: the empty list answers the seed; a seed is folded through every value; with no seed, `car` is the seed and the rest is folded |
| `Lists.ReduceSeeded` | src/parser.js:33-51 | `reduce` with a supplied seed is the left fold from that seed, the empty list included |
| `Lists.ReplaceOnto` | src/parser.js:63-80 | the `replace` loop swaps each match in mirrored order and records whether any value matched |
| `Lists.Replace` | src/parser.js:63-82 | `replace` answers `null` exactly when nothing matches; otherwise a same-length list in the original order with every matching value swapped |
| `Lists.NthFrom` | src/parser.js:113-125 | the `nth` loop throws exactly when it must step past the last node, and otherwise lands on the value `n - i` further on |
| `Lists.Nth` | src/parser.js:113-125 | `nth(n)` throws exactly when `n >= 1` and `n >= length`; it answers the value at index `n`, or `car` when `n <= 0` (so `nth(0)` of the empty list is `null`) |
| `Values.Stored` | src/parser.js:5 | `value \|\| null`: a truthy value is stored as itself and a falsy one as `null`, so truthiness is preserved |
| `Values.Truthy` | src/primitives.js:129 | exactly `0`, `false` and `null` are falsy; `nil` and every builtin are truthy |
| `Values.StoredNumeric` | src/utils.js:38-40 | storing a value changes neither whether `isNumber` accepts it nor the number it coerces to |
| `Values.IsNumeric` | src/utils.js:38-40 | `isNumber` rejects exactly `nil` and the builtins, which coerce to `NaN`; the numbers it accepts coerce as `Values.StoredNumeric` and `Primitives.GreaterThan` use |
| `Lexer.SkipWhitespace` | src/parser.js:362-376 | `_advanceThroughWhitespace` stops at the first non-whitespace index, or at the end, passing only whitespace |
| `Lexer.RunEnd` | src/parser.js:392-397 | a symbol run ends at the first separator or at the end, with no separator inside it |
| `Lexer.NumberEnd` | src/parser.js:404-416 | `_nextNumber`'s loop succeeds exactly when the run up to the next separator is all digits, else throws `Malformed atom` |
| `Lexer.NextNumber` | src/parser.js:404-416 | `_nextNumber` yields the whole run up to the next separator as a well-formed number literal when it is all digits, and throws `Malformed atom` otherwise |
| `Lexer.NextTok` | src/parser.js:377-403 | `_nextTok`: the token is well formed and scanning advances; it yields the empty symbol exactly when only whitespace was left; it throws only `Malformed atom` or the string-literal failure |
| `Lexer.LexFrom` | src/parser.js:346-357 | whatever `lex` goes on to scan, the tokens already accumulated come first in its result, back in source order |
| `Lexer.Lex` | src/parser.js:458-462 | `lex` equals the reference tokenization that scans the input in source order |
| `Lexer.LexFromIsTokenize` | src/parser.js:346-357 | the accumulate-then-reverse loop of `lex` equals the accumulated tokens followed by the in-order tokenization of the rest |
| `Lexer.NextTokSpelling` | src/parser.js:377-421 | one token step consumes whitespace and then exactly the token's characters |
| `Lexer.TokenizeSpelling` | src/parser.js:377-421 | the tokens spell the remaining input with its whitespace removed |
| `Lexer.LexSpellsInput` | src/parser.js:346-421 | a successful `lex` loses and invents nothing: the spellings concatenate to the input without whitespace, and every token is well formed |
| `Lexer.TokenizeWellFormed` | src/parser.js:377-421 | every token scanned is well formed |
| `Lexer.TokenizeTrailing` | src/parser.js:359-401 | the empty symbol can only be the last token, and it is the last exactly when the input ends in whitespace |
| `Lexer.LexTrailingWhitespace` | src/parser.js:346-401 | `lex` of non-empty input ends with `Symbol("")` exactly when the input ends in whitespace, and the empty symbol occurs nowhere else |
| `Lexer.NextTokWords` | src/parser.js:377-421 | from a word boundary, one step passes no rejected word and ends on a boundary, or fails on the first rejected word |
| `Lexer.TokenizeErrors` | src/parser.js:377-455 | tokenizing succeeds exactly when no later word is rejected, and a failure reports the leftmost rejected word |
| `Lexer.LexErrors` | src/parser.js:377-416 | `lex` throws exactly when some word starts with a quote (the string-literal constructor at src/parser.js:292-300 fails) or starts with a digit and holds a non-digit (`_nextNumber`); the leftmost such word decides the error |
| `Syntax.AddChild` | src/parser.js:229-233 | `addChild` makes the new child the head, with the earlier children as its tail |
| `Syntax.Flip` | src/parser.js:218-228 | `flip` returns a token as it is, and a node as a node with as many children |
| `Syntax.FlipIsListMap` | src/parser.js:218-228 | `flip`'s children are exactly the list `map` of `flip` over the children |
| `Syntax.FlipInvolutive` | src/parser.js:218-228 | flipping twice restores every level of the tree |
| `Parser.ParseSExp` | src/parser.js:474-492 | `_parseSExp` always returns a node, and leaves a suffix of its tokens unconsumed |
| `Parser.ParseTokens` | src/parser.js:469-473 | `Parser.parse` answers `null` exactly when the top-level node has no children |
| `Parser.NthChild` | src/parser.js:234-236 | `nthChild(0)` never throws and answers `car` of the children |
| `Parser.FlipParsed` | src/parser.js:495-499 | the final `flip` succeeds exactly on a node, giving its flip, and throws on `null` or a bare token |
| `Parser.ParseAndFlip` | src/parser.js:465-499 | for the tokens of any paren-free forms, parsing answers the last form in source order, or throws when it is a bare token or there is none; a success is always a node |
| `Parser.Parse` | src/parser.js:495-499 | `parse` propagates a lexing error, and input that lexes to the tokens of paren-free forms parses to the last of them |
| `Parser.BuiltCons` | src/parser.js:218-233 | a child consed in front of a node's children ends up last once the node is flipped |
| `Parser.ParseUnparseAll` | src/parser.js:474-492 | reading the tokens of paren-free forms consumes exactly those tokens and adds each form, unflipped, to the children |
| `Parser.ParseNodeStep` | src/parser.js:482-485 | the tokens of a parenthesised node add that node, unflipped, to the children |
| `Parser.ParseYieldsLastForm` | src/parser.js:465-499 | parsing the tokens of paren-free forms yields the last top-level form in source order at every level; it throws when that form is a bare token or there is none |
| `Parser.ParseUnparse` | src/parser.js:495-499 | round trip: the tokens of a paren-free node parse back to that node |
| `Parser.UnmatchedCloseEndsParse` | src/parser.js:484-485 | an unmatched top-level `)` ends parsing; whatever follows it is ignored |
| `Parser.UnclosedNodeIsClosedAtEnd` | src/parser.js:478-491 | running out of tokens closes an open node, so a `(` never closed, after any complete top-level forms, still yields its node |
| `Parser.TrailingTokenFailsParse` | src/parser.js:469-499 | a final bare top-level token, such as the empty symbol from trailing whitespace, makes `parse` throw |
| `Parser.UnparseAllAppend` | src/parser.js:474-492 | the tokens of forms followed by a form are their tokens followed by its tokens |
| `Equality.Divine` | src/parser.js:126-136 | `_divineEquality` defers to the left operand's `equals`, else the right's, else `===`; reflexive by `Equality.DivineReflexive` |
| `Equality.MethodEquals` | src/parser.js:237-264 | a token's `equals` holds only against a string or a token, and a list's or tree's only against a list, an array or a tree |
| `Equality.TokenEquals` | src/parser.js:254-264 | `Token.equals` holds only against a string or a token, and never against a string when its `text` is unset |
| `Equality.ListEquals` | src/parser.js:164-172 | list `equals` holds only against a list or an array of the same length; `Equality.ListEqualsPairwise` gives the values |
| `Equality.CompWithLL` | src/parser.js:154-163 | `_compWithLL` holds only between lists of equal length; `Equality.CompWithLLPairwise` gives the values |
| `Equality.CompWithArr` | src/parser.js:137-153 | the `_compWithArr` loop; `Equality.CompWithArrPairwise` states it holds exactly when the values equal the array's slots pairwise |
| `Equality.CompWithLLPairwise` | src/parser.js:154-163 | `_compWithLL` holds exactly when the lengths match and the values are pairwise equal under `_divineEquality` |
| `Equality.CompWithArrPairwise` | src/parser.js:137-153 | the loop of `_compWithArr` holds exactly when the values are pairwise equal to the array's slots |
| `Equality.ListEqualsPairwise` | src/parser.js:126-172 | list `equals` holds against a list or an array exactly when the lengths match and the values are pairwise equal; it holds against nothing else |
| `Equality.DivineReflexive` | src/parser.js:126-136 | `_divineEquality` is reflexive on every value |
| `Equality.ListTreeAsymmetry` | src/parser.js:164-172 | a tree equals a list with the same values, but that list does not equal the tree |
| `Equality.TokenEqualsText` | src/parser.js:254-264 | `Token.equals` compares `text` with a string or with another token's text, whatever kind of token; a number literal has no text, so it equals no string, and all number literals are equal |
| `Equality.TreeEqualityIgnoresDigits` | src/parser.js:237-245 | tree `equals` is reflexive, yet trees differing only in a number literal's digits are equal |
| `Environment.Lookup` | src/primitives.js:13-21 | `lookup` succeeds exactly when some frame binds the name, answering the innermost binding; it reports the name missing otherwise, and the terminal environment has no frame |
| `Environment.Augment` | src/primitives.js:23-25 | `augment` puts a new frame in front of the receiver, which stays unchanged as its tail |
| `Environment.Bind` | src/primitives.js:27-31 | `bind` writes the name into the innermost frame only, keeping its other names and every other frame |
| `Environment.Builtins` | src/primitives.js:143-150 | the frame of builtins binds exactly `do`, `let`, `if`, `>`, `+` and `print`, the first three to special forms and the rest to primitive functions |
| `Environment.BaseEnv` | src/primitives.js:143-150 | `baseEnv` is one frame, in which exactly the builtin names resolve |
| `Environment.FreshEnv` | src/primitives.js:143-150 | `baseEnv.augment({})` is an empty frame over the frame of builtins |
| `Environment.LookupAugment` | src/primitives.js:13-25 | after `augment`, a name in the new frame resolves there, and any other name resolves as in the receiver |
| `Environment.LookupBind` | src/primitives.js:13-31 | after `bind`, the name resolves to the bound value, and other names resolve as before |
| `Environment.FreshEnvResolves` | src/primitives.js:143-150 | in a fresh environment exactly `do`, `let`, `if`, `>`, `+` and `print` resolve, each to its builtin |
| `Primitives.PlusStep` | src/primitives.js:49-51 | the `reduce` callback of `+`; with `Primitives.FoldPlusStep` its fold is the sum while every argument is numeric, and a string from the first that is not |
| `Primitives.FoldPlusStep` | src/primitives.js:48-52 | folding `x + y` from a number adds the reference sum when every argument is numeric; otherwise the total becomes a string |
| `Primitives.FoldPlusStepString` | src/primitives.js:48-52 | once the running total is a string, it stays one |
| `Primitives.Plus` | src/primitives.js:48-52 | `+` is the sum of its arguments (0 for none) exactly when all are numeric; otherwise JavaScript concatenates strings, which the model reports as `StringConcatenation` |
| `Primitives.GtLoop` | src/primitives.js:57-64 | the `>` callback throws exactly when some pair holds a non-number, and otherwise its flag is whether every pair descends |
| `Primitives.GreaterThan` | src/primitives.js:54-67 | `>` with fewer than two arguments is true unchecked; otherwise it throws iff any argument is non-numeric, even after a false pair, and is true iff strictly decreasing |
| `Primitives.StoredAll` | src/core.js:40-45 | the arguments `evalList` hands over: each value as a list cell stores it |
| `Primitives.NumericOpsIgnoreStoring` | src/primitives.js:48-67 | storing falsy arguments as `null` changes neither `+` nor `>` |
| `Primitives.SumStored` | src/primitives.js:48-52 | storing the arguments leaves them numeric and their sum unchanged |
| `Primitives.Print` | src/primitives.js:69-75 | `print` throws exactly when some argument is `null`, whose textual form fails, and otherwise answers `nil` |
| `Primitives.PrintRejectsFalsy` | src/primitives.js:69-75 | after storing, `print` throws whenever some argument was falsy, `0` included |
| `Evaluator.Eval` | src/core.js:6-29 | `rEval` of a lexed number literal is a non-negative integer in any environment, of a symbol its lookup, and of a bracket token or `()` bad parser output |
| `Evaluator.ApplySpecial` | src/core.js:19-22 | the special form is handed the unevaluated arguments: an empty `do` answers `null`, and `let` and `if` reject malformed arguments before evaluating any |
| `Evaluator.DoForms` | src/primitives.js:84-89 | an empty `do` answers its seed, which is `null` |
| `Evaluator.LetBind` | src/primitives.js:104-116 | the binding loop changes only the innermost frame, and adds exactly the names of the binding group to it |
| `Evaluator.LetForm` | src/primitives.js:91-119 | `let` throws on a missing or non-form first argument and on an odd group before pushing a frame; an empty group runs the body in one new empty frame |
| `Evaluator.IfForm` | src/primitives.js:121-124 | `if` throws unless given two or three arguments |
| `Evaluator.EvalMap` | src/core.js:40-45 | the `map` step of `evalList` yields one value per argument on top of its accumulator |
| `Evaluator.EvalList` | src/core.js:40-45 | `evalList` yields one value per argument |
| `Evaluator.Apply` | src/core.js:31-38 | `rApply` dispatches `+`, `>` and `print` to their `primitiveApply`, and fails to call exactly the values that are not primitive functions |
| `Evaluator.ReadEval` | src/core.js:69-74 | `readEval` propagates a lexing error; for input that lexes to the tokens of paren-free forms it evaluates the last form, in the environment supplied or a fresh one, and throws when that form is a bare token or there is none |
| `Semantics.EvalMapPointwise` | src/core.js:40-43 | the `map` step evaluates from the head, storing each value mirrored on the accumulator; the leftmost failing argument decides the error |
| `Semantics.EvalListPointwise` | src/core.js:40-45 | `evalList` succeeds exactly when every argument evaluates, listing their stored values in source order; otherwise the leftmost failure decides the error |
| `Semantics.DoReturnsLast` | src/primitives.js:84-89 | `do` evaluates its forms in order in one environment: empty answers `null`, otherwise the last value, or the first failure |
| `Semantics.DoFromAnySeed` | src/primitives.js:84-89 | from any seed, `do` succeeds iff every form does, answering the last value, else the first failure |
| `Semantics.EvalLeaf` | src/core.js:11-14 | a lexed number literal evaluates to its decimal value, a symbol to its innermost binding (else not found), and a bracket token is bad parser output |
| `Semantics.SmallLiterals` | src/core.js:11-12 | the literals `0`, `1` and `2` evaluate to their values in any environment |
| `Semantics.EvalForm` | src/core.js:15-28 | the head is evaluated first and a failing head decides; a special form gets the unevaluated arguments; anything else is applied to the stored, left-to-right evaluated arguments; `()` is bad parser output |
| `Semantics.EvalNumericForm` | src/core.js:23-25 | `(+ ...)` and `(> ...)` act on the arguments as evaluated, before storing |
| `Semantics.EvalPrintForm` | src/primitives.js:69-75 | `(print ...)` throws exactly when some argument evaluates falsy |
| `Semantics.IfTakesOneArm` | src/primitives.js:121-139 | `if`'s untaken arm does not affect the result; truthy answers the then-arm in the caller's environment; falsy answers the else-arm in a fresh environment, or `nil` |
| `Semantics.LetPushesOneFrame` | src/primitives.js:104-118 | `let` pushes exactly one frame binding exactly its group's names, then runs its body as an implicit `do` there; a failing binding decides |
| `Semantics.LetBindAppend` | src/primitives.js:106-116 | the binding loop goes pair by pair: a group split in two binds its second half in the environment its first half left, and a failure in the first half decides |
| `Semantics.LetBindLast` | src/primitives.js:106-116 | the last pair `x rhs` evaluates `rhs` where every earlier pair is bound and binds `x` to that value in the innermost frame; a failing `rhs` decides the result |
| `Semantics.LetRejects` | src/primitives.js:91-113 | `let` throws on a missing or non-form first argument, an odd group, or a non-symbol left-hand side at any pair the loop reaches, before that pair's right-hand side is evaluated |
| `Scoping.LetBindsSequentially` | src/primitives.js:104-116 | `(let (x 1 y x) y)` answers 1: later right-hand sides see earlier bindings |
| `Scoping.LetFrameEndsWithLet` | src/primitives.js:104-118 | `(do (let (x 1) x) x)` throws: the `let` frame is not visible after it |
| `Scoping.LetXOne` | src/primitives.js:91-118 | `(let (x 1) body)` answers `body` evaluated with `x` bound in one new frame |
| `Scoping.ElseArmIgnoresLet` | src/primitives.js:132-134 | `(let (x 1) (if 0 0 x))` throws: the else-arm does not see `x` |
| `Scoping.ThenArmSeesLet` | src/primitives.js:129-130 | `(let (x 1) (if 1 x 0))` answers 1: the then-arm sees `x` |
| `Pipeline.LexSum` | src/parser.js:458-462 | `lex("(+ 1 2)")` yields `(`, `+`, `1`, `2`, `)` |
| `Pipeline.LexSumSpace` | src/parser.js:458-462 | `lex("(+ 1 2) ")` yields the same tokens followed by the empty symbol |
| `Pipeline.ParseSum` | src/parser.js:495-499 | `parse("(+ 1 2)")` yields the tree `(+ 1 2)` |
| `Pipeline.EvalSum` | src/core.js:6-29 | the tree `(+ 1 2)` evaluates to 3 in a fresh environment |
| `Pipeline.ReadEvalSum` | src/core.js:69-74 | `readEval("(+ 1 2)")` with no environment answers 3 |
| `Pipeline.ReadEvalTrailingSpace` | src/core.js:69-74 | `readEval("(+ 1 2) ")` throws, because trailing whitespace leaves a bare token last |

## Left out

- The REPL and `print`'s console output: these are I/O. `print` is kept
  only for whether it throws and for the `nil` it answers.
- The non-primitive branch of `rApply`. Nothing in the base environment
  creates a user function, so `Evaluator.Apply` reports every other value as
  not callable. This is also why evaluation is a terminating function.
- String literals: building one always fails, so a word that starts with
  `"` is an error outcome; a `"` inside a symbol is an ordinary character.
  `_inEscapeCode` and `unescapeString` are not modelled.
- Primitives.Plus: when an argument is not a number, JavaScript returns a
  concatenated string. The model returns the error `StringConcatenation`
  instead, because strings are not values in this model.
- Numbers are unbounded integers, while JavaScript numbers are doubles.
  Neither `parseInt` of a long digit run nor a sum beyond 2^53 loses
  precision here. A literal or sum beyond about 1.8e308 is `Infinity` in
  JavaScript, which `utils.isNumber` rejects, so `>` throws on it where
  `Primitives.GreaterThan` answers.
- Evaluator.Eval gives `MalformedAtom` for a number literal whose text is
  not all digits. The lexer never builds one.
- `lookup` uses the JavaScript `in` operator, which would also find
  `Object.prototype` members such as `toString`. Frames here hold only what
  was bound.
- Evaluator.LetBind requires an even group and a non-empty environment. Its
  only caller, `let`, checks the first and has just pushed a frame.
- A `cons` of `undefined` (which does not grow the list) and lists built
  with the one-argument constructor: production code never builds either.
- Lists.Cons: a cell holds its value unchanged, whereas the constructor
  stores `value || null`. The interpreter's lists hold tokens, trees and
  environment frames, which are objects and so always truthy, and the
  values `evalList` collects, where `Evaluator.EvalMap` applies
  `Values.Stored` before consing. So every list the interpreter builds is
  modelled exactly, but the generic contract says nothing about falsy cells.
- Lists.MapOnto: each cell is stated as exactly `f` of the walked value; a
  falsy result would be stored as `null` (see `Lists.Cons`).
- Lists.Map: likewise, a falsy result of `f` is `null` in the original.
- Lists.MapThenReverse: inherits the same gap from `Lists.Map`.
- Lists.ReplaceOnto: a falsy replacement is stored unchanged rather than as
  `null`, and values are matched with structural `==`. The original's `===`
  compares tokens and trees by identity, so two equal-looking tokens that
  are different objects match here and not there. The interpreter never
  calls `replace`.
- Lists.Replace: the same two differences as `Lists.ReplaceOnto`.
- Evaluator.LetBind: its own contract gives the frame's shape and names
  only; the values bound, and that each right-hand side sees the earlier
  bindings, are stated by `Semantics.LetBindAppend` and
  `Semantics.LetBindLast`.
- Semantics.LetPushesOneFrame: states the frame and its names; the values
  are stated by `Semantics.LetBindLast`.
- `toString`, `repr` formatting, `toArray`, `each` as a separate operation,
  and `AST.getRoot`, which relies on a field that is never set.
- Source positions of tokens (line and column) are not modelled.
- Equality is modelled over its own value universe (`Equality.Datum`).
  Arrays and plain objects compare by an identity number.
