# A verified model of the etoiletoi-kt Lisp interpreter

This project models the small Lisp interpreter in `etoiletoi-kt/src/main/kotlin/lisp.kt` in Dafny, together with the character statistics in `etoiletoi-kt/src/main/kotlin/torato.kt`, and proves properties of both.

The interpreter reads a program text in two steps: `tokenize` pads the parentheses and splits on spaces, then `parseList`/`parseSublist` build a tree of `LispValue`s from the shared, mutable token list. `evaluate` then walks that tree against a chain of `Environment` frames. It handles the special forms `quote`, `if`, `define`, `lambda`, `set!` and `+`, and calls `LispLambda` closures. `getStandardEnv` starts every program with the closures `+`, `fx`, `-` and `*`.

The modules follow the source's parts:

- `LispValues` (values.dfy) holds the value type, the `LispException` messages and the host crashes.
- `Environments` (environment.dfy) holds the frames and `define`/`get`/`isDefined`/`set`.
- `Tokenizer` (tokenizer.dfy) and `Parser` (parser.dfy) hold the reader. `Parser.TokenList` performs the parse in place on a token list, and its methods are proved equal to the functional description.
- `Evaluator` (evaluator.dfy) holds `evaluate`, the special forms, `invoke` and `eval`.
- `Bootstrap` (bootstrap.dfy) holds `addGlobals` and `getStandardEnv`.
- `Torato` (torato.dfy) holds `AdjacentMap.input`, `String.height` and `MAX_ADJACENT_LENGTH` (`MaxAdjacentLength`, 2).

How the model represents the interpreter:

- **Frames live in a store.** All environments are frames in one store, a sequence indexed by frame number. A closure holds the number of the frame it captured, so every closure made in a frame shares it, as the source's object references do. `define` and `set!` return the updated store.
- **Evaluation is bounded by fuel.** Evaluation takes a `fuel` argument: each nested `evaluate` costs one unit. The error `Exhausted` stands for the unbounded recursion that ends the source with a stack overflow. `EvalMonotone` proves that more fuel never changes a finished result.
- **Errors are kept in two kinds.** Errors the source throws as `LispException` are `Lisp(...)`, one constructor per message. Crashes of the JVM itself are `Host(...)`: a failed cast, an index out of bounds, and `subList(1, 0)`.

In these places the interpreter departs from a conventional Lisp, and the model follows the code:

- **`set!`:** `set!` and `Environment.set` look only at the current frame. A name bound only in an enclosing frame gives "is not defined" (`SetNeedsCurrentFrame`).
- **Booleans:** `evaluate` treats a `Bool` as an "Invalid expression". The reader has no syntax for booleans, so in a parsed program `if` always takes its then-branch (`IfTakesThenBranch`).
- **Nested lists:** `parseSublist` ends the enclosing list after a nested list, so `(a (b) c)` reads as `(a (b))` (`NestedListEndsEnclosing`).
- **`-` and `*`:** the standard environment binds them to closures that call themselves, so they run until the stack overflows (`MinusDiverges`, `TimesDiverges`).
- **Closure values as heads:** a list headed by a closure value drops one operand before the call (`ClosureHeadDropsOperand`).
- **Closure arguments:** `invoke` binds the parameters to the operands as written, not to their values (`OperandsPassedUnevaluated`).
- **`lambda` in program text:** by the nested-list rule, `(lambda (x) x)` reads as `(lambda (x))`, so every `lambda` the reader builds fails, with the arity message or with "Invalid argument list" (`ParsedLambdaFails`, `LambdaTextFails`). A parsed program therefore cannot make a closure with `lambda`; `LambdaCapturesFrame`, `ClosureLooksUpAtCallTime` and `OperandsPassedUnevaluated` describe closures built directly as trees.

## Model

| member | source | states |
|---|---|---|
| `Environments.NewFrame` | etoiletoi-kt/src/main/kotlin/lisp.kt:13-14 | a new environment is a frame with the given parent, appended after the existing frames, which are kept; it holds the given bindings (none for a bare `Environment(parent)`) |
| `Environments.Define` | etoiletoi-kt/src/main/kotlin/lisp.kt:16-18 | `define` inserts or overwrites the name in the current frame; the parent and every other frame are unchanged |
| `Environments.Set` | etoiletoi-kt/src/main/kotlin/lisp.kt:29-34 | `set` fails with "not defined in this context" exactly when the current frame lacks the name, even if an ancestor has it; otherwise it overwrites that one entry and changes no other frame |
| `Environments.FirstBinding` | etoiletoi-kt/src/main/kotlin/lisp.kt:20-23 | reference reading of a lookup: not found exactly when no frame on the chain has the name, else the value bound in the first frame on the chain that has it |
| `Environments.ClosuresWithinGrows` | etoiletoi-kt/src/main/kotlin/lisp.kt:13-35 | a value whose closures capture frames of a store still does so once the store has grown |
| `Environments.ChainReachesRoot` | etoiletoi-kt/src/main/kotlin/lisp.kt:20-23 | in a well-formed store the frames `get` visits follow the parent links one by one and end at a frame without parent |
| `Environments.GetIsInnermost` | etoiletoi-kt/src/main/kotlin/lisp.kt:20-23 | `get` returns the binding of the innermost frame on the parent chain that has the name |
| `Environments.DefineIsLocal` | etoiletoi-kt/src/main/kotlin/lisp.kt:16-23 | after `define` in frame f, lookups from any frame change only for that name and only when f is on the chain; from f itself the new value is found; parent chains are unchanged |
| `Tokenizer.ReplaceAppend` | etoiletoi-kt/src/main/kotlin/lisp.kt:216-217 | replacing a character distributes over concatenation |
| `Tokenizer.PadGuards` | etoiletoi-kt/src/main/kotlin/lisp.kt:216-217 | after padding, every parenthesis has a space on both sides |
| `Tokenizer.SplitPieces` | etoiletoi-kt/src/main/kotlin/lisp.kt:218 | `split(" ")` yields pieces without spaces, the first a prefix of the text |
| `Tokenizer.SplitJoin` | etoiletoi-kt/src/main/kotlin/lisp.kt:218 | joining the pieces of `split(" ")` with single spaces gives back the text |
| `Tokenizer.SplitIsolates` | etoiletoi-kt/src/main/kotlin/lisp.kt:216-218 | splitting a text whose parentheses touch only spaces leaves each parenthesis alone in its piece |
| `Tokenizer.DropBlankKeeps` | etoiletoi-kt/src/main/kotlin/lisp.kt:219 | the filter keeps only non-blank pieces of its input, and keeps every non-blank piece |
| `Tokenizer.DropBlankAppend` | etoiletoi-kt/src/main/kotlin/lisp.kt:219 | the filter keeps the order of the pieces: filtering a concatenation is concatenating the filtered parts |
| `Tokenizer.DropBlankKeepsAll` | etoiletoi-kt/src/main/kotlin/lisp.kt:219 | pieces that are all non-blank pass the filter unchanged |
| `Tokenizer.ReplaceAbsent` | etoiletoi-kt/src/main/kotlin/lisp.kt:216-217 | replacing a character that does not occur leaves the text unchanged |
| `Tokenizer.SplitAfterWord` | etoiletoi-kt/src/main/kotlin/lisp.kt:218 | a word without spaces followed by a space splits into that word, then the pieces of the rest |
| `Tokenizer.SplitSpaced` | etoiletoi-kt/src/main/kotlin/lisp.kt:218 | words written with single spaces, followed by a space, split into those words in order, then the pieces of the rest |
| `Tokenizer.PadFlat` | etoiletoi-kt/src/main/kotlin/lisp.kt:216-217 | padding `(` text `)` whose text has no parenthesis gives ` ( ` text ` ) ` |
| `Tokenizer.SplitFlat` | etoiletoi-kt/src/main/kotlin/lisp.kt:218 | a padded flat list splits into an empty piece, `(`, its atoms (one empty piece if none), `)` and an empty piece |
| `Tokenizer.DropFlat` | etoiletoi-kt/src/main/kotlin/lisp.kt:219 | the filter then leaves `(`, the atoms and `)` |
| `Tokenizer.TokenizeFlat` | etoiletoi-kt/src/main/kotlin/lisp.kt:214-221 | a flat list `(a1 ... an)` written with single spaces, whose atoms are non-blank and hold no space or parenthesis, tokenizes to `(`, the atoms in order, and `)` |
| `Tokenizer.CharCountAppend` | etoiletoi-kt/src/main/kotlin/lisp.kt:214-221 | the number of occurrences of a character in a concatenation is the sum over the parts |
| `Tokenizer.CharCountReplace` | etoiletoi-kt/src/main/kotlin/lisp.kt:216-217 | replacing a character by a text holding another character as often as the replaced one did keeps that character's count |
| `Tokenizer.PadKeepsParens` | etoiletoi-kt/src/main/kotlin/lisp.kt:216-217 | padding neither adds nor removes a parenthesis |
| `Tokenizer.JoinKeepsCount` | etoiletoi-kt/src/main/kotlin/lisp.kt:218 | joining pieces with spaces keeps the count of every other character |
| `Tokenizer.SplitKeepsCount` | etoiletoi-kt/src/main/kotlin/lisp.kt:218 | `split(" ")` loses no character other than the space |
| `Tokenizer.DropBlankKeepsCount` | etoiletoi-kt/src/main/kotlin/lisp.kt:219 | the filter loses no character that is not whitespace |
| `Tokenizer.IsolatedParensCount` | etoiletoi-kt/src/main/kotlin/lisp.kt:214-221 | where every token holding a parenthesis is that parenthesis alone, counting the parenthesis counts those tokens |
| `Tokenizer.TokensWellFormed` | etoiletoi-kt/src/main/kotlin/lisp.kt:214-221 | no token is empty, blank or contains a space, a token containing a parenthesis is that parenthesis alone, and there are exactly as many `(` tokens as `(` characters in the program, and as many `)` tokens as `)` characters |
| `Tokenizer.TokenizeSum` | etoiletoi-kt/src/main/kotlin/lisp.kt:214-221 | `(+ 1 2)` tokenizes to `(`, `+`, `1`, `2`, `)` |
| `Tokenizer.TokenizeEmpty` | etoiletoi-kt/src/main/kotlin/lisp.kt:214-221 | `()` tokenizes to `(`, `)` |
| `Tokenizer.TokenizeFx` | etoiletoi-kt/src/main/kotlin/lisp.kt:214-221 | `(fx 5)` tokenizes to `(`, `fx`, `5`, `)` |
| `Tokenizer.TokenizeNothing` | etoiletoi-kt/src/main/kotlin/lisp.kt:214-221 | the empty text has no tokens |
| `Parser.ParseAtom` | etoiletoi-kt/src/main/kotlin/lisp.kt:252-257 | a token is a Number exactly when, once control and space characters at either end are dropped, it is a numeral, with the value it denotes; any other token is the Symbol of that name |
| `Parser.NumeralWithLineBreak` | etoiletoi-kt/src/main/kotlin/lisp.kt:252-257 | a numeral with a line break attached, as `tokenize` leaves it in a multi-line program, still reads as a Number |
| `Parser.RenderParses` | etoiletoi-kt/src/main/kotlin/lisp.kt:252-257 | the decimal rendering of any integer parses back to that Number |
| `Parser.ParseListSpec` | etoiletoi-kt/src/main/kotlin/lisp.kt:223-233 | `parseList` fails only with "Unexpected EOF" or "Unexpected ')'"; it yields Numbers, Symbols and Lists only; an atom leaves its token in place and a list leaves `(` followed by its `)` |
| `Parser.ParseSublistSpec` | etoiletoi-kt/src/main/kotlin/lisp.kt:235-249 | `parseSublist` stops at a `)` it leaves in the view, and returns a List extending what it had collected |
| `Parser.Parse` | etoiletoi-kt/src/main/kotlin/lisp.kt:210-212 | `parse` of a text without tokens is "Unexpected EOF"; it fails with a reader error only and never yields a Bool or a closure |
| `Parser.TokenList.constructor` | etoiletoi-kt/src/main/kotlin/lisp.kt:220 | the token list holds the tokens |
| `Parser.TokenList.RemoveFirst` | etoiletoi-kt/src/main/kotlin/lisp.kt:241 | `removeFirst` on a view removes exactly the view's first token from the backing list |
| `Parser.TokenList.ParseList` | etoiletoi-kt/src/main/kotlin/lisp.kt:223-233 | `parseList` in place gives the result and leaves the token list that `ParseListSpec` describes; tokens before the view are untouched |
| `Parser.TokenList.ParseSublist` | etoiletoi-kt/src/main/kotlin/lisp.kt:235-249 | the `while` loop of `parseSublist` in place gives the result and leaves the token list that `ParseSublistSpec` describes |
| `Parser.ParseProgram` | etoiletoi-kt/src/main/kotlin/lisp.kt:210-212 | parsing in place a fresh token list of the text yields `Parse` of the text |
| `Parser.SublistCollectsAtoms` | etoiletoi-kt/src/main/kotlin/lisp.kt:238-242 | inside a list, atom tokens are collected one by one, in order |
| `Parser.NestedListLeavesClose` | etoiletoi-kt/src/main/kotlin/lisp.kt:228-242 | a nested list of atoms is read whole and leaves its `(` and `)` in the view |
| `Parser.NestedListEndsEnclosing` | etoiletoi-kt/src/main/kotlin/lisp.kt:228-242 | in `( xs ( ys ) zs`, the atoms `xs` and the nested list are collected and nothing of `zs` is, whatever `zs` holds |
| `Parser.NestedListExample` | etoiletoi-kt/src/main/kotlin/lisp.kt:228-249 | the tokens of `(a (b) c)` read as `(a (b))` |
| `Parser.UnclosedSublist` | etoiletoi-kt/src/main/kotlin/lisp.kt:224-242 | a list view with no `)` fails with "Unexpected EOF" |
| `Parser.UnclosedList` | etoiletoi-kt/src/main/kotlin/lisp.kt:223-242 | an opened list that is never closed fails with "Unexpected EOF" |
| `Parser.CloseWhereExpressionExpected` | etoiletoi-kt/src/main/kotlin/lisp.kt:230 | a `)` where an expression is expected fails with "Unexpected ')'" |
| `Parser.ParseSumExample` | etoiletoi-kt/src/main/kotlin/lisp.kt:210-257 | `(+ 1 2)` reads as the List of Symbol `+`, Number 1 and Number 2 |
| `Parser.ParseEmptyListExample` | etoiletoi-kt/src/main/kotlin/lisp.kt:210-249 | `()` reads as the empty List |
| `Parser.ParseNothingExample` | etoiletoi-kt/src/main/kotlin/lisp.kt:210-226 | the empty text fails with "Unexpected EOF" |
| `Parser.ParseFxExample` | etoiletoi-kt/src/main/kotlin/lisp.kt:210-257 | `(fx 5)` reads as the List of Symbol `fx` and Number 5 |
| `Parser.FlatTokensParse` | etoiletoi-kt/src/main/kotlin/lisp.kt:223-249 | the tokens `(`, atoms, `)` read as the List of the atoms |
| `Parser.PlainAtomsNoParens` | etoiletoi-kt/src/main/kotlin/lisp.kt:228-231 | no atom without parentheses is a parenthesis token |
| `Parser.ParseFlat` | etoiletoi-kt/src/main/kotlin/lisp.kt:210-257 | a flat list `(a1 ... an)` written with single spaces reads as the List of what `parseAtom` makes of each atom |
| `Parser.ParseDefineExample` | etoiletoi-kt/src/main/kotlin/lisp.kt:210-257 | `(define x 211)` reads as the List of Symbols `define` and `x` and Number 211 |
| `Evaluator.Eval` | etoiletoi-kt/src/main/kotlin/lisp.kt:83-138 | `evaluate` never removes a frame, a binding or a parent link, also when it fails |
| `Evaluator.EvalQuote` | etoiletoi-kt/src/main/kotlin/lisp.kt:260-266 | `quote` succeeds exactly with one operand and returns it unevaluated; otherwise it fails with its arity message |
| `Evaluator.EvalLambda` | etoiletoi-kt/src/main/kotlin/lisp.kt:286-303 | `lambda` succeeds exactly with two operands of which the first is a List; the closure holds those parameters unchecked, the raw body and the current frame; otherwise it fails with the arity message, or "Invalid argument list" when there are two operands |
| `Evaluator.EvalIf` | etoiletoi-kt/src/main/kotlin/lisp.kt:306-320 | `if` keeps every frame and binding |
| `Evaluator.EvalDefine` | etoiletoi-kt/src/main/kotlin/lisp.kt:269-283 | `define` keeps every frame and binding |
| `Evaluator.EvalSet` | etoiletoi-kt/src/main/kotlin/lisp.kt:323-340 | `set!` keeps every frame and binding |
| `Evaluator.EvalSum` | etoiletoi-kt/src/main/kotlin/lisp.kt:141-150 | a successful `+` yields a Number, and no frame or binding is lost |
| `Evaluator.Invoke` | etoiletoi-kt/src/main/kotlin/lisp.kt:69-76 | a call keeps every existing frame and binding |
| `Evaluator.Run` | etoiletoi-kt/src/main/kotlin/lisp.kt:38-40 | `eval` keeps every existing frame and binding |
| `Evaluator.BindParameters` | etoiletoi-kt/src/main/kotlin/lisp.kt:71-73 | the loop of `invoke` builds exactly the frame, or meets exactly the crash, that binding the parameters in order describes |
| `Evaluator.BindingsFailureSticks` | etoiletoi-kt/src/main/kotlin/lisp.kt:71-73 | once binding has crashed, the later parameters leave that crash in place |
| `Evaluator.BindingsSucceed` | etoiletoi-kt/src/main/kotlin/lisp.kt:71-73 | binding succeeds exactly when every parameter is a Symbol and there are at least as many operands; otherwise it is a failed cast or an index out of bounds |
| `Evaluator.BindingsNames` | etoiletoi-kt/src/main/kotlin/lisp.kt:71-73 | the new frame binds exactly the parameter names |
| `Evaluator.BindingsLastWins` | etoiletoi-kt/src/main/kotlin/lisp.kt:71-73 | each parameter name is bound to the operand at the position of its last occurrence |
| `Evaluator.BindingsBoolFree` | etoiletoi-kt/src/main/kotlin/lisp.kt:71-73 | when no operand holds a `Bool`, no value the new frame binds holds one |
| `Evaluator.SumOfNumerals` | etoiletoi-kt/src/main/kotlin/lisp.kt:141-150 | `+` over numerals returns their sum and changes nothing |
| `Evaluator.PlusIsSpecial` | etoiletoi-kt/src/main/kotlin/lisp.kt:105-111 | `(+ n1 ... nk)` is the special form whatever `+` is bound to: the sum of the numerals, with `(+)` being 0 |
| `Evaluator.SumSplits` | etoiletoi-kt/src/main/kotlin/lisp.kt:141-150 | `+` works left to right: the sum over all operands is the sum over the first k, continued over the rest from the store and total they leave, unless those already failed |
| `Evaluator.SumStopsAtNonNumber` | etoiletoi-kt/src/main/kotlin/lisp.kt:145-148 | when the operands before position k succeed and operand k evaluates to something other than a Number, `+` is a failed cast, and the store is the one operand k left: no later operand is evaluated |
| `Evaluator.QuoteReturnsOperand` | etoiletoi-kt/src/main/kotlin/lisp.kt:106 | `(quote e)` yields `e` unevaluated and changes nothing, even when `e` names nothing |
| `Evaluator.DefineBindsInCurrentFrame` | etoiletoi-kt/src/main/kotlin/lisp.kt:269-283 | `(define name e)` evaluates `e`; a failure is the form's result; otherwise the value is bound in the current frame, returned, and `name` then looks up to it |
| `Evaluator.SetNeedsCurrentFrame` | etoiletoi-kt/src/main/kotlin/lisp.kt:323-340 | `(set! name e)` fails with "is not defined" and changes nothing, before evaluating `e`, unless the current frame binds `name`; otherwise it evaluates `e` and overwrites that binding with the value |
| `Evaluator.FormsCheckFirstOperand` | etoiletoi-kt/src/main/kotlin/lisp.kt:276-277 | `define` and `set!` with a non-Symbol first operand, and `lambda` with a non-List one, fail with "requires a symbol" or "Invalid argument list" and change nothing |
| `Evaluator.IfSelectsOnFalseOnly` | etoiletoi-kt/src/main/kotlin/lisp.kt:306-320 | `if` evaluates the condition, then only the else-branch when it is `Bool(false)` and only the then-branch otherwise; a failing condition ends it |
| `Evaluator.OperandsPassedUnevaluated` | etoiletoi-kt/src/main/kotlin/lisp.kt:113-116 | a call binds parameters to the operands as written: a closure returning its parameter returns the raw operand, in one new frame whose parent is the captured frame |
| `Evaluator.ClosureLooksUpAtCallTime` | etoiletoi-kt/src/main/kotlin/lisp.kt:64-76 | a closure's free name is looked up when it runs, along the chain of the frame it captured, so later definitions there are seen |
| `Evaluator.GetOfPrefix` | etoiletoi-kt/src/main/kotlin/lisp.kt:20-23 | creating new frames changes no lookup from an existing frame |
| `Evaluator.EvalMonotone` | etoiletoi-kt/src/main/kotlin/lisp.kt:83-138 | once an evaluation finishes within some fuel, any larger fuel gives the same value and store |
| `Evaluator.IfMonotone` | etoiletoi-kt/src/main/kotlin/lisp.kt:306-320 | the same for `if` |
| `Evaluator.DefineMonotone` | etoiletoi-kt/src/main/kotlin/lisp.kt:269-283 | the same for `define` |
| `Evaluator.SetMonotone` | etoiletoi-kt/src/main/kotlin/lisp.kt:323-340 | the same for `set!` |
| `Evaluator.SumMonotone` | etoiletoi-kt/src/main/kotlin/lisp.kt:141-150 | the same for `+` |
| `Evaluator.InvokeMonotone` | etoiletoi-kt/src/main/kotlin/lisp.kt:69-76 | the same for a call |
| `Evaluator.EvalBoolFree` | etoiletoi-kt/src/main/kotlin/lisp.kt:83-138 | evaluating an expression without `Bool` in a store without `Bool` yields no `Bool` and leaves no `Bool` behind |
| `Evaluator.GetBoolFree` | etoiletoi-kt/src/main/kotlin/lisp.kt:20-23 | a lookup in a store without `Bool` finds no `Bool` |
| `Evaluator.DefineKeepsStoreBoolFree` | etoiletoi-kt/src/main/kotlin/lisp.kt:16-18 | binding a value without `Bool` keeps the store free of `Bool` |
| `Evaluator.IfBoolFree` | etoiletoi-kt/src/main/kotlin/lisp.kt:306-320 | the same invariant for `if` |
| `Evaluator.DefineBoolFree` | etoiletoi-kt/src/main/kotlin/lisp.kt:269-283 | the same invariant for `define` |
| `Evaluator.SetBoolFree` | etoiletoi-kt/src/main/kotlin/lisp.kt:323-340 | the same invariant for `set!` |
| `Evaluator.SumBoolFree` | etoiletoi-kt/src/main/kotlin/lisp.kt:141-150 | the same invariant for `+` |
| `Evaluator.InvokeBoolFree` | etoiletoi-kt/src/main/kotlin/lisp.kt:69-76 | the same invariant for a call |
| `Evaluator.ShapedIsBoolFree` | etoiletoi-kt/src/main/kotlin/lisp.kt:252-257 | nothing the reader builds contains a `Bool` |
| `Evaluator.RunBoolFree` | etoiletoi-kt/src/main/kotlin/lisp.kt:38-40 | running parsed programs one after another never introduces a `Bool` |
| `Evaluator.IfTakesThenBranch` | etoiletoi-kt/src/main/kotlin/lisp.kt:315-319 | in such a store an `if` whose condition has no `Bool` always takes its then-branch |
| `Evaluator.GetWithin` | etoiletoi-kt/src/main/kotlin/lisp.kt:20-23 | a lookup in a well-formed store finds only closures over frames of the store |
| `Evaluator.DefineKeepsWellFormed` | etoiletoi-kt/src/main/kotlin/lisp.kt:16-18 | binding such a value keeps the store well-formed |
| `Evaluator.BindingsWithin` | etoiletoi-kt/src/main/kotlin/lisp.kt:71-73 | when every operand captures only frames below n, so does every value the new frame binds |
| `Evaluator.EvalWellFormed` | etoiletoi-kt/src/main/kotlin/lisp.kt:83-138 | evaluation keeps the store well-formed (every parent below its frame, every closure over a frame of the store) and yields only closures over frames of the store |
| `Evaluator.IfWellFormed` | etoiletoi-kt/src/main/kotlin/lisp.kt:306-320 | the same invariant for `if` |
| `Evaluator.DefineWellFormed` | etoiletoi-kt/src/main/kotlin/lisp.kt:269-283 | the same invariant for `define` |
| `Evaluator.SetWellFormed` | etoiletoi-kt/src/main/kotlin/lisp.kt:323-340 | the same invariant for `set!` |
| `Evaluator.SumWellFormed` | etoiletoi-kt/src/main/kotlin/lisp.kt:141-150 | the same invariant for `+` |
| `Evaluator.InvokeWellFormed` | etoiletoi-kt/src/main/kotlin/lisp.kt:69-76 | the same invariant for a call: the store it leaves is well-formed and its result captures only frames of that store |
| `Evaluator.ShapedHasNoClosures` | etoiletoi-kt/src/main/kotlin/lisp.kt:252-257 | nothing the reader builds contains a closure |
| `Evaluator.RunWellFormed` | etoiletoi-kt/src/main/kotlin/lisp.kt:38-40 | running parsed programs one after another keeps the store well-formed |
| `Evaluator.EvalDispatch` | etoiletoi-kt/src/main/kotlin/lisp.kt:83-138 | Numbers evaluate to themselves; a Symbol to its binding or "Unbound symbol"; the empty List is "Empty list"; a Bool, a closure and a List headed by a Number, List or Bool are "Invalid expression" |
| `Evaluator.CallThroughSymbol` | etoiletoi-kt/src/main/kotlin/lisp.kt:113-120 | a Symbol head that is no special form must look up to a closure, which is called with the raw operands; unbound is "Unbound symbol", another value "is not a function" |
| `Evaluator.ClosureHeadDropsOperand` | etoiletoi-kt/src/main/kotlin/lisp.kt:124-131 | a List headed by a closure value calls it without its first operand, and crashes with `subList(1, 0)` when there is none |
| `Evaluator.SpecialFormArity` | etoiletoi-kt/src/main/kotlin/lisp.kt:105-110 | `quote`, `if`, `define`, `lambda` and `set!` with other than 1, 3, 2, 2 and 2 operands fail with their arity message before evaluating anything |
| `Evaluator.LambdaCapturesFrame` | etoiletoi-kt/src/main/kotlin/lisp.kt:286-303 | `(lambda params body)` makes a closure over the current frame and changes nothing |
| `Evaluator.ParsedLambdaFails` | etoiletoi-kt/src/main/kotlin/lisp.kt:235-249 | a `lambda` form the reader built never yields a closure: it fails with the arity message, or with "Invalid argument list" when it has two operands, and changes nothing |
| `Evaluator.LambdaTextFails` | etoiletoi-kt/src/main/kotlin/lisp.kt:235-249 | the tokens of `(lambda (x) x)` read as `(lambda (x))`, whose evaluation fails with the arity message |
| `Bootstrap.AddGlobals` | etoiletoi-kt/src/main/kotlin/lisp.kt:153-200 | `addGlobals` binds `+`, `fx`, `-` and `*` in the given frame to closures capturing that same frame; other names and frames are untouched |
| `Bootstrap.StandardEnv` | etoiletoi-kt/src/main/kotlin/lisp.kt:203-207 | the standard environment is one root frame binding exactly the four globals |
| `Bootstrap.StandardEnvBoolFree` | etoiletoi-kt/src/main/kotlin/lisp.kt:153-207 | the standard environment holds no `Bool` |
| `Bootstrap.StandardEnvWellFormed` | etoiletoi-kt/src/main/kotlin/lisp.kt:153-207 | the standard environment is well-formed |
| `Bootstrap.FxDoublesPlusTwo` | etoiletoi-kt/src/main/kotlin/lisp.kt:163-182 | calling `fx` on a numeral n yields 2n + 2, leaving one new frame binding `x` to the numeral |
| `Bootstrap.FxFive` | etoiletoi-kt/src/main/kotlin/lisp.kt:163-182 | in the standard environment `(fx 5)` is 12 |
| `Bootstrap.RunFxFive` | etoiletoi-kt/src/main/kotlin/lisp.kt:38-40 | `eval("(fx 5)")` in the standard environment is 12 |
| `Bootstrap.MainSession` | etoiletoi-kt/src/main/kotlin/lisp.kt:42-50 | in the standard environment `eval("(define x 211)")` yields 211, and `eval("(fx 5)")` after it yields 12, the value `main` prints |
| `Bootstrap.PlusClosureAdds` | etoiletoi-kt/src/main/kotlin/lisp.kt:155-161 | the `+` closure, reached under another name, adds its two operands through the special form |
| `Bootstrap.SelfCallDiverges` | etoiletoi-kt/src/main/kotlin/lisp.kt:184-198 | a closure `(lambda (x y) (op x y))` that finds itself under `op` never returns, for any fuel |
| `Bootstrap.MinusDiverges` | etoiletoi-kt/src/main/kotlin/lisp.kt:184-190 | `(- a b)` never returns in the standard environment |
| `Bootstrap.TimesDiverges` | etoiletoi-kt/src/main/kotlin/lisp.kt:192-198 | `(* a b)` never returns in the standard environment |
| `Torato.MostFrequent` | etoiletoi-kt/src/main/kotlin/torato.kt:3 | the largest group size among the first k characters is attained by one of them and bounds all of them |
| `Torato.Height` | etoiletoi-kt/src/main/kotlin/torato.kt:3 | `height` fails exactly on the empty string; otherwise it is the count of some character of the string and no character occurs more often |
| `Torato.OccurrencesBound` | etoiletoi-kt/src/main/kotlin/torato.kt:3 | no character occurs more often than the string is long |
| `Torato.HeightBounds` | etoiletoi-kt/src/main/kotlin/torato.kt:3 | a nonempty string has height between 1 and its length |
| `Torato.WithinAdjacentLimit` | etoiletoi-kt/src/main/kotlin/torato.kt:34 | a candidate passes the height check exactly when no character occurs more than `MAX_ADJACENT_LENGTH` (2) times |
| `Torato.AdjacentMap.constructor` | etoiletoi-kt/src/main/kotlin/torato.kt:5 | a new map is empty |
| `Torato.AdjacentMap.Input` | etoiletoi-kt/src/main/kotlin/torato.kt:7-11 | `input` in place performs, left to right, one union step per adjacent pair of the text |
| `Torato.AbsorbedExact` | etoiletoi-kt/src/main/kotlin/torato.kt:7-11 | after the first k steps every key keeps its old successors plus the characters following it there, and the keys are the old ones plus the characters given a successor |
| `Torato.InputExact` | etoiletoi-kt/src/main/kotlin/torato.kt:7-11 | after `input(data)` each key's successors are exactly its old ones plus every character right after an occurrence of it in `data` |
| `Torato.InputRecordsEveryPair` | etoiletoi-kt/src/main/kotlin/torato.kt:8-9 | every adjacent pair of `data` is recorded |
| `Torato.InputOnlyAdds` | etoiletoi-kt/src/main/kotlin/torato.kt:9 | no key and no successor is ever removed |
| `Torato.InputLeavesOthers` | etoiletoi-kt/src/main/kotlin/torato.kt:8-9 | a character not followed by another one in `data` keeps its entry, or its absence |
| `Torato.ShortInputChangesNothing` | etoiletoi-kt/src/main/kotlin/torato.kt:8 | a text of at most one character leaves the map unchanged |
| `Torato.InputIdempotent` | etoiletoi-kt/src/main/kotlin/torato.kt:9 | feeding the same text twice gives the same map as feeding it once |
| `Torato.InputCommutes` | etoiletoi-kt/src/main/kotlin/torato.kt:9 | the order in which texts are fed does not matter |

## Left out

- The debug `println` calls (lisp.kt lines 74, 142-143, 291) and the printing in both `main` functions are output only. `MainSession` states the value lisp.kt's `main` prints.
- Numbers are integers, not JVM `Double`s, and a numeric token is an optional sign followed by decimal digits. Tokens such as `1.5`, `1e3`, `NaN` or `Infinity`, which `toDoubleOrNull` also accepts, read as Symbols here. As in `toDoubleOrNull`, control and space characters (up to U+0020) around a numeral are ignored, so the token `1\n` of the program `(+ 1\n 2)` reads as the Number 1 (`NumeralWithLineBreak`). Sums are exact, with no rounding.
- Strings are sequences of Unicode scalar values rather than UTF-16 code units. Whitespace is the fixed set of characters that Kotlin's `isWhitespace` accepts on the JVM.
- Environments are frames in a store rather than heap objects. Sharing a frame is modelled by sharing its index, and an in-place update by returning the updated store. A frame is never freed.
- Evaluation is bounded by fuel. `Exhausted` stands for running until the stack overflows, and `EvalMonotone` shows fuel does not otherwise affect results.
- `Parser.ParseSublistSpec` and `Parser.TokenList.ParseSublist` omit the source's second emptiness check after the loop of `parseSublist`. The loop only ends at a `)`, so that check can never fail.
- `Parser.NestedListExample` is stated on the token list of `(a (b) c)` rather than on the program text; tokenizing that text is not spelled out.
- `AdjacentMap.nextBy`, `generate` and `generateBy` depend on `random()`, and the retry recursion of `generateBy` need not terminate. Only its height test is modelled, as `WithinAdjacentLimit`.
- `AdjacentMap` is a `HashMap` in the source; only the `successors` mapping it holds is modelled, not the rest of the `HashMap` interface.
- Hashing of values is not modelled. Equality is: closures compare as `LispLambda` does, parameters and body structurally and the environment by identity, which here is the frame index; only the comparison with `Bool(false)` in `if` uses equality.
- The commented-out code in lisp.kt is not modelled.
