# A verified model of a tiny Lisp-to-C compiler

The program compiles prefix calls such as `(add 2 (subtract 4 2))` to
C-style calls `add(2, subtract(4, 2));` in four stages: a tokenizer, a
recursive-descent parser, a visitor-driven transform into a second tree,
and a code generator. Each stage is modelled here in the form the source
gives it, and properties of each stage, and of the whole pipeline, are proved.

- `wrappers.dfy`: `Option` (JavaScript's `undefined`) and `Result` (a
  stage's output or the error that stopped it).
- `lexer.dfy`: character classes and the token type. `LexFrom`/`Lex` is
  the reference lexing. `Tokenize` is the source's cursor loop, proved to
  compute it. `ReadRun` is the source's digit loop; it is also used for the
  string and name loops as they are evidently intended. The source's own
  string and name loops behave differently (see "## Findings").
- `lexer_props.dfy`: round trip with a printer; quote-free input loses only
  white space; rejection exactly at unknown characters. It also holds the
  two scanning loops exactly as the source writes them.
- `source_ast.dfy`, `parser.dfy`: the parse tree, the reference functions
  `WalkFrom`/`ArgsFrom`, and the class `WalkState`. That class holds the
  tokens and the shared cursor, and its recursive method `Walk` is the
  source's `walk` closure.
- `parser_props.dfy`: the tokens of every expression parse back to it;
  unclosed calls and unhandled tokens are rejected; `walk`'s loop as written.
- `traverser.dfy`: the generic enter/exit traversal and the order of its callbacks.
- `target_ast.dfy`, `transformer.dfy`: the output tree. Also the
  transformer's visitor, with an explicit accumulator in place of the
  `_context` arrays, proved equal to a direct recursive translation.
- `codegen.dfy`: rendering the output tree as text.
- `compiler.dfy`: the composed pipeline and its end-to-end theorem.

## Model

| member | source | states |
|---|---|---|
| Lexer.IsDigit | index.js:8 | definition of `\d`; its use is stated by DigitRunToken and LexRejects |
| Lexer.IsWordChar | index.js:7 | definition of `\w` (the `i` flag adds nothing); its use is stated by NameRunToken and LexRejects |
| Lexer.IsWhitespace | index.js:9 | definition of `\s`; its use is stated by ParenAndSpaceStep and LexKeepsText |
| Lexer.ScanWhile | index.js:61-64 | the run it ends is maximal: every character from the start up to the result satisfies the class, and the next one (if any) does not |
| Lexer.LexFrom | index.js:34-96 | every token produced is well formed: a paren is `(` or `)`, a number a non-empty digit run, a name a non-empty word run not starting with a digit, a string free of `"` |
| Lexer.LexStep | index.js:34-96 | one round of the loop: on success it moves the cursor forward, inside the input, and any token it yields is well formed |
| Lexer.ReadToken | index.js:34-96 | the loop body, with its early returns and inner loops, computes exactly one reference round: the same token, the same next cursor, or the same error |
| Lexer.Lex | index.js:30-98 | the tokens of a whole input are all well formed; its content is stated by LexUnlex, LexKeepsText and LexRejects, and Tokenize computes it |
| Lexer.ReadRun | index.js:60-64 | the loop appends exactly the maximal run of the class from the cursor and stops right after it |
| Lexer.Tokenize | index.js:30-98 | the tokenizer's loop returns exactly the reference lexing, tokens or error |
| LexerProps.ParenAndSpaceStep | index.js:37-57 | a `(` or `)` yields one paren token holding that character and moves the cursor by one; white space moves it by one and emits nothing |
| LexerProps.DigitRunToken | index.js:59-70 | a maximal digit run becomes one number token whose value is exactly that run, and lexing resumes after it |
| LexerProps.NameRunToken | index.js:82-94 | a maximal word run starting with a non-digit becomes one name token of exactly that run, including a run that ends the input |
| LexerProps.StringToken | index.js:72-80 | a quoted string becomes one string token of the characters between the quotes, and lexing resumes after the closing quote; with no closing quote lexing fails at the opening one |
| LexerProps.LexUnlex | index.js:30-98 | printing well-formed tokens with a space after each and lexing the text gives the same tokens back |
| LexerProps.LexKeepsText | index.js:54-94 | on accepted input without `"`, the token values concatenated are the input with white space removed |
| LexerProps.LexRejects | index.js:95 | on input without `"`, lexing fails exactly when some character is of no recognised class, and it reports the first such character and its position |
| LexerProps.NameLoopAsWritten | index.js:84-87 | definition of the name loop as written, run for at most a given number of rounds; its content is stated by NameLoopAtEndNeverStops |
| LexerProps.StringLoopAsWritten | index.js:75-77 | definition of the string loop as written, with the character it tests fixed; its content is stated by StringLoopNeverStops |
| LexerProps.StringBranchAsWritten | index.js:72-80 | definition of the string branch as written; its content is stated by StringBranchAsWrittenResult |
| LexerProps.NameLoopAtEndNeverStops | index.js:84-87 | as written, the name loop on a run reaching the end of the input never stops, since the test accepts `undefined` |
| LexerProps.StringLoopNeverStops | index.js:74-77 | as written, the string loop on any character other than `"` never stops |
| LexerProps.StringBranchAsWrittenResult | index.js:72-80 | as written, the string branch hangs unless the string is empty, and then it leaves the cursor on the closing quote |
| Parser.WalkFrom | index.js:107-147 | a successful walk yields an expression and ends, inside the tokens, on its last token: the literal's own token or the call's `)` |
| Parser.ArgsFrom | index.js:133-140 | the argument loop yields expressions and stops on a `)` at or after where it started |
| Parser.ParseTokens | index.js:100-150 | a successful parse is a Program with exactly one expression in its body |
| Parser.WalkState.constructor | index.js:105-106 | the fresh cursor: the state holds the given tokens and the cursor starts at 0 |
| Parser.WalkState.Walk | index.js:107-147 | the recursive walk with the shared cursor returns the reference walk's node and leaves the cursor on its last token, or returns its error |
| Parser.WalkState.WalkCall | index.js:125-141 | from a `(`, the callee read and the argument loop return the reference walk's call, with the cursor on its `)`, or its error |
| Parser.Parse | index.js:100-150 | `parse` returns exactly the reference parse |
| ParserProps.WalkUnparse | index.js:107-147 | walking from the start of an expression's tokens, whatever surrounds them, returns that expression and ends on its last token |
| ParserProps.ArgsUnparse | index.js:133-140 | the argument loop over the tokens of a list of expressions followed by `)` returns that list, in order, and that paren |
| ParserProps.ParseUnparse | index.js:100-173 | the tokens of any expression parse to the Program holding just that expression: a call keeps its name and one parameter per argument in order, literals keep their text |
| ParserProps.UnclosedCallFails | index.js:133-139 | a call with no `)` after its `(` is rejected, not built |
| ParserProps.UnhandledTokenRejected | index.js:108-146 | a name where an expression should start is reported as an error with its position |
| ParserProps.WalkLoopAsWritten | index.js:108-146 | definition of walk's loop as written, run for at most a given number of rounds; its content is stated by WalkLoopStallsOnName |
| ParserProps.WalkLoopStallsOnName | index.js:108-146 | as written, walk's loop on a name token never returns |
| Traverser.TraverseNode | index.js:183-206 | definition of `transNode`; its content is stated by TraverseIsReplay and EventOrder |
| Traverser.TraverseArray | index.js:177-181 | definition of `transArray`; its content is stated by TraverseArrayIsReplay and EventOrderAll |
| Traverser.TraverseIsReplay | index.js:183-206 | whatever the visitor, traversing a node is applying its callbacks in the order of the event list: enter, the children's events in order, exit |
| Traverser.TraverseArrayIsReplay | index.js:177-181 | traversing a list of siblings applies their events one sibling after the other |
| Traverser.EventOrder | index.js:183-204 | nodes are entered in pre-order and left in post-order |
| Traverser.EventOrderAll | index.js:177-181 | siblings are entered, and left, left to right |
| Transformer.Push | index.js:220-255 | `parent._context.push(...)`: the number of open frames is unchanged; definition otherwise, its content is stated by PushAllFrame and TraverseExpr |
| Transformer.Enter | index.js:218-247 | entering a call opens exactly one frame and leaves the body and the outer frames as they were; entering a literal opens none |
| Transformer.Exit | index.js:225-257 | the source's `exit` callbacks change nothing; here leaving a call closes exactly one frame, finishing the call the source filled in place, and leaving any other node changes nothing |
| Transformer.Transform | index.js:209-262 | the result is a Program; its content is stated by TransformCorrect and TransformProgram |
| Transformer.PushAllFrame | index.js:247 | while a call is open, what its children push lands in that call's arguments, in order |
| Transformer.TraverseExpr | index.js:218-256 | traversing an expression appends to the current accumulator its translation, wrapped in a statement when it is a call whose parent is not a call |
| Transformer.TraverseExprs | index.js:177-181 | traversing a list of expressions appends their translations in order |
| Transformer.TransformCorrect | index.js:209-262 | the visitor-driven transform builds exactly the reference translation of the Program |
| Transformer.TransformShape | index.js:218-247 | a translated expression is calls of identifiers with the same names over the translated parameters in the same order, literals with the same values and no statement inside; restoring it gives the expression back |
| Transformer.TransformShapeAll | index.js:178-180 | the parameters translate one for one and restore to themselves |
| Transformer.TransformProgram | index.js:249-255 | the output Program has one element per top-level expression; it is an expression statement exactly when that expression is a call, and holds the expression's translation |
| CodeGen.Join | index.js:267-272 | definition of `Array.prototype.join` and of an array's conversion to text; its content is stated by GenerateTransformed and AddExample |
| CodeGen.Generate | index.js:264-282 | definition of `codeGen`; its content is stated by GenerateTransformed |
| CodeGen.GenerateAll | index.js:266-272 | the rendered list has one text per node, in order |
| Compiler.GenerateTransformed | index.js:264-282 | rendering a translated expression gives its C-style syntax: `name(a, b)`, bare numbers, single-quoted strings |
| Compiler.Compiled | index.js:284-290 | successful output ends in `;`; a lexing failure is the pipeline's failure |
| Compiler.Compile | index.js:284-290 | the composed stages return exactly the pipeline's result |
| Compiler.CompileTokens | index.js:284-290 | text that lexes to an expression's tokens compiles to that expression's C-style syntax followed by `;` |
| Compiler.CompileExpression | index.js:284-290 | any well-formed expression written out as source text compiles to its C-style syntax followed by `;` |
| Compiler.AddExample | index.js:3 | `(add 2 4)` compiles to `add(2, 4);` |

## Left out

- Character classes follow JavaScript's `\w`, `\d` (ASCII) and `\s` (the ECMAScript white-space and line-terminator set). Strings are sequences of Unicode scalar values, not UTF-16 code units, so a character outside the Basic Multilingual Plane is one character here, not two.
- Where `parse` throws a `TypeError` on reading past the token array (a `(` with nothing after it, a call with no `)`), the model returns a `ParseError`. The tokenizer's own `throw` on an unknown character is a `LexError`.
- `Parser.ParseTokens` returns `UnexpectedEnd` where walk's loop runs out of tokens (no tokens, or only `)` tokens). The source's loop is guarded by `i < len`, so it reads nothing past the end: walk falls out of the loop and returns `undefined`, and `parse` returns a Program whose body holds `undefined`. The `TypeError` comes only later, when `transform` reads the type of that `undefined`. The model does not represent a Program holding `undefined`; it reports the error at the parse stage instead.
- `transform` as written pushes a call into its parent's array on entry and fills the call's arguments later through the shared `_context` alias. The model keeps an explicit accumulator: a call is appended when it is left, with its finished arguments. The tree built is the same; the aliasing and the order of the in-place writes are not modelled. Because of this the call's `exit` callback does the closing, where the source's `exit` callbacks are empty.
- `Transformer.Transform`: its own contract states only that the result is a Program; its content is stated by `TransformCorrect` and `TransformProgram`.
- The visitor is a pair of callbacks on every node rather than an object looked up by node type. A missing callback is the identity on the state.
- The source AST is not annotated with `_context` fields. The mutated input tree is not an output of the source either.
- `codeGen`'s unreachable `default` case, which returns `undefined`, is not modelled: the output tree has no other kinds of node.
- `module.exports` is module plumbing and has no counterpart.
- The parser does not check that the token after `(` is a name: any token's text names the call, as in the source.
- Leading `)` tokens are stepped over, and tokens after the first expression are ignored, as in the source. Unbalanced input is therefore not always rejected.
- A Program's statements are joined with `,`, as a JavaScript array turns into a string in a template literal. The parser only ever produces one statement, so the separator never appears in compiled output.

## Findings

| source | as written | input that shows it | evidently intended | confidence | as-written member | corrected member |
|---|---|---|---|---|---|---|
| index.js:74-79 | the string loop never advances the cursor or rereads the character, and never steps past the closing quote | `(concat "a")`: the loop appends `a` forever; `""` leaves the cursor on the closing quote, which is read as a new opening quote | the token is the text between the quotes, the cursor moves past the closing quote, and an unterminated string is an error | high (not executed) | LexerProps.StringBranchAsWrittenResult | LexerProps.StringToken |
| index.js:84-87 | the name loop has no end-of-input check, and `/\w/.test(undefined)` is true | `add`, or any input ending in a name: the loop runs past the end forever | the run stops at the end of the input | high (not executed) | LexerProps.NameLoopAtEndNeverStops | LexerProps.NameRunToken |
| index.js:108-146 | no branch of walk's loop handles a name token, and none advances the cursor on it | `(add x 1)`: walk for the argument `x` loops forever | a token that cannot start an expression is an error | high (not executed) | ParserProps.WalkLoopStallsOnName | ParserProps.UnhandledTokenRejected |
