# lox-interpreter front end, modelled in Dafny

A model of the front end of a Rust tree-walking interpreter for the Lox
scripting language, together with proofs about it. It covers six parts:

- **`Tokens`**: the token record.
- **`Expressions`**: the expression tree: binary, grouping, literal and unary nodes.
- **`AstPrinter`**: the printer that renders a tree in parenthesised prefix notation.
- **`Parser`**: the parser's token cursor.
- **`Scanner`**: the scanner, whose scanning loop the program leaves
  unimplemented.
- **`GenerateAst`**: the code generator that writes the expression module from
  four grammar lines.

Two helper modules support them:

- **`Outcomes`** holds `Option` and `Result`. A Rust panic becomes
  `Result.Panic(reason)`:
  - `UnwrapNone` for an `unwrap` on `None`;
  - `SubtractOverflow` for `usize` underflow;
  - `NotImplemented` for `todo!()`.
- **`Strings`** gives the meaning of the Rust string functions that the generator
  uses:
  - `split_once` becomes `SplitOnce`, the split at the leftmost occurrence;
  - `split` becomes `Split`.

State that the program changes in place is a class:
- the parser's cursor is `Parser.LoxParser`;
- the scanner's fields are `Scanner.LoxScanner`;
- the output file of the generator is `GenerateAst.TextBuffer`.

The generator's methods follow the loops of `define_ast` and
`define_visitor`, with one `WriteAll` per `write_all`. Each method is proved to
append exactly the text that a specification function (`AstText`,
`VisitorText`, …) computes from the parsed grammar. The methods panic on
different conditions:
- `DefineEnum`, `DefineVisitor` and `DefineExprAccept` panic exactly when some
  line has no ` : `;
- `WriteStructFields` and `WriteRule` panic exactly when some field has no
  space;
- `DefineStructs` and `DefineAst` panic exactly when the whole grammar fails
  to parse;
- `WriteConstructorParams` and `WriteConstructorInits` never panic, because
  they run only on fields that the first field loop has already parsed.

The printer's visitor double dispatch is one recursive function `Print`,
which matches on the node kind. `parenthesize` is kept twice:
- as a function (`Parenthesize`);
- as the builder loop the program writes (`ParenthesizeBuilder`), proved equal
  to the function.

Two parts of the code are unfinished, and the model keeps them as they are:
- **The scanner.** The scanning loop of `scan_tokens` is commented out
  (src/lox_scanner.rs:37-40). It returns only the end-of-input token, on the
  scanner's current line (src/lox_scanner.rs:42-44).
- **The parser.** The grammar functions `expression`, `equality` and
  `comparison` are stubs that return the literal `123`
  (src/lox_parser.rs:29-38 and src/lox_parser.rs:76-78).

## Model

| member | source | states |
|---|---|---|
| Tokens.NewToken | src/token.rs:14-25 | the constructor stores the kind, lexeme, literal and line unchanged |
| Tokens.NewTokenIsInvertible | src/token.rs:14-25 | two constructed tokens are equal exactly when all four arguments are; every token is the construction of its own fields |
| Tokens.Display | src/token.rs:28-37 | formatting a token panics as not implemented, for every token |
| Expressions.NewBinary | src/expression.rs:16-24 | builds a binary node holding exactly the left operand, operator and right operand given |
| Expressions.NewGrouping | src/expression.rs:30-36 | builds a grouping node holding exactly the inner expression given |
| Expressions.NewLiteral | src/expression.rs:42-48 | builds a literal node holding exactly the value given |
| Expressions.NewUnary | src/expression.rs:55-62 | builds a unary node holding exactly the operator and operand given |
| Expressions.ExactlyOneKind | src/expression.rs:3-8 | every expression is exactly one of the four node kinds |
| Expressions.ChildrenAreSmaller | src/expression.rs:10-53 | every boxed child has fewer nodes than its parent, so every tree is finite and recursion over it terminates |
| AstPrinter.Print | src/ast_printer.rs:43-58 | the rendering of every node other than a literal starts with `(` and ends with `)` |
| AstPrinter.Parenthesize | src/ast_printer.rs:17-40 | the result is enclosed in one pair of parentheses; with no children it is `(name)` |
| AstPrinter.Children | src/ast_printer.rs:20-37 | the text the loop appends is empty exactly when there are no children, and otherwise starts with the space before the first child |
| AstPrinter.ChildrenAppend | src/ast_printer.rs:20-37 | the text for a list of children is the text for any first part followed by the text for the rest, so each child adds its space and rendering in list order |
| AstPrinter.ParenthesizeBuilder | src/ast_printer.rs:17-40 | the builder loop (head, then a space and a rendering per child, then `)`) yields exactly `Parenthesize` |
| AstPrinter.PrintLiteral | src/ast_printer.rs:52-54 | a literal renders as its text, or as `nil` when it has none |
| AstPrinter.PrintBinary | src/ast_printer.rs:44-46 | a binary node renders as `(op left right)` from the operator lexeme and both renderings |
| AstPrinter.PrintGrouping | src/ast_printer.rs:48-50 | a grouping renders as `(Group inner)` |
| AstPrinter.PrintUnary | src/ast_printer.rs:56-58 | a unary node renders as `(op right)` |
| AstPrinter.PrintNegatedTimesGroup | src/ast_printer.rs:43-58 | a product of a negated literal and a grouped literal renders as `(* (- x) (Group y))` for any lexemes and texts |
| AstPrinter.PrintExample | src/ast_printer.rs:43-58 | `-123 * (45.67)` renders as `(* (- 123) (Group 45.67))` |
| AstPrinter.GroupingAndUnaryCollide | src/ast_printer.rs:48-58 | two different trees can render the same: a grouping, and a unary node whose operator lexeme is `Group` |
| AstPrinter.PrintBalanced | src/ast_printer.rs:17-58 | when no lexeme or literal text contains a parenthesis, every rendering has balanced parentheses, and the outer pair of a non-literal encloses balanced text |
| AstPrinter.ChildrenBalanced | src/ast_printer.rs:20-37 | under the same condition, the text the loop appends for the children is balanced |
| Parser.Expression | src/lox_parser.rs:29-31 | the stub yields the literal `123` whatever the tokens |
| Parser.Equality | src/lox_parser.rs:33-38 | the stub yields the literal `123` whatever the tokens |
| Parser.Comparison | src/lox_parser.rs:76-78 | the stub yields a literal whose value is `123` |
| Parser.LoxParser.Default | src/lox_parser.rs:12-19 | no tokens, cursor at 0 |
| Parser.LoxParser.constructor | src/lox_parser.rs:22-27 | keeps the given tokens, cursor at 0 |
| Parser.LoxParser.Peek | src/lox_parser.rs:61-63 | the token under the cursor when the cursor is inside the list, otherwise a panic from `unwrap` |
| Parser.LoxParser.IsAtEnd | src/lox_parser.rs:57-59 | true exactly when the token under the cursor is end-of-input; panics past the end of the list |
| Parser.LoxParser.Check | src/lox_parser.rs:50-55 | true exactly when the current token is not end-of-input and has the given kind; panics past the end of the list |
| Parser.LoxParser.Previous | src/lox_parser.rs:65-67 | the token before the cursor; at 0 it panics with the `usize` underflow, past the end of the list with the `unwrap` |
| Parser.LoxParser.Advance | src/lox_parser.rs:69-74 | moves the cursor one step unless it is on end-of-input and returns the token before it; panics with the `usize` underflow when the cursor ends at 0; a cursor at or before the first end-of-input token stays there |
| Parser.LoxParser.MatchToken | src/lox_parser.rs:40-48 | the result is whether the current token is not end-of-input and its kind is in the list, and the cursor advances exactly then; an empty list never reads a token |
| Parser.Advanced | src/lox_parser.rs:69-72 | the cursor stays on an end-of-input token and moves one step from any other |
| Parser.AdvanceStaysBeforeFirstEof | src/lox_parser.rs:69-74 | from a cursor at or before the first end-of-input token, `is_at_end` cannot panic and `advance` never moves the cursor past that token; `advance` can still panic in `previous` at index 0 when the list starts with end-of-input |
| Parser.AdvancedTimesStopsAtFirstEof | src/lox_parser.rs:69-74 | `n` advances from such a cursor leave it at the lesser of `current + n` and the first end-of-input index |
| Parser.ScanThenAdvance | src/lox_parser.rs:65-74 | the scanner's output handed to a new parser gives a valid cursor, yet the first `advance` panics with the `usize` underflow in `previous` |
| Scanner.LoxScanner.Default | src/lox_scanner.rs:13-22 | empty source, both cursors at 0, line 1 |
| Scanner.LoxScanner.constructor | src/lox_scanner.rs:24-31 | keeps the source, both cursors at 0, line 1 |
| Scanner.LoxScanner.ScanTokens | src/lox_scanner.rs:35-45 | exactly one token, end-of-input with empty lexeme and literal on the scanner's line; the list ends with its only end-of-input token |
| Scanner.ScanSource | src/lox_scanner.rs:24-45 | a scanner built by `new` yields the end-of-input token on line 1, whatever the source |
| Strings.SplitOnce | src/bin/generate_ast.rs:19 | `None` exactly when the pattern does not occur; otherwise the text is `before + pattern + after` and the pattern does not occur earlier |
| Strings.SplitOnceOfJoined | src/bin/generate_ast.rs:28 | gluing two texts with the pattern and splitting again gives the two texts back, when the pattern first occurs at the glue |
| Strings.Split | src/bin/generate_ast.rs:32 | at least one piece, and joining the pieces with the pattern gives back the text |
| Strings.SplitJoin | src/bin/generate_ast.rs:32 | splitting pieces joined with the pattern gives back the pieces, when the pattern cannot be found across a join |
| Strings.SplitIsSeparable | src/bin/generate_ast.rs:32 | the pieces of every split satisfy that condition, so the two round trips fit together |
| GenerateAst.All | src/bin/generate_ast.rs:18-21 | the loop succeeds exactly when every element succeeds, and then yields each element's result in order |
| GenerateAst.ParseField | src/bin/generate_ast.rs:33 | fails exactly when the field text has no space; otherwise the type has no space and the text is the field written back as `type name` |
| GenerateAst.RuleName | src/bin/generate_ast.rs:19 | fails exactly when the line has no ` : `; otherwise the line starts with the name and ` : `, and ` : ` does not occur earlier |
| GenerateAst.ParseRule | src/bin/generate_ast.rs:28-33 | fails on a line without a rule name; a parsed rule carries the line's rule name and at least one field |
| GenerateAst.ParseRules | src/bin/generate_ast.rs:27-33 | succeeds exactly when every line parses, and then holds one rule per line in order, each named by its line's rule name |
| GenerateAst.ParseThenFormat | src/bin/generate_ast.rs:27-33 | a grammar line that parses is the line written back from its rule |
| GenerateAst.FormatThenParse | src/bin/generate_ast.rs:27-33 | a well-formed rule written as a line parses back to itself |
| GenerateAst.WordsRoundTrip | src/bin/generate_ast.rs:6-11 | rules whose names and types hold no space or comma, as in the grammar `main` passes, are well formed and round-trip |
| GenerateAst.ParseRuleFailure | src/bin/generate_ast.rs:28-33 | one line fails to parse exactly when it has no ` : ` or one of its fields has no space |
| GenerateAst.ParseRulesFailure | src/bin/generate_ast.rs:27-33 | the grammar fails to parse exactly when some line has no ` : ` or some field has no space |
| GenerateAst.WrapType | src/bin/generate_ast.rs:35-42 | `Expr` becomes `Box<Expr>`, `String` becomes `Option<String>`, and every other type is unchanged |
| GenerateAst.WrapTypeIdempotent | src/bin/generate_ast.rs:57-64 | wrapping a wrapped type changes nothing |
| GenerateAst.Lower | src/bin/generate_ast.rs:84 | same length, no ASCII capital remains, each capital's code point goes up by 32 to its small letter, other characters stay |
| GenerateAst.LowerIdempotent | src/bin/generate_ast.rs:84 | lowering twice is lowering once |
| GenerateAst.RuleTextPlacement | src/bin/generate_ast.rs:14-105 | the text for each rule follows the enum, the visitor traits and the rules before it, and precedes the rules after it and `accept` for `Expr` |
| GenerateAst.TextBuffer.constructor | src/bin/generate_ast.rs:5 | the created file is empty |
| GenerateAst.TextBuffer.WriteAll | src/bin/generate_ast.rs:16 | appends the text and changes nothing else |
| GenerateAst.DefineEnum | src/bin/generate_ast.rs:15-22 | appends the imports and one enum variant per rule in order, or panics exactly when a line has no ` : ` |
| GenerateAst.DefineVisitor | src/bin/generate_ast.rs:107-118 | appends one lower-cased `visit_` method per rule in order, then the `VisitedElement` trait, or panics exactly when a line has no ` : ` |
| GenerateAst.WriteStructFields | src/bin/generate_ast.rs:32-46 | appends one field line per field with its wrapped type, or panics exactly when a field has no space |
| GenerateAst.WriteConstructorParams | src/bin/generate_ast.rs:55-67 | appends one constructor parameter per field with its wrapped type |
| GenerateAst.WriteConstructorInits | src/bin/generate_ast.rs:70-74 | appends one initialiser per field |
| GenerateAst.RuleTextWrites | src/bin/generate_ast.rs:29-87 | the text generated for a rule is the texts of its `write_all` calls and field loops, in program order |
| GenerateAst.WriteRule | src/bin/generate_ast.rs:28-89 | appends the struct, the constructor and `accept` for one rule, or panics exactly when its fields do not parse |
| GenerateAst.DefineStructs | src/bin/generate_ast.rs:26-90 | appends the texts for every rule in order, or panics exactly when some line is malformed |
| GenerateAst.DefineExprAccept | src/bin/generate_ast.rs:95-104 | appends `accept` for `Expr` with one match arm per rule in order |
| GenerateAst.DefineAst | src/bin/generate_ast.rs:14-105 | succeeds exactly when the whole grammar parses, and then appends exactly the generated file for the parsed rules; on a panic the earlier file contents are kept as a prefix |

## Left out

- src/main.rs is not part of this model. It reads files and runs the prompt, which are I/O.
- src/scanner.rs is not part of this model. It only declares the `Scanner` trait; `scan_tokens` is a method of `LoxScanner` here.
- The full tokenizer (operators, comments, strings, numbers, keywords, error reporting) is not modelled, because the code's `scan_tokens` does not implement it.
- `TokenType` has EOF plus a named other kind. The full list of kinds is defined in a module that is not part of this model, and only end-of-input and equality are used.
- `Literal.value` is an optional text. The generated `Box<dyn Any>` is not modelled; the printer's `unwrap_or_else` treats the value as an optional string.
- The generated `Visitor` and `VisitedElement` traits are not modelled as Dafny traits. Double dispatch becomes a `match` in `Print`.
- `AstPrinter::new` is not modelled, because the printer has no state.
- Lower: models `to_lowercase` on ASCII letters only; non-ASCII case mappings are not modelled.
- DefineAst: on a panic it states only that the earlier contents remain a prefix. It does not state the partial text written before the panic.
- TextBuffer.WriteAll: I/O failures of `write_all` (its `unwrap`) are not modelled; a write always succeeds.
- The generator's `main` (creating `src/expression.rs`) is I/O. The grammar lines it passes are the constant `GenerateAst.ExprGrammar`; rules of that shape are covered by `WordsRoundTrip`, but parsing those four literal lines is not proved.
- The `base_name` argument of `define_visitor` is unused in the source, and `DefineVisitor` ignores it too.
- Panics on `usize` arithmetic are modelled as they occur with overflow checks on, as in a debug build. In a release build `current - 1` at 0 wraps around in `previous`, and the panic comes from the `unwrap` instead; `Previous`, `Advance` and `ScanThenAdvance` state the debug reason.
- The `usize` overflow of `current += 1` in `advance` is not modelled, because the cursor never passes the end of a real token list.
