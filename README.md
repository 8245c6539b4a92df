# hoi4-state-parser, modelled in Dafny

The program reads a game file written in a brace-table configuration language,
`name = { key = value  nested = { a b c } }`. It parses the file into a
single assignment and prints the assigned value as pretty-printed JSON. The
pipeline has three stages:

- **Lexers.** Two lexers turn characters into tokens.
  - The eager lexer (`src/lexer.rs`) holds the whole source and moves a position over it.
  - The lazy lexer (`src/lazylexer.rs`) reads a file line by line into a character queue. It also knows `#` comments, and a `-` may start a number.
  - The lazy lexer's comment at `src/lazylexer.rs:99-101` says a negative number starts with `-` and holds no other `-`. The code does not enforce that. Only a second `-` after the first character makes a run an identifier. So `5-3`, `-5-` and `--5` all lex as integers (`LazyLexer.HyphenInsideNumber`). The model follows the code.
  - A token is a kind (integer, float, identifier, string, `=`, `{`, `}`, end of input, undefined) and a text.
- **Parser.** The parser (`src/parser.rs`, and the same code over the lazy lexer in `src/lazyparser.rs`) reads `identifier = expression`.
  - An expression is a unit token or a table.
  - A table holds `key = value` elements and bare unit elements. It reads them with one token of lookahead.
- **Renderer.** The renderer (`src/json.rs`) turns an expression into JSON.
  - A table whose first element is bare becomes an array and is written with `[ ]`. Otherwise it becomes an object and is written with `{ }`.
  - A table that mixes the two kinds is an error.
  - Identifiers and strings are quoted. Other units are written raw.

The Dafny modules follow the source files:

| module | models |
|---|---|
| `Tokens` | `src/token.rs` |
| `Ast` | `src/typedefs.rs` |
| `Chars` | character classes and runs of characters |
| `Streams` | what a parser sees of a lexer: the answers of successive `advance` calls |
| `EagerLexer` | `src/lexer.rs` |
| `LazyLexer` | `src/lazylexer.rs` |
| `Grammar` | the grammar both parsers implement, as functions |
| `Parser` | the parser object of `src/parser.rs` / `src/lazyparser.rs` |
| `Json` | `src/json.rs` |
| `Pipeline` | `process_input` of `src/main.rs` |

**How the pieces are proved.**

- Each object of the source is a Dafny `class` whose methods update its fields:
  - the eager lexer's position;
  - the lazy lexer's queue and the lines still to be read;
  - the parser's count of tokens taken.
- Each method is proved to compute a specification function: `EagerLexer.Lex`, `LazyLexer.LazyLex`, `Grammar.ParseExpr` and `Json.Render`.
- The lemmas state what the source promises about those functions:
  - tokens are the longest runs of their character class;
  - parsing the tokens of a tree gives the tree back;
  - the parser consumes exactly the tokens of what it returns;
  - rendering succeeds exactly on trees whose tables each hold one element kind;
  - and the layout of the JSON text.

**Panics and errors.** The source panics, or returns an error message, in several places. Each becomes an error value:

- an unterminated string becomes `UnterminatedString`;
- a program that is not `identifier = ...` becomes `NotAnAssignment`;
- a parse error message becomes one of the other `ParseError` kinds;
- a mixed table becomes a `RenderError`.

## Model

| member | source | states |
|---|---|---|
| Tokens.NewToken | src/token.rs:26-28 | the token keeps the given kind and text unchanged |
| Tokens.EofToken | src/token.rs:30-35 | end of input has kind EOF and empty text |
| Tokens.UndefinedToken | src/token.rs:37-42 | an undefined token holds exactly the one character |
| Tokens.IsUnit | src/token.rs:44-49 | a token is a unit iff its kind is identifier, integer, float or string |
| Tokens.IsKey | src/token.rs:51-53 | a token is a key iff its kind is identifier or integer |
| Tokens.KeysAreUnits | src/token.rs:44-53 | every key is a unit; floats and strings are units but not keys; symbols, EOF and undefined are neither |
| Streams.At | src/parser.rs:16 | the `i`-th call answers the `i`-th proper token; a proper answer (not EOF or undefined) only comes from within the token list |
| Streams.Ended | src/lexer.rs:29-31 | after the last proper token, every call answers the same terminal result |
| EagerLexer.SkipSpaces | src/lexer.rs:107-114 | every character skipped is whitespace, and it stops at the end of the source or at a non-whitespace character: the first one at or after the start |
| EagerLexer.Lex | src/lexer.rs:28-52 | a proper token moves the cursor forward within the source; an undefined token holds one character; end of input is the EOF token |
| EagerLexer.LexSkipsWhitespace | src/lexer.rs:46-49 | lexing from anywhere inside leading whitespace gives the same answer as lexing after it |
| EagerLexer.LexConsumes | src/lexer.rs:28-105 | the token text is exactly the consumed lexeme (without quotes for strings, which hold no quote); an undefined character is not consumed; EOF only at the end of the source; a failure exactly when no closing quote follows |
| EagerLexer.LexEnd | src/lexer.rs:29-32 | end of input is answered exactly when only whitespace is left, and the cursor stays at the end |
| EagerLexer.LexSymbol | src/lexer.rs:34-39 | after the whitespace, `{`, `}` and `=` give their symbol token with the character as text and the cursor past it; no other character gives a symbol |
| EagerLexer.LexIdentifier | src/lexer.rs:40-66 | a letter gives an identifier, and only a letter does: the longest run of letters, digits and underscores from there, with the cursor at its end |
| EagerLexer.LexNumber | src/lexer.rs:42-85 | a digit gives a number, and only a digit does: the longest run of digits and dots from there, a float iff it holds a dot |
| EagerLexer.LexString | src/lexer.rs:44-45 | a quote gives a string or the unterminated-string failure, and only a quote does: the text up to the next quote with the cursor past it, or the failure when no quote follows |
| EagerLexer.LexUndefined | src/lexer.rs:51 | every other character gives an undefined token holding it, and the cursor stays on it |
| EagerLexer.EagerUndefinedExamples | src/lexer.rs:40-51 | `_`, `-` and `#` are undefined characters for this lexer |
| EagerLexer.LexCanonical | src/lexer.rs:34-39 | a symbol token carries its own character as text |
| EagerLexer.TokenizeCanonical | src/lexer.rs:28-52 | every symbol token of the eager stream carries its own character |
| EagerLexer.LexTerminalRepeats | src/lexer.rs:29-51 | after EOF or an undefined character, calling again gives the same answer |
| EagerLexer.PullRepeats | src/lexer.rs:28-52 | from a terminal position, every later call gives the terminal answer |
| EagerLexer.TokenizeAgreesWithPulls | src/lexer.rs:28-52 | the `k`-th of successive `advance` calls is the `k`-th answer of the stream `Tokenize` |
| EagerLexer.Lexer.constructor | src/lexer.rs:17-19 | a new lexer stands at position 0 of its source |
| EagerLexer.Lexer.GetCurrentChar | src/lexer.rs:21-26 | the character at the position, or nothing at the end of the source |
| EagerLexer.Lexer.Advance | src/lexer.rs:28-52 | the returned token and the new position are those of `Lex` |
| EagerLexer.Lexer.ConsumeIdentifier | src/lexer.rs:54-66 | moves to the end of the run of letters, digits and underscores and returns that run as an identifier |
| EagerLexer.Lexer.ConsumeNumeric | src/lexer.rs:68-85 | moves to the end of the run of digits and dots and returns it, as a float iff it holds a dot |
| EagerLexer.Lexer.ConsumeString | src/lexer.rs:87-105 | returns the text up to the closing quote and moves past that quote; without a closing quote, an unterminated-string failure |
| EagerLexer.Lexer.SkipSpacesInPlace | src/lexer.rs:107-114 | moves to the first non-whitespace character at or after the position |
| LazyLexer.Fill | src/lazylexer.rs:37-44 | an empty queue takes exactly the next line, a non-empty one is left alone; the remaining input never changes; afterwards the queue is empty only when the input is exhausted |
| LazyLexer.Pop | src/lazylexer.rs:54-55 | a refill and a pop remove exactly the first remaining character |
| LazyLexer.ScanRun | src/lazylexer.rs:82-87 | what the loop pops, followed by what is left, is the input it started with |
| LazyLexer.ScanRunIsRun | src/lazylexer.rs:82-87 | the loop pops the longest prefix of the remaining input in the class, whatever the line boundaries |
| LazyLexer.LazyLex | src/lazylexer.rs:53-77 | every answer other than EOF, the unterminated-string failure included, consumes input; EOF is the end-of-input token and leaves the state empty |
| LazyLexer.LazyLexSkip | src/lazylexer.rs:68-74 | after skipping whitespace or a comment, `advance` starts over |
| LazyLexer.LazyLexAtEnd | src/lazylexer.rs:54-58 | with no input left, `advance` answers EOF |
| LazyLexer.LexStepSymbol | src/lazylexer.rs:60-61 | `{`, `}` and `=` give their symbol token and consume one character |
| LazyLexer.LexStepWord | src/lazylexer.rs:62-90 | a letter or underscore starts an identifier: the longest run of letters and underscores, digits excluded |
| LazyLexer.LexStepNumber | src/lazylexer.rs:92-139 | a digit or `-` starts the longest run of digits, dots, dashes, letters and underscores, classified by `NumericKind` |
| LazyLexer.LexStepString | src/lazylexer.rs:141-161 | a string succeeds iff a closing quote remains in the current line; its text is what lies between the quotes; the queue resumes after the closing quote |
| LazyLexer.LexStepSpaces | src/lazylexer.rs:175-182 | whitespace is skipped up to the next other character, which is kept |
| LazyLexer.LexStepComment | src/lazylexer.rs:164-171 | a `#` comment is skipped up to, but not including, the next line feed |
| LazyLexer.LexStepUndefined | src/lazylexer.rs:76 | any other character is an undefined token and is consumed |
| LazyLexer.FlagsMeaning | src/lazylexer.rs:98-128 | the loop's float flag is set iff a dot followed the first character; the negative flag iff a `-` did; the identifier flag iff an identifier character, a second dot or a second `-` did |
| LazyLexer.NumericKindOfFlags | src/lazylexer.rs:132-138 | the flags the loop ends with select the kind `NumericKind` gives the whole run |
| LazyLexer.HyphenInsideNumber | src/lazylexer.rs:98-108 | a `-` inside or at the end of a number, or two leading ones, still give an integer; only a second `-` after the first character gives an identifier |
| LazyLexer.LazyTokenize | src/lazylexer.rs:53-77 | the first answer of the stream is that of one `advance` call |
| LazyLexer.LazyPullAtEnd | src/lazylexer.rs:54-58 | once the input is exhausted, every later call answers EOF |
| LazyLexer.LazyTokenizeAgreesWithPulls | src/lazylexer.rs:53-77 | the `k`-th of successive `advance` calls is the `k`-th answer of the stream `LazyTokenize` |
| LazyLexer.LazyLexCanonical | src/lazylexer.rs:60-61 | a symbol token the lazy lexer answers carries its own character as text |
| LazyLexer.LazyTokenizeCanonical | src/lazylexer.rs:53-77 | every symbol token of the lazy stream carries its own character |
| LazyLexer.Lexer.constructor | src/lazylexer.rs:28-34 | a new lexer has an empty queue and all lines of the input still to read |
| LazyLexer.Lexer.ReadLine | src/lazylexer.rs:40 | takes the next line, or nothing once the input is exhausted |
| LazyLexer.Lexer.FillBuffer | src/lazylexer.rs:37-44 | the new state is `Fill` of the old one |
| LazyLexer.Lexer.GetCurrentChar | src/lazylexer.rs:47-50 | refills, then returns the front of the queue, or nothing when it is empty |
| LazyLexer.Lexer.PopFront | src/lazylexer.rs:86 | removes and returns the front of the queue and nothing else |
| LazyLexer.Lexer.Advance | src/lazylexer.rs:53-77 | the returned token and the new state are those of `LazyLex` |
| LazyLexer.Lexer.ConsumeIdentifier | src/lazylexer.rs:79-90 | returns the first character and the run of identifier characters after it, leaving the state `ScanRun` reaches |
| LazyLexer.Lexer.ConsumeNumeric | src/lazylexer.rs:92-139 | returns the first character and the numeric run after it, with the kind `NumericKind` gives the run |
| LazyLexer.Lexer.NumericBranch | src/lazylexer.rs:102-128 | the loop stops exactly on a character outside the numeric run; otherwise the flags take one `NumericStep` |
| LazyLexer.Lexer.ConsumeString | src/lazylexer.rs:141-161 | the answer and the new state are those of `StringAfterQuote`: the text up to the closing quote in the queue, or an unterminated-string failure |
| LazyLexer.Lexer.SkipComment | src/lazylexer.rs:164-171 | drops the run of characters other than a line feed |
| LazyLexer.Lexer.SkipSpaces | src/lazylexer.rs:175-182 | drops the run of whitespace |
| Grammar.ParseExpr | src/parser.rs:33-73 | a successful parse consumes at least one token and stays within the stream |
| Grammar.ParseTable | src/parser.rs:38-70 | the loop only adds elements and consumes at least the closing brace |
| Grammar.ParseProgram | src/parser.rs:15-31 | an accepted program starts with an identifier and `=`, and its value is what `parse_expr` reads after them |
| Grammar.ExprOpens | src/parser.rs:37-71 | `parse_expr` on `{` is the table loop from the next token |
| Grammar.TurnFails | src/parser.rs:60-66 | end of input, an undefined token, `=` or `{` where an element should start stop the loop with that error |
| Grammar.TurnFailsAfterUnit | src/parser.rs:57-59 | a unit followed by anything but `=` after a key, a unit or `}` stops the loop with an unexpected-token error |
| Grammar.TurnKeyValue | src/parser.rs:45-50 | a key and `=` read a value and append a key/value element, or stop with the value's error |
| Grammar.TurnUnitPair | src/parser.rs:51-53 | two units in a row append two array elements |
| Grammar.ParsedWellTyped | src/parser.rs:33-73 | every parsed tree has unit values, unit array entries, and identifier or integer keys |
| Grammar.ProgramWellTyped | src/parser.rs:15-31 | the value of a parsed program is well-typed |
| Grammar.ParseUnparse | src/parser.rs:33-73 | parsing the tokens of a well-typed, single-kind tree gives the tree back and consumes exactly its tokens |
| Grammar.ParseUnparseElements | src/parser.rs:38-70 | the table loop reads back the elements of such a table and its closing brace |
| Grammar.ParseProgramUnparse | src/parser.rs:15-31 | `name = ` followed by the tokens of such a tree parses to that assignment |
| Grammar.ParseExact | src/parser.rs:33-73 | on a stream whose symbol tokens carry their own character (as both lexers' streams do), the tree `parse_expr` returns is written by exactly the tokens it consumed |
| Grammar.ParseTableExact | src/parser.rs:38-70 | the table loop consumes exactly the tokens of the elements it adds and the closing brace |
| Grammar.ProgramExact | src/parser.rs:15-31 | an accepted program is written by exactly its identifier, `=`, and the tokens of its value, from where parsing started |
| Grammar.MixedTableAccepted | src/parser.rs:45-56 | a key/value element followed by a bare unit is accepted by the parser, giving a tree that mixes kinds |
| Grammar.ArrayThenKeyRejected | src/parser.rs:51-59 | a bare unit followed by `key = value` is rejected: the unit and key are read as a pair, and the `=` after them is unexpected |
| Grammar.StringKeyRejected | src/parser.rs:45-59 | a string before `=` makes the `=` unexpected |
| Grammar.UnfinishedTableRejected | src/parser.rs:60-63 | input ending inside a table, or an undefined character inside one, is reported as such |
| Grammar.EmptyTableProgram | src/parser.rs:15-31 | `x = {}` is the assignment of the empty table |
| Parser.Parser.constructor | src/parser.rs:11-13 | a new parser reads from the given lexer, which has answered no call yet |
| Parser.Parser.Advance | src/parser.rs:16 | takes the next answer of the lexer |
| Parser.Parser.ParseProgram | src/parser.rs:15-31 | computes `Grammar.ParseProgram` from the lexer's current position |
| Parser.Parser.ParseExpr | src/parser.rs:33-73 | computes `Grammar.ParseExpr` and stands just past the expression on success |
| Parser.Parser.ParseTable | src/parser.rs:38-70 | computes `Grammar.ParseTable` and stands just past the closing brace on success |
| Json.Indent | src/json.rs:7-8 | four spaces per level |
| Json.RenderExpr | src/json.rs:6-65 | computes `Json.Render` |
| Json.RenderOkIffHomogeneous | src/json.rs:22-46 | rendering succeeds iff every table in the tree holds one element kind |
| Json.RenderElementsOk | src/json.rs:22-46 | the element loop succeeds iff every element fits the kind chosen so far and every nested value renders |
| Json.MixedTableError | src/json.rs:24-37 | a table fails with the error for its first element whose kind differs from the first element's, provided the values of the elements before that one render; the elements after it play no part |
| Json.RenderMismatch | src/json.rs:25-37 | once the kind is chosen, the loop fails at the first element of the other kind, whatever follows it, provided the elements before it render |
| Json.MismatchStopsBeforeValue | src/json.rs:25-37 | in `{ 1 k = { 1 k = 1 } }` the outer table reports its own error, although the value after the offending element is itself mixed |
| Json.RenderElementsLines | src/json.rs:22-46 | the loop writes one line per element, in order: a bare token indented one level deeper, or `"key": value` |
| Json.RenderTableLayout | src/json.rs:48-62 | a rendered table is its bracket pair, chosen by the first element (`[ ]` iff bare), around the element lines joined by `,\n`, with the closing bracket at the table's indent |
| Json.UnitRendering | src/json.rs:11-17 | a unit is quoted iff it is an identifier or a string, and otherwise is its text |
| Json.EmptyTableRendersAsObject | src/json.rs:48-62 | an empty table is written `{`, two line feeds, `}` |
| Json.KeylessStringIsRaw | src/json.rs:11-30 | a string unit is quoted, but a bare string inside an array is written without quotes |
| Json.NestedObject | src/json.rs:32-45 | `{ n = 1 }` is written as an object with one indented `"n": 1` line |
| Pipeline.Process | src/main.rs:18-29 | computes `Pipeline.ProcessInput`: parse the lazily lexed lines, then render the assigned value |
| Pipeline.ProcessOkIff | src/main.rs:23-26 | the pipeline yields JSON iff the program parses and its value has tables of one kind each; a render failure only follows a successful parse |
| Pipeline.ProcessUnparse | src/main.rs:18-29 | `name = ` followed by the tokens of a well-typed, single-kind value yields that value's rendering |
| Pipeline.ProcessReadsExactly | src/main.rs:18-29 | the tokens of a file the pipeline accepts begin with exactly `name = ` and the tokens of the value it renders |

## Left out

- Opening the file and the command-line driver of `src/main.rs` (arguments, directories, writing output) are not modelled. The input is the sequence of the file's lines.
- `src/tests.rs` is not part of this model.
- Character classes are ASCII: letters, digits and the whitespace characters space and tab through carriage return. Rust's Unicode `is_alphabetic`, `is_numeric` and `is_whitespace` accept more characters.
- A read error of the lazy lexer's reader is treated like the end of the input, as `unwrap_or(0)` does. Lines are given with their line feeds, as `read_line` keeps them.
- Error messages are modelled as error kinds, not strings. The eager and lazy parsers differ only in the text of their messages.
- The renderer's two panic messages name the opposite of what happened. An array element inside an object reports "arrays cannot have keyed elements". The kinds here are named for what happened: `ArrayElementInObject` and `KeyValueInArray`.
- The lazy lexer's `pos` field is never advanced by the source and only appears in a panic message, so it is not modelled.
- The `phf_map` of single-character tokens is modelled as a predicate and a function over `{`, `}` and `=`.
- Panics (`panic!`, and the `unwrap` in `parse_program` and `process_input`) are modelled as error results. The model says nothing about the state after an error.
- `src/parser.rs` and `src/lazyparser.rs` are one class over the answers of a lexer (`Streams.TokenStream`). `EagerLexer.TokenizeAgreesWithPulls` and `LazyLexer.LazyTokenizeAgreesWithPulls` connect those answers to each lexer's successive `advance` calls.
- Parser.Parser.ParseTable: the loop of `parse_expr` is a method of its own, which `Parser.Parser.ParseExpr` calls after the opening brace.
- LazyLexer.LazyLex: the recursion after skipped whitespace or a comment is split into one dispatch step (`LexStep`) and the repetition.
- Pipeline.Process: the parser is built over the stream of the lazy lexer's answers (`LazyLexer.LazyTokenize`), not over a lexer object that it advances.
- Array elements are rendered as their raw text, as `src/json.rs:30` does, even for identifiers and strings. So an array of strings or identifiers is not valid JSON, unlike a keyed value (`Json.UnitRendering`, `Json.KeylessStringIsRaw`).
