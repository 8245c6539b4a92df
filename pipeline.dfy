/** `process_input` of src/main.rs: the lazy lexer over the lines of a file,
    the parser's `parse_program` over that lexer, and the renderer applied to
    the value of the assignment read (its identifier is dropped). Opening the
    file is not modelled: the input is its lines. The source's `unwrap` of the
    parse result and the renderer's panics are the two kinds of failure. */
module Pipeline {
  import opened Wrappers
  import opened Tokens
  import opened Ast
  import opened Streams
  import opened LazyLexer
  import Grammar
  import Parser
  import Json

  datatype ProcessError = ParseFailed(parse: Grammar.ParseError) | RenderFailed(render: Json.RenderError)

  /** The stages after lexing: the program read from a token stream, and
      the JSON text of its value. */
  function ProcessStream(ts: TokenStream): Result<string, ProcessError>
  {
    var program := Grammar.ParseProgram(ts, 0);
    if program.Err? then Err(ParseFailed(program.error))
    else
      var rendered := Json.Render(program.value.assignment.value, 0);
      if rendered.Err? then Err(RenderFailed(rendered.error)) else Ok(rendered.value)
  }

  /** The whole pipeline on the lines of a file. */
  function ProcessInput(lines: seq<seq<char>>): Result<string, ProcessError>
    requires LinesNonEmpty(lines)
  {
    ProcessStream(LazyTokenize(Cursor([], lines)))
  }

  /** `process_input` as the source runs it: a parser over the lexer's
      answers, then the renderer. */
  method Process(lines: seq<seq<char>>) returns (r: Result<string, ProcessError>)
    requires LinesNonEmpty(lines)
    ensures r == ProcessInput(lines)
  {
    var parser := new Parser.Parser(LazyTokenize(Cursor([], lines)));
    var program := parser.ParseProgram();
    if program.Err? {
      return Err(ParseFailed(program.error));
    }
    var rendered := Json.RenderExpr(program.value.assignment.value, 0);
    if rendered.Err? {
      return Err(RenderFailed(rendered.error));
    }
    return Ok(rendered.value);
  }

  /** A stream yields JSON exactly when it holds a program whose value has
      tables of one element kind each; a parsed program whose value mixes
      kinds fails in the renderer, never in the parser. */
  lemma ProcessOkIff(ts: TokenStream)
    ensures ProcessStream(ts).Ok? <==>
      Grammar.ParseProgram(ts, 0).Ok? && Homogeneous(Grammar.ParseProgram(ts, 0).value.assignment.value)
    ensures ProcessStream(ts).Err? && ProcessStream(ts).error.RenderFailed? ==>
      Grammar.ParseProgram(ts, 0).Ok? && !Homogeneous(Grammar.ParseProgram(ts, 0).value.assignment.value)
  {
    var program := Grammar.ParseProgram(ts, 0);
    if program.Ok? {
      Json.RenderOkIffHomogeneous(program.value.assignment.value, 0);
    }
  }

  /** Writing out `name = value` for a well-formed, homogeneous value and
      running the stages after lexing gives the rendering of the value. */
  lemma ProcessUnparse(id: Token, e: Expression, ts: TokenStream)
    requires id.kind == Identifier && WellTyped(e) && Homogeneous(e)
    requires Grammar.TokensAt(ts, 0, [id, EqualToken] + Grammar.Unparse(e))
    ensures Json.Render(e, 0).Ok?
    ensures ProcessStream(ts) == Ok(Json.Render(e, 0).value)
  {
    Grammar.ParseProgramUnparse(id, e, ts, 0);
    Json.RenderOkIffHomogeneous(e, 0);
  }

  /** Conversely, the tokens of a file the pipeline accepts begin with
      exactly `name = ` and the tokens of the value it renders. */
  lemma ProcessReadsExactly(lines: seq<seq<char>>)
    requires LinesNonEmpty(lines)
    requires ProcessInput(lines).Ok?
    ensures var ts := LazyTokenize(Cursor([], lines));
      var a := Grammar.ParseProgram(ts, 0).value.assignment;
      && Grammar.ParseProgram(ts, 0).Ok?
      && Grammar.TokensAt(ts, 0, [a.identifier, EqualToken] + Grammar.Unparse(a.value))
      && ProcessInput(lines) == Ok(Json.Render(a.value, 0).value)
  {
    var ts := LazyTokenize(Cursor([], lines));
    LazyTokenizeCanonical(Cursor([], lines));
    Grammar.ProgramExact(ts, 0);
  }
}
