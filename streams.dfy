/** What the parser sees of a lexer: the tokens it yields one call at a time.
    Both lexers are deterministic, so the answers they give to successive
    `advance` calls form a fixed sequence; after the last proper token every
    further call gives the same terminal answer again (end of input, an
    undefined character that the eager lexer never moves past, or the lexing
    failure that stops the run). */
module Streams {
  import opened Wrappers
  import opened Tokens

  /** The one lexing failure: a string literal without its closing quote. */
  datatype LexError = UnterminatedString

  datatype StreamEnd = EndOfInput | StuckAt(c: char) | LexFailed(error: LexError)

  datatype TokenStream = TokenStream(tokens: seq<Token>, end: StreamEnd)

  /** The answer to the lexer's `i`-th `advance` call (counting from 0). */
  function At(ts: TokenStream, i: nat): (r: Result<Token, LexError>)
    ensures i < |ts.tokens| ==> r == Ok(ts.tokens[i])
    ensures r.Ok? && r.value.kind !in {EOF, TokenType.Undefined} ==> i < |ts.tokens|
  {
    if i < |ts.tokens| then Ok(ts.tokens[i])
    else match ts.end
      case EndOfInput => Ok(EofToken())
      case StuckAt(c) => Ok(UndefinedToken(c))
      case LexFailed(e) => Err(e)
  }

  /** The answer that ends a stream: end of input, an undefined character, or a failure. */
  predicate IsTerminal(r: Result<Token, LexError>)
  {
    r.Err? || r.value.kind == EOF || r.value.kind == TokenType.Undefined
  }

  /** The stream whose first answer is `t` and whose later answers are those of `rest`. */
  function Cons(t: Token, rest: TokenStream): (ts: TokenStream)
    ensures At(ts, 0) == Ok(t)
    ensures forall i: nat :: At(ts, i + 1) == At(rest, i)
  {
    TokenStream([t] + rest.tokens, rest.end)
  }

  /** The stream that gives the terminal answer `r` from its first call on. */
  function Ended(r: Result<Token, LexError>): (ts: TokenStream)
    requires IsTerminal(r)
    requires r.Ok? && r.value.kind == TokenType.Undefined ==> |r.value.value| == 1
    requires r.Ok? && r.value.kind == EOF ==> r.value == EofToken()
    ensures forall i: nat :: At(ts, i) == r
  {
    match r
    case Err(e) => TokenStream([], LexFailed(e))
    case Ok(t) =>
      if t.kind == EOF then TokenStream([], EndOfInput)
      else
        assert t == UndefinedToken(t.value[0]);
        TokenStream([], StuckAt(t.value[0]))
  }

  /** The symbol tokens with their own character as text. */
  const EqualToken := Token(Equal, "=")
  const LBraceToken := Token(LBrace, "{")
  const RBraceToken := Token(RBrace, "}")

  /** A symbol token whose text is its own character. */
  predicate CanonicalToken(t: Token)
  {
    (t.kind == Equal ==> t == EqualToken) &&
    (t.kind == LBrace ==> t == LBraceToken) &&
    (t.kind == RBrace ==> t == RBraceToken)
  }

  /** Every symbol token of the stream carries its own character. */
  predicate Canonical(ts: TokenStream)
  {
    forall k :: 0 <= k < |ts.tokens| ==> CanonicalToken(ts.tokens[k])
  }
}
