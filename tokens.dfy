/** The token model: a closed set of token kinds and an immutable (kind, text) pair. */
module Tokens {

  datatype TokenType =
    // unit types
    | Integer | Float | Identifier | String
    // symbols
    | Equal | LBrace | RBrace
    // errors
    | EOF | Undefined

  datatype Token = Token(kind: TokenType, value: string)

  /** The kinds a scalar value can have. */
  const UnitKinds: set<TokenType> := {Identifier, Integer, Float, String}

  /** The kinds allowed on the left of `=` inside a table. */
  const KeyKinds: set<TokenType> := {Identifier, Integer}

  /** `Token::new`: stores the kind and the text unchanged. */
  function NewToken(kind: TokenType, value: string): (t: Token)
    ensures t.kind == kind && t.value == value
  {
    Token(kind, value)
  }

  /** `Token::eof`: end of input, empty text. */
  function EofToken(): (t: Token)
    ensures t.kind == EOF && t.value == ""
  {
    Token(EOF, "")
  }

  /** `Token::undefined`: an unrecognised character, kept as a one-character text. */
  function UndefinedToken(c: char): (t: Token)
    ensures t.kind == TokenType.Undefined && t.value == [c] && |t.value| == 1
  {
    Token(TokenType.Undefined, [c])
  }

  /** `is_unit`: the token can stand alone as a value. */
  predicate IsUnit(t: Token)
    ensures IsUnit(t) <==> t.kind in UnitKinds
  {
    t.kind == Identifier || t.kind == Integer || t.kind == Float || t.kind == String
  }

  /** `is_key`: the token may be a table key. */
  predicate IsKey(t: Token)
    ensures IsKey(t) <==> t.kind in KeyKinds
  {
    t.kind == Identifier || t.kind == Integer
  }

  /** Every key is a unit; Float and String are units but never keys; the
      symbols and the two error kinds are never units. */
  lemma KeysAreUnits(t: Token)
    ensures IsKey(t) ==> IsUnit(t)
    ensures t.kind in {Float, String} ==> IsUnit(t) && !IsKey(t)
    ensures t.kind in {Equal, LBrace, RBrace, EOF, TokenType.Undefined} ==> !IsUnit(t) && !IsKey(t)
  {
  }
}
