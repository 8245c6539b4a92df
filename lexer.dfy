/** The eager lexer: the whole source is in memory and a cursor `pos` moves over it. */
module EagerLexer {
  import opened Wrappers
  import opened Tokens
  import opened Chars
  import opened Streams

  /** First position at or after `p` that is not whitespace. */
  function SkipSpaces(s: seq<char>, p: nat): (w: nat)
    requires p <= |s|
    ensures p <= w <= |s|
    ensures forall k :: p <= k < w ==> IsWhitespace(s[k])
    ensures w == |s| || !IsWhitespace(s[w])
  {
    RunEnd(s, p, Spaces)
  }

  /** What one `advance` call returns when the cursor is at `p`, and where it
      leaves the cursor. */
  function Lex(s: seq<char>, p: nat): (r: (Result<Token, LexError>, nat))
    ensures r.0.Ok? && r.0.value.kind !in {EOF, TokenType.Undefined} ==> p < r.1 <= |s|
    ensures r.0.Ok? && r.0.value.kind == TokenType.Undefined ==> |r.0.value.value| == 1
    ensures r.0.Ok? && r.0.value.kind == EOF ==> r.0.value == EofToken()
    decreases |s| - p
  {
    if p >= |s| then (Ok(EofToken()), p)
    else
      var c := s[p];
      if IsSymbol(c) then (Ok(NewToken(SymbolKind(c), [c])), p + 1)
      else if IsAlphabetic(c) then
        var e := RunEnd(s, p, IdentChars);
        (Ok(NewToken(Identifier, s[p..e])), e)
      else if IsNumeric(c) then
        var e := RunEnd(s, p, NumberChars);
        (Ok(NewToken(if '.' in s[p..e] then Float else Integer, s[p..e])), e)
      else if c == '"' then
        var q := RunEnd(s, p + 1, NotQuote);
        if q < |s| then (Ok(NewToken(String, s[p + 1..q])), q + 1)
        else (Err(UnterminatedString), q + 1)
      else if IsWhitespace(c) then Lex(s, SkipSpaces(s, p))
      else (Ok(UndefinedToken(c)), p)
  }

  /** Leading whitespace does not matter: lexing from anywhere inside it
      gives the same answer as lexing from the first non-blank character. */
  lemma LexSkipsWhitespace(s: seq<char>, p: nat, q: nat)
    requires p <= |s| && p <= q <= SkipSpaces(s, p)
    ensures Lex(s, p) == Lex(s, q)
  {
    var w := SkipSpaces(s, p);
    RunEndFrom(s, p, q, Spaces);
    RunEndFrom(s, p, w, Spaces);
    if q < w {
      assert Lex(s, q) == Lex(s, w);
    }
    if p < w {
      assert Lex(s, p) == Lex(s, w);
    }
  }

  /** The text of every token is what the lexer consumed after the skipped
      whitespace: the whole lexeme for symbols, identifiers and numbers, the
      lexeme without its quotes for strings; an undefined character is not
      consumed, and end of input only happens at the end of the source. */
  lemma LexConsumes(s: seq<char>, p: nat)
    requires p <= |s|
    ensures var (r, q) := Lex(s, p); var w := SkipSpaces(s, p);
      && (r.Ok? && r.value.kind in {LBrace, RBrace, Equal, Identifier, Integer, Float} ==>
            w < q && r.value.value == s[w..q])
      && (r.Ok? && r.value.kind == String ==>
            w + 2 <= q && s[w] == '"' && s[q - 1] == '"' && r.value.value == s[w + 1..q - 1]
            && '"' !in r.value.value)
      && (r.Ok? && r.value.kind == TokenType.Undefined ==> q == w < |s| && r.value.value == [s[w]])
      && (r.Ok? && r.value.kind == EOF ==> q == w == |s|)
      && (r.Err? <==> w < |s| && s[w] == '"' && '"' !in s[w + 1..])
  {
    var w := SkipSpaces(s, p);
    LexSkipsWhitespace(s, p, w);
    if w < |s| && s[w] == '"' {
      if '"' !in s[w + 1..] {
        forall k | w + 1 <= k < |s|
          ensures InClass(NotQuote, s[k])
        {
          assert s[k] == s[w + 1..][k - w - 1];
        }
        RunEndUnique(s, w + 1, NotQuote, |s|);
      }
      var q := RunEnd(s, w + 1, NotQuote);
      assert forall k :: w + 1 <= k < q ==> s[k] != '"';
      if q == |s| {
        var tail := s[w + 1..];
        assert forall k :: 0 <= k < |tail| ==> tail[k] != '"';
      }
    }
  }

  // Which token the first character after the whitespace gives: one lemma
  // per branch of `advance`, each in both directions.

  /** End of input exactly when only whitespace is left; the cursor stays. */
  lemma LexEnd(s: seq<char>, p: nat)
    requires p <= |s|
    ensures var (r, q) := Lex(s, p); var w := SkipSpaces(s, p);
      && ((r.Ok? && r.value.kind == EOF) <==> w == |s|)
      && (w == |s| ==> r == Ok(EofToken()) && q == w)
  {
    LexSkipsWhitespace(s, p, SkipSpaces(s, p));
  }

  /** `{`, `}` and `=` give their symbol token, with the character as text,
      and the cursor moves past it; no other character gives a symbol. */
  lemma LexSymbol(s: seq<char>, p: nat)
    requires p <= |s|
    ensures var (r, q) := Lex(s, p); var w := SkipSpaces(s, p);
      && ((r.Ok? && r.value.kind in {LBrace, RBrace, Equal}) <==> (w < |s| && IsSymbol(s[w])))
      && (w < |s| && IsSymbol(s[w]) ==> r == Ok(NewToken(SymbolKind(s[w]), [s[w]])) && q == w + 1)
  {
    LexSkipsWhitespace(s, p, SkipSpaces(s, p));
  }

  /** A letter gives an identifier, and only a letter does: the longest run
      of letters, digits and underscores from there. */
  lemma LexIdentifier(s: seq<char>, p: nat)
    requires p <= |s|
    ensures var (r, q) := Lex(s, p); var w := SkipSpaces(s, p);
      && ((r.Ok? && r.value.kind == Identifier) <==> (w < |s| && IsAlphabetic(s[w])))
      && (w < |s| && IsAlphabetic(s[w]) ==>
            var e := RunEnd(s, w, IdentChars);
            && r == Ok(NewToken(Identifier, s[w..e])) && q == e && w < e
            && (forall k :: w <= k < e ==> IsIdentChar(s[k]))
            && (e == |s| || !IsIdentChar(s[e])))
  {
    LexSkipsWhitespace(s, p, SkipSpaces(s, p));
  }

  /** A digit gives a number, and only a digit does: the longest run of
      digits and dots from there, a Float exactly when the run holds a dot
      (however many). */
  lemma LexNumber(s: seq<char>, p: nat)
    requires p <= |s|
    ensures var (r, q) := Lex(s, p); var w := SkipSpaces(s, p);
      && ((r.Ok? && r.value.kind in {Integer, Float}) <==> (w < |s| && IsNumeric(s[w])))
      && (w < |s| && IsNumeric(s[w]) ==>
            var e := RunEnd(s, w, NumberChars);
            && r == Ok(NewToken(if '.' in s[w..e] then Float else Integer, s[w..e])) && q == e && w < e
            && (forall k :: w <= k < e ==> IsNumberChar(s[k]))
            && (e == |s| || !IsNumberChar(s[e])))
  {
    LexSkipsWhitespace(s, p, SkipSpaces(s, p));
  }

  /** A quote gives a string or the unterminated-string failure, and only a
      quote does: the text up to the next quote, with the cursor past it; with
      no quote left, the failure. */
  lemma LexString(s: seq<char>, p: nat)
    requires p <= |s|
    ensures var (r, q) := Lex(s, p); var w := SkipSpaces(s, p);
      && ((r.Err? || r.value.kind == String) <==> (w < |s| && s[w] == '"'))
      && (w < |s| && s[w] == '"' ==>
            var e := RunEnd(s, w + 1, NotQuote);
            && (e < |s| ==> r == Ok(NewToken(String, s[w + 1..e])) && q == e + 1)
            && (e == |s| ==> r == Err(UnterminatedString)))
  {
    LexSkipsWhitespace(s, p, SkipSpaces(s, p));
  }

  /** Every other character, `_`, `-` and `#` among them, is an undefined
      token, and the cursor stays on it. */
  lemma LexUndefined(s: seq<char>, p: nat)
    requires p <= |s|
    ensures var (r, q) := Lex(s, p); var w := SkipSpaces(s, p);
      && ((r.Ok? && r.value.kind == TokenType.Undefined) <==>
            (w < |s| && !IsSymbol(s[w]) && !IsAlphabetic(s[w]) && !IsNumeric(s[w]) && s[w] != '"'))
      && (w < |s| && !IsSymbol(s[w]) && !IsAlphabetic(s[w]) && !IsNumeric(s[w]) && s[w] != '"' ==>
            r == Ok(UndefinedToken(s[w])) && q == w)
  {
    LexSkipsWhitespace(s, p, SkipSpaces(s, p));
  }

  /** The characters the lazy lexer accepts but this one does not. */
  lemma EagerUndefinedExamples()
    ensures Lex("_a", 0) == (Ok(UndefinedToken('_')), 0)
    ensures Lex(" -1", 0) == (Ok(UndefinedToken('-')), 1)
    ensures Lex("#", 0) == (Ok(UndefinedToken('#')), 0)
  {
    assert SkipSpaces(" -1", 0) == 1 by {
      assert RunEnd(" -1", 1, Spaces) == 1;
    }
  }

  /** Symbol tokens carry their own character, so the stream is `Canonical`. */
  lemma LexCanonical(s: seq<char>, p: nat)
    requires p <= |s|
    ensures Lex(s, p).0.Ok? ==> CanonicalToken(Lex(s, p).0.value)
  {
    LexSymbol(s, p);
  }

  /** End of input and an undefined character leave the cursor where a
      repeated call gives the same answer again. */
  lemma LexTerminalRepeats(s: seq<char>, p: nat)
    requires p <= |s|
    requires Lex(s, p).0.Ok? && Lex(s, p).0.value.kind in {EOF, TokenType.Undefined}
    ensures Lex(s, Lex(s, p).1) == Lex(s, p)
  {
    var w := SkipSpaces(s, p);
    LexSkipsWhitespace(s, p, w);
    LexConsumes(s, p);
  }

  /** The answers of successive `advance` calls from `p`: the `k`-th one, or
      the failure that ended the run before it. */
  function Pull(s: seq<char>, p: nat, k: nat): Result<Token, LexError>
    decreases k
  {
    var (r, q) := Lex(s, p);
    if k == 0 || r.Err? then r else Pull(s, q, k - 1)
  }

  /** The token stream the parser pulls from an eager lexer at `p`. */
  function Tokenize(s: seq<char>, p: nat): TokenStream
    decreases |s| - p
  {
    var (r, q) := Lex(s, p);
    if IsTerminal(r) then Ended(r) else Cons(r.value, Tokenize(s, q))
  }

  lemma {:induction false} PullRepeats(s: seq<char>, p: nat, k: nat)
    requires p <= |s|
    requires Lex(s, p).0.Ok? && Lex(s, p).0.value.kind in {EOF, TokenType.Undefined}
    requires Lex(s, p).1 == p
    ensures Pull(s, p, k) == Lex(s, p).0
    decreases k
  {
    if k > 0 {
      PullRepeats(s, p, k - 1);
    }
  }

  /** Pulling tokens one call at a time gives exactly the stream `Tokenize`. */
  lemma {:induction false} TokenizeAgreesWithPulls(s: seq<char>, p: nat, k: nat)
    requires p <= |s|
    ensures Pull(s, p, k) == At(Tokenize(s, p), k)
    decreases |s| - p
  {
    var (r, q) := Lex(s, p);
    if IsTerminal(r) {
      if r.Ok? && k > 0 {
        LexTerminalRepeats(s, p);
        LexConsumes(s, p);
        PullRepeats(s, q, k - 1);
      }
    } else if k > 0 {
      TokenizeAgreesWithPulls(s, q, k - 1);
    }
  }

  /** Every symbol token of the eager stream carries its own character. */
  lemma {:induction false} TokenizeCanonical(s: seq<char>, p: nat)
    requires p <= |s|
    ensures Canonical(Tokenize(s, p))
    decreases |s| - p
  {
    var (r, q) := Lex(s, p);
    if !IsTerminal(r) {
      LexCanonical(s, p);
      TokenizeCanonical(s, q);
      var rest := Tokenize(s, q);
      assert Tokenize(s, p).tokens == [r.value] + rest.tokens;
    }
  }

  /** The lexer object of `src/lexer.rs`. */
  class Lexer {
    var pos: nat
    const source: seq<char>

    constructor (source: seq<char>)
      ensures this.source == source && pos == 0
    {
      this.source := source;
      pos := 0;
    }

    method GetCurrentChar() returns (c: Option<char>)
      ensures c.Some? <==> pos < |source|
      ensures c.Some? ==> c.value == source[pos]
    {
      if pos < |source| {
        c := Some(source[pos]);
      } else {
        c := None;
      }
    }

    method Advance() returns (r: Result<Token, LexError>)
      modifies this
      ensures (r, pos) == Lex(source, old(pos))
      decreases |source| - pos
    {
      var current := GetCurrentChar();
      if current.None? {
        return Ok(EofToken());
      }
      var c := current.value;
      if IsSymbol(c) {
        pos := pos + 1;
        return Ok(NewToken(SymbolKind(c), [c]));
      } else if IsAlphabetic(c) {
        var t := ConsumeIdentifier();
        return Ok(t);
      } else if IsNumeric(c) {
        var t := ConsumeNumeric();
        return Ok(t);
      } else if c == '"' {
        r := ConsumeString();
        return;
      } else if IsWhitespace(c) {
        SkipSpacesInPlace();
        r := Advance();
        return;
      }
      return Ok(UndefinedToken(c));
    }

    method ConsumeIdentifier() returns (t: Token)
      requires pos <= |source|
      modifies this
      ensures pos == RunEnd(source, old(pos), IdentChars)
      ensures t == NewToken(Identifier, source[old(pos)..pos])
    {
      var buffer: string := [];
      while true
        invariant old(pos) <= pos <= |source|
        invariant buffer == source[old(pos)..pos]
        invariant forall k :: old(pos) <= k < pos ==> IsIdentChar(source[k])
        decreases |source| - pos
      {
        var current := GetCurrentChar();
        if current.None? || (!IsAlphanumeric(current.value) && current.value != '_') {
          break;
        }
        assert source[old(pos)..pos + 1] == source[old(pos)..pos] + [source[pos]];
        buffer := buffer + [current.value];
        pos := pos + 1;
      }
      RunEndUnique(source, old(pos), IdentChars, pos);
      t := NewToken(Identifier, buffer);
    }

    method ConsumeNumeric() returns (t: Token)
      requires pos <= |source|
      modifies this
      ensures pos == RunEnd(source, old(pos), NumberChars)
      ensures t == NewToken(if '.' in source[old(pos)..pos] then Float else Integer, source[old(pos)..pos])
    {
      var buffer: string := [];
      var isFloat := false;
      while true
        invariant old(pos) <= pos <= |source|
        invariant buffer == source[old(pos)..pos]
        invariant forall k :: old(pos) <= k < pos ==> IsNumberChar(source[k])
        invariant isFloat <==> '.' in buffer
        decreases |source| - pos
      {
        var current := GetCurrentChar();
        if current.None? {
          break;
        }
        if current.value == '.' {
          isFloat := true;
        } else if !IsNumeric(current.value) {
          break;
        }
        assert source[old(pos)..pos + 1] == source[old(pos)..pos] + [source[pos]];
        buffer := buffer + [current.value];
        pos := pos + 1;
      }
      RunEndUnique(source, old(pos), NumberChars, pos);
      if isFloat {
        t := NewToken(Float, buffer);
      } else {
        t := NewToken(Integer, buffer);
      }
    }

    method ConsumeString() returns (r: Result<Token, LexError>)
      requires pos < |source| && source[pos] == '"'
      modifies this
      ensures var q := RunEnd(source, old(pos) + 1, NotQuote);
        && pos == q + 1
        && r == if q < |source| then Ok(NewToken(String, source[old(pos) + 1..q])) else Err(UnterminatedString)
    {
      var buffer: string := [];
      var isValidString := false;
      pos := pos + 1;
      while true
        invariant old(pos) + 1 <= pos <= |source|
        invariant buffer == source[old(pos) + 1..pos]
        invariant forall k :: old(pos) + 1 <= k < pos ==> IsNotQuote(source[k])
        decreases |source| - pos
      {
        var current := GetCurrentChar();
        if current.None? {
          break;
        }
        if current.value == '"' {
          isValidString := true;
          break;
        }
        pos := pos + 1;
        buffer := buffer + [current.value];
      }
      RunEndUnique(source, old(pos) + 1, NotQuote, pos);
      pos := pos + 1;
      if isValidString {
        r := Ok(NewToken(String, buffer));
      } else {
        r := Err(UnterminatedString);
      }
    }

    method SkipSpacesInPlace()
      requires pos <= |source|
      modifies this
      ensures pos == SkipSpaces(source, old(pos))
    {
      while true
        invariant old(pos) <= pos <= |source|
        invariant forall k :: old(pos) <= k < pos ==> IsWhitespace(source[k])
        decreases |source| - pos
      {
        var current := GetCurrentChar();
        if current.None? || !IsWhitespace(current.value) {
          break;
        }
        pos := pos + 1;
      }
      RunEndUnique(source, old(pos), Spaces, pos);
    }
  }
}
