/** Character classes and scanning helpers shared by both lexers.
    The source uses Rust's Unicode predicates (`is_alphabetic`, `is_numeric`,
    `is_alphanumeric`, `is_whitespace`); this model uses their ASCII part. */
module Chars {
  import opened Tokens

  predicate IsAlphabetic(c: char) { 'a' <= c <= 'z' || 'A' <= c <= 'Z' }

  predicate IsNumeric(c: char) { '0' <= c <= '9' }

  predicate IsAlphanumeric(c: char) { IsAlphabetic(c) || IsNumeric(c) }

  /** Space and the ASCII control characters tab, line feed, vertical tab,
      form feed and carriage return. */
  predicate IsWhitespace(c: char) { c == ' ' || '\t' <= c <= '\r' }

  predicate IsNotQuote(c: char) { c != '"' }

  predicate IsNotNewline(c: char) { c != '\n' }

  /** The eager lexer's identifier characters: letters, digits and underscores. */
  predicate IsIdentChar(c: char) { IsAlphanumeric(c) || c == '_' }

  /** The eager lexer's number characters: digits and dots. */
  predicate IsNumberChar(c: char) { IsNumeric(c) || c == '.' }

  /** `is_char_identifier` of the lazy lexer: a letter or an underscore. */
  predicate IsCharIdentifier(c: char) { IsAlphabetic(c) || c == '_' }

  /** Characters that keep a numeric run of the lazy lexer going. */
  predicate IsNumericRunChar(c: char) { c == '-' || c == '.' || IsCharIdentifier(c) || IsNumeric(c) }

  /** The character classes the two lexers scan runs of. */
  datatype CharClass = Spaces | NotQuote | NotNewline | IdentChars | NumberChars | WordChars | NumericRunChars

  predicate InClass(cls: CharClass, c: char)
  {
    match cls
    case Spaces => IsWhitespace(c)
    case NotQuote => IsNotQuote(c)
    case NotNewline => IsNotNewline(c)
    case IdentChars => IsIdentChar(c)
    case NumberChars => IsNumberChar(c)
    case WordChars => IsCharIdentifier(c)
    case NumericRunChars => IsNumericRunChar(c)
  }

  /** The keys of `SINGLE_CHAR_TOKENS`. */
  predicate IsSymbol(c: char) { c == '{' || c == '}' || c == '=' }

  /** The values of `SINGLE_CHAR_TOKENS`. */
  function SymbolKind(c: char): (k: TokenType)
    requires IsSymbol(c)
    ensures k in {LBrace, RBrace, Equal}
    ensures (k == LBrace <==> c == '{') && (k == RBrace <==> c == '}') && (k == Equal <==> c == '=')
  {
    if c == '{' then LBrace else if c == '}' then RBrace else Equal
  }

  /** The end of the maximal run of characters of class `cls` that starts at `i`. */
  function RunEnd(s: seq<char>, i: nat, cls: CharClass): (e: nat)
    requires i <= |s|
    ensures i <= e <= |s|
    ensures forall k :: i <= k < e ==> InClass(cls, s[k])
    ensures e == |s| || !InClass(cls, s[e])
    decreases |s| - i
  {
    if i == |s| || !InClass(cls, s[i]) then i else RunEnd(s, i + 1, cls)
  }

  /** The two properties of RunEnd determine it. */
  lemma RunEndUnique(s: seq<char>, i: nat, cls: CharClass, e: nat)
    requires i <= e <= |s|
    requires forall k :: i <= k < e ==> InClass(cls, s[k])
    requires e == |s| || !InClass(cls, s[e])
    ensures RunEnd(s, i, cls) == e
  {
  }

  /** Starting anywhere inside a run finds the same end. */
  lemma RunEndFrom(s: seq<char>, i: nat, j: nat, cls: CharClass)
    requires i <= |s| && i <= j <= RunEnd(s, i, cls)
    ensures RunEnd(s, j, cls) == RunEnd(s, i, cls)
  {
    RunEndUnique(s, j, cls, RunEnd(s, i, cls));
  }

  /** Scanning one character further on a sequence with one more character
      in front finds the same run, shifted by one. */
  lemma {:induction false} RunEndShift(x: char, t: seq<char>, i: nat, cls: CharClass)
    requires i <= |t|
    ensures RunEnd([x] + t, i + 1, cls) == RunEnd(t, i, cls) + 1
    decreases |t| - i
  {
    var s := [x] + t;
    assert s[i + 1..] == t[i..];
    if i < |t| && InClass(cls, t[i]) {
      assert s[i + 1] == t[i];
      RunEndShift(x, t, i + 1, cls);
    }
  }

  /** Number of occurrences of `c` in `s`, counted from the end so that
      appending one character is one unfolding. */
  function Count(c: char, s: seq<char>): (n: nat)
    ensures n <= |s|
  {
    if s == [] then 0 else Count(c, s[..|s| - 1]) + (if s[|s| - 1] == c then 1 else 0)
  }

  lemma {:induction false} CountPositive(c: char, s: seq<char>)
    ensures Count(c, s) > 0 <==> c in s
  {
    if s != [] {
      var init := s[..|s| - 1];
      CountPositive(c, init);
      assert s == init + [s[|s| - 1]];
      assert c in s <==> c in init || c == s[|s| - 1];
    }
  }

  lemma {:induction false} CountPrepend(c: char, x: char, w: seq<char>)
    ensures Count(c, [x] + w) == (if x == c then 1 else 0) + Count(c, w)
    decreases |w|
  {
    if w != [] {
      var init := w[..|w| - 1];
      assert ([x] + w)[..|w|] == [x] + init;
      CountPrepend(c, x, init);
    }
  }

  lemma CountAppend(c: char, w: seq<char>, x: char)
    ensures Count(c, w + [x]) == Count(c, w) + (if x == c then 1 else 0)
  {
    assert (w + [x])[..|w|] == w;
  }
}
