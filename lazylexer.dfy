/** The lazy lexer: characters come from a reader one line at a time and wait
    in a double-ended queue (`buffer`) until they are consumed. The reader is
    modelled by the lines it has still to deliver; `read_line` never delivers
    an empty line, and a read error counts as the end of the input. */
module LazyLexer {
  import opened Wrappers
  import opened Tokens
  import opened Chars
  import opened Streams

  predicate LinesNonEmpty(lines: seq<seq<char>>)
  {
    forall l :: l in lines ==> |l| > 0
  }

  function Concat(lines: seq<seq<char>>): seq<char>
  {
    if lines == [] then [] else lines[0] + Concat(lines[1..])
  }

  /** The lexer's input state: the queued characters and the undelivered lines. */
  datatype Cursor = Cursor(buffer: seq<char>, lines: seq<seq<char>>)

  /** Every character still to be consumed, in order. */
  function Remaining(c: Cursor): seq<char>
  {
    c.buffer + Concat(c.lines)
  }

  /** `fill_buffer`: read one more line, but only into an empty queue. */
  function Fill(c: Cursor): (f: Cursor)
    ensures Remaining(f) == Remaining(c)
    ensures c.buffer != [] ==> f == c
    ensures c.buffer == [] && c.lines != [] ==> f == Cursor(c.lines[0], c.lines[1..])
    ensures LinesNonEmpty(c.lines) ==> LinesNonEmpty(f.lines) && (f.buffer == [] <==> Remaining(c) == [])
    ensures LinesNonEmpty(c.lines) && f.buffer == [] ==> f == c == Cursor([], [])
  {
    if c.buffer == [] && c.lines != [] then Cursor(c.lines[0], c.lines[1..]) else c
  }

  /** A refill, then `pop_front`. */
  function Pop(c: Cursor): (d: Cursor)
    requires LinesNonEmpty(c.lines) && Remaining(c) != []
    ensures LinesNonEmpty(d.lines) && Remaining(d) == Remaining(c)[1..]
  {
    var f := Fill(c);
    Cursor(f.buffer[1..], f.lines)
  }

  /** The loop shared by `consume_identifier`, `consume_numeric`,
      `skip_spaces` and `skip_comment`: peek (with a refill) and pop while
      the next character is in class `cls`. The characters popped, and the
      state the loop stops in. */
  function ScanRun(c: Cursor, cls: CharClass): (r: (seq<char>, Cursor))
    requires LinesNonEmpty(c.lines)
    ensures LinesNonEmpty(r.1.lines) && Remaining(c) == r.0 + Remaining(r.1)
    decreases |Remaining(c)|
  {
    var f := Fill(c);
    if f.buffer == [] || !InClass(cls, f.buffer[0]) then ([], f)
    else
      var p := Cursor(f.buffer[1..], f.lines);
      var r := ScanRun(p, cls);
      assert Remaining(c) == [f.buffer[0]] + Remaining(p) by {
        assert f.buffer == [f.buffer[0]] + f.buffer[1..];
        assert Remaining(c) == f.buffer + Concat(f.lines);
        assert Remaining(p) == f.buffer[1..] + Concat(f.lines);
      }
      ([f.buffer[0]] + r.0, r.1)
  }

  /** What the loop pops is the longest prefix of the remaining input whose
      characters are all in the class: line boundaries make no difference. */
  lemma {:induction false} ScanRunIsRun(c: Cursor, cls: CharClass)
    requires LinesNonEmpty(c.lines)
    ensures ScanRun(c, cls).0 == Remaining(c)[..RunEnd(Remaining(c), 0, cls)]
    decreases |Remaining(c)|
  {
    var s := Remaining(c);
    var f := Fill(c);
    if f.buffer == [] || !InClass(cls, f.buffer[0]) {
      RunEndUnique(s, 0, cls, 0);
    } else {
      var p := Cursor(f.buffer[1..], f.lines);
      assert p == Pop(c);
      ScanRunIsRun(p, cls);
      RunShiftSeq(s, Remaining(p), cls);
      RunEndFrom(s, 0, 1, cls);
    }
  }

  /** The loop stops at once when the next character, after a refill, is
      missing or outside the class. */
  lemma ScanRunStops(c: Cursor, cls: CharClass)
    requires LinesNonEmpty(c.lines)
    requires Fill(c).buffer == [] || !InClass(cls, Fill(c).buffer[0])
    ensures ScanRun(c, cls) == ([], Fill(c))
  {
  }

  /** One more step of the loop: the character popped after a refill, then
      the rest of the run. */
  lemma ScanRunStep(c: Cursor, cls: CharClass)
    requires LinesNonEmpty(c.lines)
    requires Fill(c).buffer != [] && InClass(cls, Fill(c).buffer[0])
    ensures var f := Fill(c); var r := ScanRun(Cursor(f.buffer[1..], f.lines), cls);
      ScanRun(c, cls) == ([f.buffer[0]] + r.0, r.1)
  {
  }

  lemma RunShiftSeq(s: seq<char>, rest: seq<char>, cls: CharClass)
    requires s != [] && rest == s[1..]
    ensures RunEnd(s, 1, cls) == RunEnd(rest, 0, cls) + 1
    ensures s[..RunEnd(rest, 0, cls) + 1] == [s[0]] + rest[..RunEnd(rest, 0, cls)]
  {
    assert s == [s[0]] + rest;
    RunEndShift(s[0], rest, 0, cls);
  }

  /** Some character of `w` is a letter or an underscore. */
  predicate HasIdentChar(w: seq<char>)
  {
    exists i :: 0 <= i < |w| && IsCharIdentifier(w[i])
  }

  /** The kind `consume_numeric` gives a run that starts with a digit or `-`:
      an identifier once it holds a letter or underscore, a second dot, or a
      second `-` after the first character; otherwise a float if it holds a
      dot, else an integer. */
  function NumericKind(run: seq<char>): TokenType
    requires |run| > 0
  {
    if HasIdentChar(run) || Count('.', run) >= 2 || Count('-', run[1..]) >= 2 then Identifier
    else if '.' in run then Float
    else Integer
  }

  /** A `-` after the first character does not by itself make a run an
      identifier: only a second one does, wherever the first `-` stood. So a
      hyphen inside or at the end of a number, or two leading hyphens, still
      give an integer. */
  lemma HyphenInsideNumber()
    ensures NumericKind("5-3") == Integer
    ensures NumericKind("-5-") == Integer
    ensures NumericKind("--5") == Integer
    ensures NumericKind("5--3") == Identifier
  {
    assert "5-3"[1..] == "-3";
    assert "-5-"[1..] == "5-";
    assert "--5"[1..] == "-5";
    assert "5--3"[1..] == "--3";
    assert Count('-', "--3") == 2 by {
      assert "--3"[..2] == "--";
      assert "--"[..1] == "-";
      assert "-"[..0] == [];
    }
    assert Count('-', "-3") == 1 by {
      assert "-3"[..1] == "-";
      assert "-"[..0] == [];
    }
  }

  /** The state after popping the first character and skipping the run of
      `cls`-characters after it (whitespace, or a comment up to the line feed). */
  function SkipRun(c: Cursor, cls: CharClass): (d: Cursor)
    requires LinesNonEmpty(c.lines) && Remaining(c) != []
    ensures LinesNonEmpty(d.lines) && |Remaining(d)| < |Remaining(c)|
  {
    ScanRun(Pop(c), cls).1
  }

  /** A letter or underscore starts a word: the longest run of letters and
      underscores (a digit ends it). */
  function LexWord(c: Cursor): (r: (Result<Token, LexError>, Cursor))
    requires LinesNonEmpty(c.lines) && Remaining(c) != []
    ensures LinesNonEmpty(r.1.lines) && |Remaining(r.1)| < |Remaining(c)|
  {
    var run := ScanRun(Pop(c), WordChars);
    (Ok(NewToken(Identifier, [Fill(c).buffer[0]] + run.0)), run.1)
  }

  /** A digit or `-` starts a numeric run, classified by NumericKind. */
  function LexNumber(c: Cursor): (r: (Result<Token, LexError>, Cursor))
    requires LinesNonEmpty(c.lines) && Remaining(c) != []
    ensures LinesNonEmpty(r.1.lines) && |Remaining(r.1)| < |Remaining(c)|
  {
    var run := ScanRun(Pop(c), NumericRunChars);
    var text := [Fill(c).buffer[0]] + run.0;
    (Ok(NewToken(NumericKind(text), text)), run.1)
  }

  /** A quote starts a string, which must close in what is left of the
      current line: the queue is not refilled while reading it. */
  function LexString(c: Cursor): (r: (Result<Token, LexError>, Cursor))
    requires LinesNonEmpty(c.lines) && Remaining(c) != []
    ensures LinesNonEmpty(r.1.lines) && |Remaining(r.1)| < |Remaining(c)|
  {
    StringAfterQuote(Pop(c))
  }

  /** The string read from the queue `p.buffer` once the opening quote is gone. */
  function StringAfterQuote(p: Cursor): (r: (Result<Token, LexError>, Cursor))
    requires LinesNonEmpty(p.lines)
    ensures LinesNonEmpty(r.1.lines) && |Remaining(r.1)| <= |Remaining(p)|
  {
    var line := p.buffer;
    var q := RunEnd(line, 0, NotQuote);
    if q < |line| then (Ok(NewToken(String, line[..q])), Cursor(line[q + 1..], p.lines))
    else (Err(UnterminatedString), Cursor([], p.lines))
  }

  /** One pass through `advance`'s dispatch: either it answers, or it has
      skipped whitespace or a comment and starts over from `next`. */
  datatype Step = Emit(answer: Result<Token, LexError>, next: Cursor) | Skip(next: Cursor)

  function LexStep(c: Cursor): (st: Step)
    requires LinesNonEmpty(c.lines)
    ensures LinesNonEmpty(st.next.lines)
    ensures st.Skip? || st.answer.Err? || st.answer.value.kind != EOF ==>
      |Remaining(st.next)| < |Remaining(c)|
    ensures st.Emit? && st.answer.Ok? && st.answer.value.kind == EOF ==>
      st.answer.value == EofToken() && st.next == Cursor([], [])
  {
    var f := Fill(c);
    if f.buffer == [] then Emit(Ok(EofToken()), f)
    else
      var ch := f.buffer[0];
      if IsSymbol(ch) then Emit(Ok(NewToken(SymbolKind(ch), [ch])), Pop(c))
      else if IsCharIdentifier(ch) then var (r, d) := LexWord(c); Emit(r, d)
      else if IsNumeric(ch) || ch == '-' then var (r, d) := LexNumber(c); Emit(r, d)
      else if ch == '"' then var (r, d) := LexString(c); Emit(r, d)
      else if IsWhitespace(ch) then Skip(SkipRun(c, Spaces))
      else if ch == '#' then Skip(SkipRun(c, NotNewline))
      else Emit(Ok(UndefinedToken(ch)), Pop(c))
  }

  /** What one `advance` call returns from state `c`, and the state it leaves. */
  function LazyLex(c: Cursor): (r: (Result<Token, LexError>, Cursor))
    requires LinesNonEmpty(c.lines)
    ensures LinesNonEmpty(r.1.lines)
    ensures r.0.Err? || r.0.value.kind != EOF ==> |Remaining(r.1)| < |Remaining(c)|
    ensures r.0.Ok? && r.0.value.kind == EOF ==> r.0.value == EofToken() && r.1 == Cursor([], [])
    decreases |Remaining(c)|
  {
    match LexStep(c)
    case Emit(r, d) => (r, d)
    case Skip(d) => LazyLex(d)
  }

  /** A refill shows the first remaining character at the front of the queue. */
  lemma FillFront(c: Cursor)
    requires LinesNonEmpty(c.lines) && Remaining(c) != []
    ensures Fill(c).buffer != [] && Fill(c).buffer[0] == Remaining(c)[0]
  {
    var f := Fill(c);
    assert Remaining(f) == f.buffer + Concat(f.lines);
  }

  /** Popping the first character and scanning on takes the longest run of
      `cls`-characters after it, whatever the line boundaries. */
  lemma PopRunIsRun(c: Cursor, cls: CharClass)
    requires LinesNonEmpty(c.lines) && Remaining(c) != []
    ensures var s := Remaining(c); var e := RunEnd(s, 1, cls); var run := ScanRun(Pop(c), cls);
      [Fill(c).buffer[0]] + run.0 == s[..e] && Remaining(run.1) == s[e..]
  {
    var s := Remaining(c);
    var rest := s[1..];
    FillFront(c);
    ScanRunIsRun(Pop(c), cls);
    RunShiftSeq(s, rest, cls);
    var run := ScanRun(Pop(c), cls);
    var n := RunEnd(rest, 0, cls);
    assert rest == run.0 + Remaining(run.1);
    assert Remaining(run.1) == rest[n..];
    assert rest[n..] == s[n + 1..];
  }

  /** When the step answers, that is the answer of `advance`. */
  lemma LazyLexEmit(c: Cursor)
    requires LinesNonEmpty(c.lines) && LexStep(c).Emit?
    ensures LazyLex(c) == (LexStep(c).answer, LexStep(c).next)
  {
  }

  /** When the step skips, `advance` starts over after what it skipped. */
  lemma LazyLexSkip(c: Cursor)
    requires LinesNonEmpty(c.lines) && LexStep(c).Skip?
    ensures LazyLex(c) == LazyLex(LexStep(c).next)
  {
  }

  /** At the end of the input, `advance` answers EOF and the state stays empty. */
  lemma LazyLexAtEnd(c: Cursor)
    requires LinesNonEmpty(c.lines) && Remaining(c) == []
    ensures LazyLex(c) == (Ok(EofToken()), Cursor([], []))
  {
  }

  /** `{`, `}` and `=` give their symbol token and consume one character. */
  lemma LexStepSymbol(c: Cursor)
    requires LinesNonEmpty(c.lines) && Remaining(c) != [] && IsSymbol(Remaining(c)[0])
    ensures var s := Remaining(c); var st := LexStep(c);
      st.Emit? && st.answer == Ok(NewToken(SymbolKind(s[0]), [s[0]])) && Remaining(st.next) == s[1..]
  {
    FillFront(c);
  }

  /** A letter or underscore starts an identifier: the longest run of letters
      and underscores from there. */
  lemma LexStepWord(c: Cursor)
    requires LinesNonEmpty(c.lines) && Remaining(c) != [] && IsCharIdentifier(Remaining(c)[0])
    ensures var s := Remaining(c); var e := RunEnd(s, 1, WordChars); var st := LexStep(c);
      st.Emit? && st.answer == Ok(NewToken(Identifier, s[..e])) && Remaining(st.next) == s[e..]
  {
    FillFront(c);
    StepIsWord(c);
    LexWordMeaning(c);
  }

  lemma StepIsWord(c: Cursor)
    requires LinesNonEmpty(c.lines) && Fill(c).buffer != [] && IsCharIdentifier(Fill(c).buffer[0])
    ensures LexStep(c) == Emit(LexWord(c).0, LexWord(c).1)
  {
  }

  lemma LexWordMeaning(c: Cursor)
    requires LinesNonEmpty(c.lines) && Remaining(c) != []
    ensures var s := Remaining(c); var e := RunEnd(s, 1, WordChars); var r := LexWord(c);
      r.0 == Ok(NewToken(Identifier, s[..e])) && Remaining(r.1) == s[e..]
  {
    FillFront(c);
    PopRunIsRun(c, WordChars);
  }

  /** A digit or `-` starts a numeric run: the longest run of digits, dots,
      dashes, letters and underscores, classified by NumericKind. */
  lemma LexStepNumber(c: Cursor)
    requires LinesNonEmpty(c.lines) && Remaining(c) != []
    requires IsNumeric(Remaining(c)[0]) || Remaining(c)[0] == '-'
    ensures var s := Remaining(c); var e := RunEnd(s, 1, NumericRunChars); var st := LexStep(c);
      st.Emit? && st.answer == Ok(NewToken(NumericKind(s[..e]), s[..e])) && Remaining(st.next) == s[e..]
  {
    FillFront(c);
    StepIsNumber(c);
    LexNumberMeaning(c);
  }

  lemma StepIsNumber(c: Cursor)
    requires LinesNonEmpty(c.lines) && Fill(c).buffer != []
    requires IsNumeric(Fill(c).buffer[0]) || Fill(c).buffer[0] == '-'
    ensures LexStep(c) == Emit(LexNumber(c).0, LexNumber(c).1)
  {
  }

  lemma LexNumberMeaning(c: Cursor)
    requires LinesNonEmpty(c.lines) && Remaining(c) != []
    ensures var s := Remaining(c); var e := RunEnd(s, 1, NumericRunChars); var r := LexNumber(c);
      r.0 == Ok(NewToken(NumericKind(s[..e]), s[..e])) && Remaining(r.1) == s[e..]
  {
    FillFront(c);
    PopRunIsRun(c, NumericRunChars);
  }

  /** A quote starts a string, which succeeds exactly when the rest of the
      queued line holds a closing quote; the value is what lies between the
      two quotes, and the queue resumes after the closing one. */
  lemma LexStepString(c: Cursor)
    requires LinesNonEmpty(c.lines) && Remaining(c) != [] && Remaining(c)[0] == '"'
    ensures var f := Fill(c); var rest := f.buffer[1..]; var st := LexStep(c); var r := st.answer;
      st.Emit? &&
      (r.Ok? <==> '"' in rest) &&
      (r.Ok? ==> var v := r.value.value;
        r.value.kind == String && '"' !in v && |v| < |rest| &&
        rest[..|v|] == v && rest[|v|] == '"' && st.next == Cursor(rest[|v| + 1..], f.lines)) &&
      (r.Err? ==> r.error == UnterminatedString)
  {
    FillFront(c);
    StepIsString(c);
    StringAfterQuoteMeaning(Pop(c));
  }

  lemma StepIsString(c: Cursor)
    requires LinesNonEmpty(c.lines) && Fill(c).buffer != [] && Fill(c).buffer[0] == '"'
    ensures LexStep(c) == Emit(LexString(c).0, LexString(c).1)
  {
  }

  /** The string read from the queue once the opening quote is gone. */
  lemma StringAfterQuoteMeaning(p: Cursor)
    requires LinesNonEmpty(p.lines)
    ensures var line := p.buffer; var r := StringAfterQuote(p);
      (r.0.Ok? <==> '"' in line) &&
      (r.0.Ok? ==> var v := r.0.value.value;
        r.0.value.kind == String && '"' !in v && |v| < |line| &&
        line[..|v|] == v && line[|v|] == '"' && r.1 == Cursor(line[|v| + 1..], p.lines)) &&
      (r.0.Err? ==> r.0.error == UnterminatedString)
  {
    var line := p.buffer;
    var q := RunEnd(line, 0, NotQuote);
    if q < |line| {
      assert line[q] == '"';
      assert forall k :: 0 <= k < q ==> line[..q][k] != '"';
    } else {
      assert forall k :: 0 <= k < |line| ==> line[k] != '"';
    }
  }

  /** Whitespace is skipped up to the next non-space character, then lexing
      starts over. */
  lemma LexStepSpaces(c: Cursor)
    requires LinesNonEmpty(c.lines) && Remaining(c) != [] && IsWhitespace(Remaining(c)[0])
    ensures var s := Remaining(c); var st := LexStep(c);
      st.Skip? && Remaining(st.next) == s[RunEnd(s, 1, Spaces)..]
  {
    FillFront(c);
    StepIsSkip(c);
    SkipRunMeaning(c, Spaces);
  }

  /** A `#` comment is skipped up to, not including, the next line feed, then
      lexing starts over. */
  lemma LexStepComment(c: Cursor)
    requires LinesNonEmpty(c.lines) && Remaining(c) != [] && Remaining(c)[0] == '#'
    ensures var s := Remaining(c); var st := LexStep(c);
      st.Skip? && Remaining(st.next) == s[RunEnd(s, 1, NotNewline)..]
  {
    FillFront(c);
    StepIsSkip(c);
    SkipRunMeaning(c, NotNewline);
  }

  lemma StepIsSkip(c: Cursor)
    requires LinesNonEmpty(c.lines) && Fill(c).buffer != []
    ensures IsWhitespace(Fill(c).buffer[0]) ==> LexStep(c) == Skip(SkipRun(c, Spaces))
    ensures Fill(c).buffer[0] == '#' ==> LexStep(c) == Skip(SkipRun(c, NotNewline))
  {
  }

  lemma SkipRunMeaning(c: Cursor, cls: CharClass)
    requires LinesNonEmpty(c.lines) && Remaining(c) != []
    ensures var s := Remaining(c); Remaining(SkipRun(c, cls)) == s[RunEnd(s, 1, cls)..]
  {
    PopRunIsRun(c, cls);
  }

  /** Any other character is an undefined token, and it is consumed. */
  lemma LexStepUndefined(c: Cursor)
    requires LinesNonEmpty(c.lines) && Remaining(c) != []
    requires var ch := Remaining(c)[0];
      !IsSymbol(ch) && !IsCharIdentifier(ch) && !IsNumeric(ch) && ch != '-' && ch != '"' &&
      !IsWhitespace(ch) && ch != '#'
    ensures var s := Remaining(c); var st := LexStep(c);
      st.Emit? && st.answer == Ok(UndefinedToken(s[0])) && Remaining(st.next) == s[1..]
  {
    FillFront(c);
  }

  /** The answers of successive `advance` calls from `c`: the `k`-th one, or
      the failure that ended the run before it. */
  function LazyPull(c: Cursor, k: nat): Result<Token, LexError>
    requires LinesNonEmpty(c.lines)
    decreases k
  {
    var (r, d) := LazyLex(c);
    if k == 0 || r.Err? then r else LazyPull(d, k - 1)
  }

  /** The token stream the parser pulls from a lazy lexer in state `c`. An
      undefined character is an ordinary token here, since it is consumed;
      only the end of input and a failure end the stream. */
  function LazyTokenize(c: Cursor): (ts: TokenStream)
    requires LinesNonEmpty(c.lines)
    ensures At(ts, 0) == LazyLex(c).0
    decreases |Remaining(c)|
  {
    var (r, d) := LazyLex(c);
    if r.Err? || r.value.kind == EOF then Ended(r) else Cons(r.value, LazyTokenize(d))
  }

  /** Once the input is exhausted, every further call answers EOF. */
  lemma {:induction false} LazyPullAtEnd(k: nat)
    ensures LazyPull(Cursor([], []), k) == Ok(EofToken())
    decreases k
  {
    if k > 0 {
      LazyPullAtEnd(k - 1);
    }
  }

  /** The `k`-th pull from `c` is the `k`-th answer of the stream from `c`. */
  predicate PullAgrees(c: Cursor, k: nat)
    requires LinesNonEmpty(c.lines)
  {
    LazyPull(c, k) == At(LazyTokenize(c), k)
  }

  /** Pulling tokens one call at a time gives exactly the stream LazyTokenize. */
  lemma {:induction false} LazyTokenizeAgreesWithPulls(c: Cursor, k: nat)
    requires LinesNonEmpty(c.lines)
    ensures PullAgrees(c, k)
    decreases |Remaining(c)|
  {
    if k > 0 && Continues(c) {
      LazyTokenizeAgreesWithPulls(LazyLex(c).1, k - 1);
      AgreeLater(c, k);
    } else {
      AgreeNow(c, k);
    }
  }

  /** The symbol tokens the lazy lexer answers carry their own character. */
  lemma {:induction false} LazyLexCanonical(c: Cursor)
    requires LinesNonEmpty(c.lines)
    ensures LazyLex(c).0.Ok? ==> CanonicalToken(LazyLex(c).0.value)
    decreases |Remaining(c)|
  {
    match LexStep(c)
    case Emit(r, d) =>
    case Skip(d) => LazyLexCanonical(d);
  }

  /** Every symbol token of the lazy stream carries its own character. */
  lemma {:induction false} LazyTokenizeCanonical(c: Cursor)
    requires LinesNonEmpty(c.lines)
    ensures Canonical(LazyTokenize(c))
    decreases |Remaining(c)|
  {
    var (r, d) := LazyLex(c);
    if !(r.Err? || r.value.kind == EOF) {
      LazyLexCanonical(c);
      LazyTokenizeCanonical(d);
      assert LazyTokenize(c).tokens == [r.value] + LazyTokenize(d).tokens;
    }
  }

  /** The first answer from `c` is a proper token, so pulling goes on. */
  predicate Continues(c: Cursor)
    requires LinesNonEmpty(c.lines)
  {
    LazyLex(c).0.Ok? && LazyLex(c).0.value.kind != EOF
  }

  lemma AgreeNow(c: Cursor, k: nat)
    requires LinesNonEmpty(c.lines) && (k == 0 || !Continues(c))
    ensures PullAgrees(c, k)
  {
    if !Continues(c) {
      AgreeAtEnd(c, k);
    } else {
      AgreeFirst(c);
    }
  }

  lemma AgreeAtEnd(c: Cursor, k: nat)
    requires LinesNonEmpty(c.lines) && !Continues(c)
    ensures LazyPull(c, k) == At(LazyTokenize(c), k)
  {
    var (r, d) := LazyLex(c);
    assert LazyTokenize(c) == Ended(r);
    if r.Ok? && k > 0 {
      assert LazyPull(c, k) == LazyPull(Cursor([], []), k - 1);
      LazyPullAtEnd(k - 1);
    }
  }

  lemma AgreeFirst(c: Cursor)
    requires LinesNonEmpty(c.lines)
    ensures LazyPull(c, 0) == At(LazyTokenize(c), 0)
  {
  }

  lemma AgreeLater(c: Cursor, k: nat)
    requires LinesNonEmpty(c.lines) && k > 0 && Continues(c)
    requires PullAgrees(LazyLex(c).1, k - 1)
    ensures PullAgrees(c, k)
  {
    var (r, d) := LazyLex(c);
    assert LazyTokenize(c) == Cons(r.value, LazyTokenize(d));
    assert LazyPull(c, k) == LazyPull(d, k - 1);
  }

  /** The lexer object of `src/lazylexer.rs`. */
  class Lexer {
    var buffer: seq<char>
    var lines: seq<seq<char>>

    ghost predicate Valid()
      reads this
    {
      LinesNonEmpty(lines)
    }

    function State(): Cursor
      reads this
    {
      Cursor(buffer, lines)
    }

    constructor (lines: seq<seq<char>>)
      requires LinesNonEmpty(lines)
      ensures Valid() && State() == Cursor([], lines)
    {
      buffer := [];
      this.lines := lines;
    }

    /** `read_line`: the next line, or nothing once the input is exhausted. */
    method ReadLine() returns (line: seq<char>)
      requires Valid()
      modifies this
      ensures Valid() && buffer == old(buffer)
      ensures old(lines) == [] ==> line == [] && lines == []
      ensures old(lines) != [] ==> line == old(lines)[0] && lines == old(lines)[1..]
    {
      if lines == [] {
        line := [];
      } else {
        line := lines[0];
        lines := lines[1..];
      }
    }

    method FillBuffer()
      requires Valid()
      modifies this
      ensures Valid() && State() == Fill(old(State()))
    {
      if buffer == [] {
        var line := ReadLine();
        if |line| > 0 {
          buffer := buffer + line;
        }
      }
    }

    method GetCurrentChar() returns (c: Option<char>)
      requires Valid()
      modifies this
      ensures Valid() && State() == Fill(old(State()))
      ensures c.None? <==> buffer == []
      ensures c.Some? ==> c.value == buffer[0]
    {
      FillBuffer();
      if buffer == [] {
        c := None;
      } else {
        c := Some(buffer[0]);
      }
    }

    /** `pop_front` on a queue known to hold a character. */
    method PopFront() returns (ch: char)
      requires Valid() && buffer != []
      modifies this
      ensures Valid() && lines == old(lines)
      ensures ch == old(buffer)[0] && buffer == old(buffer)[1..]
    {
      ch := buffer[0];
      buffer := buffer[1..];
    }

    method Advance() returns (r: Result<Token, LexError>)
      requires Valid()
      modifies this
      ensures Valid() && (r, State()) == LazyLex(old(State()))
      decreases |Remaining(State())|
    {
      ghost var c := State();
      FillBuffer();
      if buffer == [] {
        return Ok(EofToken());
      }
      var current := PopFront();
      assert State() == Pop(c);
      if IsSymbol(current) {
        return Ok(NewToken(SymbolKind(current), [current]));
      } else if IsCharIdentifier(current) {
        var t := ConsumeIdentifier(current);
        return Ok(t);
      } else if IsNumeric(current) || current == '-' {
        var t := ConsumeNumeric(current);
        return Ok(t);
      } else if current == '"' {
        r := ConsumeString();
        return;
      } else if IsWhitespace(current) {
        SkipSpaces();
        r := Advance();
        return;
      } else if current == '#' {
        SkipComment();
        r := Advance();
        return;
      }
      return Ok(UndefinedToken(current));
    }

    method ConsumeIdentifier(first: char) returns (t: Token)
      requires Valid()
      modifies this
      ensures Valid()
      ensures var run := ScanRun(old(State()), WordChars);
        t == NewToken(Identifier, [first] + run.0) && State() == run.1
    {
      var buf := [first];
      ghost var target := ScanRun(State(), WordChars);
      ghost var before := State();
      while true
        invariant Valid()
        invariant buf + ScanRun(State(), WordChars).0 == [first] + target.0
        invariant ScanRun(State(), WordChars).1 == target.1
        decreases |Remaining(State())|
      {
        before := State();
        var current := GetCurrentChar();
        if current.None? || !IsCharIdentifier(current.value) {
          break;
        }
        ScanRunStep(before, WordChars);
        var ch := PopFront();
        ghost var after := ScanRun(State(), WordChars);
        assert (buf + [ch]) + after.0 == buf + ([ch] + after.0);
        buf := buf + [ch];
      }
      ScanRunStops(before, WordChars);
      assert buf + [] == buf;
      t := NewToken(Identifier, buf);
    }

    method ConsumeNumeric(first: char) returns (t: Token)
      requires Valid() && (IsNumeric(first) || first == '-')
      modifies this
      ensures Valid()
      ensures var run := ScanRun(old(State()), NumericRunChars);
        t == NewToken(NumericKind([first] + run.0), [first] + run.0) && State() == run.1
    {
      var buf := [first];
      var isFloat := false;
      var isIdentifier := false;
      var isNegative := false;
      ghost var target := ScanRun(State(), NumericRunChars);
      ghost var before := State();
      while true
        invariant Valid()
        invariant buf + ScanRun(State(), NumericRunChars).0 == [first] + target.0
        invariant ScanRun(State(), NumericRunChars).1 == target.1
        invariant FoldFlags(NumericFlags(isFloat, isIdentifier, isNegative), ScanRun(State(), NumericRunChars).0)
          == FoldFlags(NumericFlags(false, false, false), target.0)
        decreases |Remaining(State())|
      {
        before := State();
        ghost var flags := NumericFlags(isFloat, isIdentifier, isNegative);
        var current := GetCurrentChar();
        if current.None? {
          break;
        }
        var ch := current.value;
        var stop, f, i, n := NumericBranch(ch, isFloat, isIdentifier, isNegative);
        if stop {
          break;
        }
        isFloat, isIdentifier, isNegative := f, i, n;
        ScanRunStep(before, NumericRunChars);
        var popped := PopFront();
        ghost var after := ScanRun(State(), NumericRunChars);
        assert (buf + [ch]) + after.0 == buf + ([ch] + after.0);
        FoldFlagsStep(flags, ch, after.0);
        buf := buf + [popped];
      }
      ScanRunStops(before, NumericRunChars);
      assert buf + [] == buf;
      assert NumericFlags(isFloat, isIdentifier, isNegative) == FlagsOf(target.0) by {
        FoldFlagsOf(target.0);
      }
      NumericKindOfFlags(first, target.0);
      if isIdentifier {
        t := NewToken(Identifier, buf);
      } else if isFloat {
        t := NewToken(Float, buf);
      } else {
        t := NewToken(Integer, buf);
      }
    }

    /** The branch chain of one `consume_numeric` iteration: `stop` when
        `ch` ends the run, otherwise the updated flags. */
    static method NumericBranch(ch: char, isFloat: bool, isIdentifier: bool, isNegative: bool)
      returns (stop: bool, isFloat': bool, isIdentifier': bool, isNegative': bool)
      ensures stop <==> !IsNumericRunChar(ch)
      ensures !stop ==>
        NumericFlags(isFloat', isIdentifier', isNegative') == NumericStep(NumericFlags(isFloat, isIdentifier, isNegative), ch)
    {
      stop, isFloat', isIdentifier', isNegative' := false, isFloat, isIdentifier, isNegative;
      if ch == '-' {
        if !isNegative {
          isNegative' := true;
        } else {
          isIdentifier' := true;
        }
      } else if ch == '.' {
        if isFloat {
          if !isIdentifier {
            isIdentifier' := true;
          }
        } else {
          isFloat' := true;
        }
      } else if IsCharIdentifier(ch) {
        isIdentifier' := true;
      } else if !IsNumeric(ch) {
        stop := true;
      }
    }

    method ConsumeString() returns (r: Result<Token, LexError>)
      requires Valid()
      modifies this
      ensures Valid() && (r, State()) == StringAfterQuote(old(State()))
    {
      var buf: string := [];
      var isValidString := false;
      ghost var line := buffer;
      ghost var k: nat := 0;
      while buffer != []
        invariant k <= |line| && buffer == line[k..] && lines == old(lines)
        invariant buf == line[..k]
        invariant forall i :: 0 <= i < k ==> IsNotQuote(line[i])
        decreases |buffer|
      {
        var current := buffer[0];
        buffer := buffer[1..];
        if current == '"' {
          isValidString := true;
          break;
        }
        buf := buf + [current];
        k := k + 1;
      }
      RunEndUnique(line, 0, NotQuote, k);
      if isValidString {
        r := Ok(NewToken(String, buf));
      } else {
        r := Err(UnterminatedString);
      }
    }

    /** Drops everything up to, not including, the next line feed. */
    method SkipComment()
      requires Valid()
      modifies this
      ensures Valid() && State() == ScanRun(old(State()), NotNewline).1
    {
      ghost var target := ScanRun(State(), NotNewline);
      while true
        invariant Valid() && ScanRun(State(), NotNewline).1 == target.1
        decreases |Remaining(State())|
      {
        ghost var before := State();
        var current := GetCurrentChar();
        if current.None? || current.value == '\n' {
          break;
        }
        var _ := PopFront();
        assert ScanRun(before, NotNewline).1 == ScanRun(State(), NotNewline).1;
      }
    }

    /** Drops whitespace up to the next other character, which it leaves. */
    method SkipSpaces()
      requires Valid()
      modifies this
      ensures Valid() && State() == ScanRun(old(State()), Spaces).1
    {
      ghost var target := ScanRun(State(), Spaces);
      while true
        invariant Valid() && ScanRun(State(), Spaces).1 == target.1
        decreases |Remaining(State())|
      {
        ghost var before := State();
        var current := GetCurrentChar();
        if current.None? || !IsWhitespace(current.value) {
          break;
        }
        var _ := PopFront();
        assert ScanRun(before, Spaces).1 == ScanRun(State(), Spaces).1;
      }
    }
  }

  /** The three flags of `consume_numeric`. */
  datatype NumericFlags = NumericFlags(isFloat: bool, isIdentifier: bool, isNegative: bool)

  /** How `consume_numeric` updates its flags for one more run character. */
  function NumericStep(f: NumericFlags, ch: char): NumericFlags
  {
    if ch == '-' then (if !f.isNegative then f.(isNegative := true) else f.(isIdentifier := true))
    else if ch == '.' then (if f.isFloat then f.(isIdentifier := true) else f.(isFloat := true))
    else if IsCharIdentifier(ch) then f.(isIdentifier := true)
    else f
  }

  /** The flags after the characters `w` that follow the first one, as the
      loop computes them: from the left. */
  function FoldFlags(f: NumericFlags, w: seq<char>): NumericFlags
    decreases |w|
  {
    if w == [] then f else FoldFlags(NumericStep(f, w[0]), w[1..])
  }

  /** The same flags defined from the right, so that one more character is
      one more step. */
  function FlagsOf(w: seq<char>): NumericFlags
  {
    if w == [] then NumericFlags(false, false, false)
    else NumericStep(FlagsOf(w[..|w| - 1]), w[|w| - 1])
  }

  lemma FoldFlagsStep(f: NumericFlags, ch: char, w: seq<char>)
    ensures FoldFlags(f, [ch] + w) == FoldFlags(NumericStep(f, ch), w)
  {
    assert ([ch] + w)[1..] == w;
  }

  /** Folding from the flags of `u` over `v` gives the flags of `u + v`. */
  lemma {:induction false} FoldFlagsFrom(u: seq<char>, v: seq<char>)
    ensures FoldFlags(FlagsOf(u), v) == FlagsOf(u + v)
    decreases |v|
  {
    if v != [] {
      var u' := u + [v[0]];
      assert u'[..|u'| - 1] == u;
      assert FlagsOf(u') == NumericStep(FlagsOf(u), v[0]);
      FoldFlagsFrom(u', v[1..]);
      assert u' + v[1..] == u + v;
    } else {
      assert u + v == u;
    }
  }

  lemma FoldFlagsOf(w: seq<char>)
    ensures FoldFlags(NumericFlags(false, false, false), w) == FlagsOf(w)
  {
    FoldFlagsFrom([], w);
    assert [] + w == w;
  }

  lemma HasIdentCharAppend(w: seq<char>, x: char)
    ensures HasIdentChar(w + [x]) <==> HasIdentChar(w) || IsCharIdentifier(x)
  {
    if IsCharIdentifier(x) {
      assert (w + [x])[|w|] == x;
    }
    if HasIdentChar(w) {
      var i :| 0 <= i < |w| && IsCharIdentifier(w[i]);
      assert (w + [x])[i] == w[i];
    }
  }

  /** The flags count what they are named after: a dot, a `-`, and an
      identifier character, a second dot or a second `-`. */
  lemma {:induction false} FlagsMeaning(w: seq<char>)
    ensures FlagsOf(w).isFloat <==> Count('.', w) >= 1
    ensures FlagsOf(w).isNegative <==> Count('-', w) >= 1
    ensures FlagsOf(w).isIdentifier <==> HasIdentChar(w) || Count('.', w) >= 2 || Count('-', w) >= 2
  {
    if w != [] {
      var v := w[..|w| - 1];
      var x := w[|w| - 1];
      FlagsMeaning(v);
      assert w == v + [x];
      CountAppend('.', v, x);
      CountAppend('-', v, x);
      HasIdentCharAppend(v, x);
    }
  }

  /** The flags `consume_numeric` ends with decide the kind of the run as
      NumericKind does. */
  lemma NumericKindOfFlags(first: char, w: seq<char>)
    requires IsNumeric(first) || first == '-'
    ensures var f := FlagsOf(w);
      NumericKind([first] + w) ==
        if f.isIdentifier then Identifier else if f.isFloat then Float else Integer
  {
    FlagsMeaning(w);
    NumericKindOfRun(first, w);
  }

  /** The counts over the characters after the first one give the kind of
      the whole run. */
  lemma NumericKindOfRun(first: char, w: seq<char>)
    requires IsNumeric(first) || first == '-'
    ensures var run := [first] + w;
      NumericKind(run) ==
        if HasIdentChar(w) || Count('.', w) >= 2 || Count('-', w) >= 2 then Identifier
        else if Count('.', w) >= 1 then Float
        else Integer
  {
    var run := [first] + w;
    assert run[1..] == w;
    CountPrepend('.', first, w);
    CountPositive('.', w);
    assert '.' in run <==> '.' in w;
    if HasIdentChar(run) {
      var i :| 0 <= i < |run| && IsCharIdentifier(run[i]);
      assert i > 0 && w[i - 1] == run[i];
    }
    if HasIdentChar(w) {
      var i :| 0 <= i < |w| && IsCharIdentifier(w[i]);
      assert run[i + 1] == w[i];
    }
  }
}
