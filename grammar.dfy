/** The grammar both parsers implement, as functions over the token stream
    their lexer produces: `parse_program`, `parse_expr` and its table loop.
    A position `i` counts the `advance` calls made so far, so the token a
    call returns is `At(ts, i)`; every result carries the position reached. */
module Grammar {
  import opened Wrappers
  import opened Tokens
  import opened Ast
  import opened Streams

  /** Why a parse stops. The source reports these as messages or panics. */
  datatype ParseError =
    | LexFailure(error: LexError)          // the lexer panicked (unterminated string)
    | NotAnAssignment                      // the program does not start with `identifier =`
    | UnexpectedToken(token: Token)        // a token that cannot stand where it stands
    | UnexpectedEndOfFile                  // end of input where a table element should start
    | UndefinedInTable(token: Token)       // an undefined character where an element should start

  /** Every element of `els` has the shape the grammar guarantees. */
  predicate AllWellTyped(els: seq<TableElement>)
  {
    forall k :: 0 <= k < |els| ==> ElementWellTyped(els[k])
  }

  /** `parse_expr`: a unit token stands for itself, `{` opens a table, and
      anything else is an error. */
  function ParseExpr(ts: TokenStream, i: nat): (r: Result<(Expression, nat), ParseError>)
    ensures r.Ok? ==> i < r.value.1 <= |ts.tokens|
    decreases |ts.tokens| - i, 1
  {
    match At(ts, i)
    case Err(e) => Err(LexFailure(e))
    case Ok(t) =>
      if IsUnit(t) then Ok((Unit(t), i + 1))
      else if t.kind == LBrace then
        match ParseTable(ts, i + 1, [])
        case Err(e) => Err(e)
        case Ok((els, j)) => Ok((Expression.Table(Table.Table(els)), j))
      else Err(UnexpectedToken(t))
  }

  /** The table loop of `parse_expr`, from position `i` with the elements
      `acc` collected so far: one token of lookahead decides between
      `key = value`, a pair of bare units, and a last unit before `}`. */
  function ParseTable(ts: TokenStream, i: nat, acc: seq<TableElement>): (r: Result<(seq<TableElement>, nat), ParseError>)
    requires i <= |ts.tokens|
    ensures r.Ok? ==> i < r.value.1 <= |ts.tokens| && acc <= r.value.0
    decreases |ts.tokens| - i, 0
  {
    match At(ts, i)
    case Err(e) => Err(LexFailure(e))
    case Ok(cur) =>
      if cur.kind == RBrace then Ok((acc, i + 1))
      else if IsUnit(cur) then
        match At(ts, i + 1)
        case Err(e) => Err(LexFailure(e))
        case Ok(next) =>
          if next.kind == Equal && IsKey(cur) then
            match ParseExpr(ts, i + 2)
            case Err(e) => Err(e)
            case Ok((v, j)) => ParseTable(ts, j, acc + [KeyValueElement(KeyValue(cur, v))])
          else if IsUnit(next) then ParseTable(ts, i + 2, acc + [ArrayElement(cur), ArrayElement(next)])
          else if next.kind == RBrace then Ok((acc + [ArrayElement(cur)], i + 2))
          else Err(UnexpectedToken(next))
      else if cur.kind == EOF then Err(UnexpectedEndOfFile)
      else if cur.kind == TokenType.Undefined then Err(UndefinedInTable(cur))
      else Err(UnexpectedToken(cur))
  }

  /** `parse_program`: an identifier, `=`, then the value expression. */
  function ParseProgram(ts: TokenStream, i: nat): (r: Result<Statement, ParseError>)
    ensures r.Ok? ==>
      var a := r.value.assignment;
      i + 2 <= |ts.tokens| && ts.tokens[i] == a.identifier && a.identifier.kind == Identifier &&
      ts.tokens[i + 1].kind == Equal
    ensures r.Ok? ==> ParseExpr(ts, i + 2).Ok? && ParseExpr(ts, i + 2).value.0 == r.value.assignment.value
  {
    match At(ts, i)
    case Err(e) => Err(LexFailure(e))
    case Ok(first) =>
      if first.kind != Identifier then Err(NotAnAssignment)
      else
        match At(ts, i + 1)
        case Err(e) => Err(LexFailure(e))
        case Ok(second) =>
          if second.kind != Equal then Err(NotAnAssignment)
          else
            match ParseExpr(ts, i + 2)
            case Err(e) => Err(e)
            case Ok((v, _)) => Ok(Assignment(AssignmentStatement(first, v)))
  }

  // One turn of the table loop, by the token that starts it; a loop that
  // takes these turns computes `ParseTable`.

  /** The error a turn of the table loop stops with when `first` starts it. */
  predicate FirstFails(first: Result<Token, LexError>, e: ParseError)
  {
    if first.Err? then e == LexFailure(first.error)
    else
      var t := first.value;
      (t.kind == EOF && e == UnexpectedEndOfFile) ||
      (t.kind == TokenType.Undefined && e == UndefinedInTable(t)) ||
      ((t.kind == Equal || t.kind == LBrace) && e == UnexpectedToken(t))
  }

  /** The error a turn stops with when `next` follows the unit `cur`. */
  predicate NextFails(cur: Token, next: Result<Token, LexError>, e: ParseError)
  {
    if next.Err? then e == LexFailure(next.error)
    else
      var t := next.value;
      !IsUnit(t) && t.kind != RBrace && !(t.kind == Equal && IsKey(cur)) && e == UnexpectedToken(t)
  }

  /** `parse_expr` on an opening brace is `parse_table` from the next token,
      with the elements read wrapped into a table expression. */
  lemma ExprOpens(ts: TokenStream, i: nat)
    requires At(ts, i).Ok? && At(ts, i).value.kind == LBrace
    ensures i < |ts.tokens|
    ensures ParseTable(ts, i + 1, []).Err? ==> ParseExpr(ts, i) == Err(ParseTable(ts, i + 1, []).error)
    ensures ParseTable(ts, i + 1, []).Ok? ==>
      ParseExpr(ts, i) == Ok((Expression.Table(Table.Table(ParseTable(ts, i + 1, []).value.0)), ParseTable(ts, i + 1, []).value.1))
  {
  }

  lemma TurnFails(ts: TokenStream, i: nat, acc: seq<TableElement>, err: ParseError)
    requires i <= |ts.tokens| && FirstFails(At(ts, i), err)
    ensures ParseTable(ts, i, acc) == Err(err)
  {
  }

  lemma TurnFailsAfterUnit(ts: TokenStream, i: nat, acc: seq<TableElement>, err: ParseError)
    requires i < |ts.tokens| && IsUnit(ts.tokens[i]) && NextFails(ts.tokens[i], At(ts, i + 1), err)
    ensures ParseTable(ts, i, acc) == Err(err)
  {
  }

  lemma TurnKeyValue(ts: TokenStream, i: nat, acc: seq<TableElement>)
    requires i + 1 < |ts.tokens| && IsKey(ts.tokens[i]) && ts.tokens[i + 1].kind == Equal
    ensures ParseExpr(ts, i + 2).Err? ==> ParseTable(ts, i, acc) == Err(ParseExpr(ts, i + 2).error)
    ensures ParseExpr(ts, i + 2).Ok? ==>
      ParseTable(ts, i, acc) ==
      ParseTable(ts, ParseExpr(ts, i + 2).value.1, acc + [KeyValueElement(KeyValue(ts.tokens[i], ParseExpr(ts, i + 2).value.0))])
  {
  }

  lemma TurnUnitPair(ts: TokenStream, i: nat, acc: seq<TableElement>)
    requires i + 1 < |ts.tokens| && IsUnit(ts.tokens[i]) && IsUnit(ts.tokens[i + 1])
    ensures ParseTable(ts, i, acc) == ParseTable(ts, i + 2, acc + [ArrayElement(ts.tokens[i]), ArrayElement(ts.tokens[i + 1])])
  {
  }

  // ---------------------------------------------------------------------
  // The shape of what the parser builds.

  /** A parsed expression has the shape of `WellTyped`: units are unit
      tokens and keys are identifiers or integers. */
  lemma {:induction false} ParsedWellTyped(ts: TokenStream, i: nat)
    requires ParseExpr(ts, i).Ok?
    ensures WellTyped(ParseExpr(ts, i).value.0)
    decreases |ts.tokens| - i, 1
  {
    var (e, j) := ParseExpr(ts, i).value;
    if e.Table? {
      assert TableReads(ts, i + 1, [], e.table.elements, j);
      TableWellTyped(ts, i + 1, [], e.table.elements, j);
    }
  }

  lemma {:induction false} TableWellTyped(ts: TokenStream, i: nat, acc: seq<TableElement>, els: seq<TableElement>, j: nat)
    requires TableReads(ts, i, acc, els, j) && AllWellTyped(acc)
    ensures AllWellTyped(els)
    decreases |ts.tokens| - i, 0
  {
    TableReadsShape(ts, i, acc, els, j);
    var cur := ts.tokens[i];
    if cur.kind == RBrace {
      TableClosesInv(ts, i, acc, els, j);
    } else if ts.tokens[i + 1].kind == Equal && IsKey(cur) {
      TableKeyValueInv(ts, i, acc, els, j);
      var (v, m) := ParseExpr(ts, i + 2).value;
      ParsedWellTyped(ts, i + 2);
      AllWellTypedAppend(acc, [KeyValueElement(KeyValue(cur, v))]);
      TableWellTyped(ts, m, acc + [KeyValueElement(KeyValue(cur, v))], els, j);
    } else if IsUnit(ts.tokens[i + 1]) {
      TableUnitPairInv(ts, i, acc, els, j);
      var pair := [ArrayElement(cur), ArrayElement(ts.tokens[i + 1])];
      AllWellTypedAppend(acc, pair);
      TableWellTyped(ts, i + 2, acc + pair, els, j);
    } else {
      TableLastUnitInv(ts, i, acc, els, j);
      AllWellTypedAppend(acc, [ArrayElement(cur)]);
    }
  }

  lemma AllWellTypedAppend(a: seq<TableElement>, b: seq<TableElement>)
    requires AllWellTyped(a) && forall k :: 0 <= k < |b| ==> ElementWellTyped(b[k])
    ensures AllWellTyped(a + b)
  {
    forall k | 0 <= k < |a + b|
      ensures ElementWellTyped((a + b)[k])
    {
      if k >= |a| {
        assert (a + b)[k] == b[k - |a|];
      }
    }
  }

  /** The value of a parsed assignment is well-typed too. */
  lemma ProgramWellTyped(ts: TokenStream, i: nat)
    requires ParseProgram(ts, i).Ok?
    ensures WellTyped(ParseProgram(ts, i).value.assignment.value)
  {
    ParsedWellTyped(ts, i + 2);
  }

  // ---------------------------------------------------------------------
  // The token text of a tree, and the round trip through the parser.

  /** The tokens a tree is written with: a unit is its token, a table is its
      elements between braces, a key/value element is `key = value`. */
  function Unparse(e: Expression): (w: seq<Token>)
    ensures |w| > 0
    decreases e
  {
    match e
    case Unit(t) => [t]
    case Table(tbl) => [LBraceToken] + UnparseElements(tbl, 0) + [RBraceToken]
  }

  /** The tokens of the elements of `tbl` from index `k` on. */
  function UnparseElements(tbl: Table, k: nat): seq<Token>
    requires k <= |tbl.elements|
    decreases tbl, |tbl.elements| - k
  {
    if k == |tbl.elements| then []
    else UnparseElement(tbl.elements[k]) + UnparseElements(tbl, k + 1)
  }

  function UnparseElement(el: TableElement): (w: seq<Token>)
    ensures |w| > 0
    decreases el
  {
    match el
    case ArrayElement(t) => [t]
    case KeyValueElement(kv) => [kv.key, EqualToken] + Unparse(kv.value)
  }

  /** The tokens of `ts` from position `i` on begin with `w`. */
  predicate TokensAt(ts: TokenStream, i: nat, w: seq<Token>)
    decreases |w|
  {
    |w| == 0 || (i < |ts.tokens| && ts.tokens[i] == w[0] && TokensAt(ts, i + 1, w[1..]))
  }

  lemma {:induction false} TokensAtSplit(ts: TokenStream, i: nat, a: seq<Token>, b: seq<Token>)
    requires TokensAt(ts, i, a + b)
    ensures TokensAt(ts, i, a) && TokensAt(ts, i + |a|, b)
    decreases |a|
  {
    if |a| == 0 {
      assert a + b == b;
    } else {
      assert (a + b)[0] == a[0] && (a + b)[1..] == a[1..] + b;
      TokensAtSplit(ts, i + 1, a[1..], b);
    }
  }

  lemma {:induction false} TokensAtIndex(ts: TokenStream, i: nat, w: seq<Token>, k: nat)
    requires TokensAt(ts, i, w) && k < |w|
    ensures i + k < |ts.tokens| && ts.tokens[i + k] == w[k]
    decreases k
  {
    if k > 0 {
      TokensAtIndex(ts, i + 1, w[1..], k - 1);
    }
  }

  /** The tokens of a table: `{`, then its elements, then `}`. */
  lemma TableAt(tbl: Table, ts: TokenStream, i: nat)
    requires TokensAt(ts, i, Unparse(Expression.Table(tbl)))
    ensures i < |ts.tokens| && ts.tokens[i] == LBraceToken
    ensures TokensAt(ts, i + 1, UnparseElements(tbl, 0) + [RBraceToken])
    ensures |Unparse(Expression.Table(tbl))| == |UnparseElements(tbl, 0)| + 2
  {
    var body := UnparseElements(tbl, 0);
    assert Unparse(Expression.Table(tbl)) == [LBraceToken] + (body + [RBraceToken]);
    TokensAtSplit(ts, i, [LBraceToken], body + [RBraceToken]);
    TokensAtIndex(ts, i, [LBraceToken], 0);
  }

  /** The tokens of the elements from `k` on: those of element `k`, then the rest. */
  lemma ElementsAt(tbl: Table, k: nat, ts: TokenStream, i: nat)
    requires k < |tbl.elements|
    requires TokensAt(ts, i, UnparseElements(tbl, k) + [RBraceToken])
    ensures TokensAt(ts, i, UnparseElement(tbl.elements[k]))
    ensures TokensAt(ts, i + |UnparseElement(tbl.elements[k])|, UnparseElements(tbl, k + 1) + [RBraceToken])
    ensures |UnparseElements(tbl, k)| == |UnparseElement(tbl.elements[k])| + |UnparseElements(tbl, k + 1)|
  {
    var first := UnparseElement(tbl.elements[k]);
    var tail := UnparseElements(tbl, k + 1) + [RBraceToken];
    assert UnparseElements(tbl, k) + [RBraceToken] == first + tail;
    TokensAtSplit(ts, i, first, tail);
  }

  /** The tokens of a key/value element: the key, `=`, then the value. */
  lemma KeyValueAt(kv: KeyValue, ts: TokenStream, i: nat)
    requires TokensAt(ts, i, UnparseElement(KeyValueElement(kv)))
    ensures i + 1 < |ts.tokens| && ts.tokens[i] == kv.key && ts.tokens[i + 1] == EqualToken
    ensures TokensAt(ts, i + 2, Unparse(kv.value))
    ensures |UnparseElement(KeyValueElement(kv))| == |Unparse(kv.value)| + 2
  {
    TokensAtSplit(ts, i, [kv.key, EqualToken], Unparse(kv.value));
    TokensAtIndex(ts, i, [kv.key, EqualToken], 0);
    TokensAtIndex(ts, i, [kv.key, EqualToken], 1);
  }

  /** `parse_expr` from position `i` gives the tree `e` and stops at `j`. */
  predicate ExprReads(ts: TokenStream, i: nat, e: Expression, j: nat)
  {
    ParseExpr(ts, i) == Ok((e, j))
  }

  /** The table loop from position `i` with elements `acc` gives the
      elements `els` and stops at `j`. */
  predicate TableReads(ts: TokenStream, i: nat, acc: seq<TableElement>, els: seq<TableElement>, j: nat)
  {
    i <= |ts.tokens| && ParseTable(ts, i, acc) == Ok((els, j))
  }

  /** Parsing the tokens of a well-typed tree whose every table holds one
      element kind gives the tree back and consumes exactly its tokens. */
  lemma {:induction false} ParseUnparse(e: Expression, ts: TokenStream, i: nat, j: nat)
    requires WellTyped(e) && Homogeneous(e)
    requires TokensAt(ts, i, Unparse(e)) && j == i + |Unparse(e)|
    ensures ExprReads(ts, i, e, j)
    decreases e, 2
  {
    match e
    case Unit(t) =>
      TokensAtIndex(ts, i, Unparse(e), 0);
      ExprUnit(ts, i);
    case Table(tbl) =>
      TableAt(tbl, ts, i);
      assert [] + tbl.elements[0..] == tbl.elements;
      ParseUnparseElements(tbl, 0, ts, i + 1, [], tbl.elements, j);
      ExprTable(ts, i, tbl.elements, j);
  }

  /** The table loop reads the elements of `tbl` from index `k` on, and the
      closing brace after them: it returns `els`, the elements collected
      before plus these, at the position `m` just past the brace. */
  lemma {:induction false} ParseUnparseElements(tbl: Table, k: nat, ts: TokenStream, i: nat,
                                                acc: seq<TableElement>, els: seq<TableElement>, m: nat)
    requires WellTyped(Expression.Table(tbl)) && Homogeneous(Expression.Table(tbl))
    requires k <= |tbl.elements|
    requires TokensAt(ts, i, UnparseElements(tbl, k) + [RBraceToken])
    requires els == acc + tbl.elements[k..] && m == i + |UnparseElements(tbl, k)| + 1
    ensures TableReads(ts, i, acc, els, m)
    decreases tbl, |tbl.elements| - k, 1
  {
    if k == |tbl.elements| {
      TokensAtIndex(ts, i, UnparseElements(tbl, k) + [RBraceToken], 0);
      assert els == acc;
      TableCloses(ts, i, acc);
    } else if tbl.elements[k].KeyValueElement? {
      ParseUnparseKeyValue(tbl, k, ts, i, acc, els, m);
    } else if k + 1 == |tbl.elements| {
      ParseUnparseLastUnit(tbl, k, ts, i, acc, els, m);
    } else {
      ParseUnparseUnitPair(tbl, k, ts, i, acc, els, m);
    }
  }

  lemma {:induction false} ParseUnparseKeyValue(tbl: Table, k: nat, ts: TokenStream, i: nat,
                                                acc: seq<TableElement>, els: seq<TableElement>, m: nat)
    requires WellTyped(Expression.Table(tbl)) && Homogeneous(Expression.Table(tbl))
    requires k < |tbl.elements| && tbl.elements[k].KeyValueElement?
    requires TokensAt(ts, i, UnparseElements(tbl, k) + [RBraceToken])
    requires els == acc + tbl.elements[k..] && m == i + |UnparseElements(tbl, k)| + 1
    ensures TableReads(ts, i, acc, els, m)
    decreases tbl, |tbl.elements| - k, 0
  {
    var kv := tbl.elements[k].keyValue;
    assert tbl.elements[k] == KeyValueElement(kv);
    assert ElementWellTyped(tbl.elements[k]) && ElementHomogeneous(tbl.elements[k]);
    ElementsAt(tbl, k, ts, i);
    KeyValueAt(kv, ts, i);
    var j := i + 2 + |Unparse(kv.value)|;
    ParseUnparse(kv.value, ts, i + 2, j);
    var next := acc + [tbl.elements[k]];
    AppendOne(acc, tbl.elements, k);
    ParseUnparseElements(tbl, k + 1, ts, j, next, els, m);
    TableKeyValue(ts, i, acc, kv.value, j, next, els, m);
  }

  lemma {:induction false} ParseUnparseLastUnit(tbl: Table, k: nat, ts: TokenStream, i: nat,
                                                acc: seq<TableElement>, els: seq<TableElement>, m: nat)
    requires WellTyped(Expression.Table(tbl))
    requires k + 1 == |tbl.elements| && tbl.elements[k].ArrayElement?
    requires TokensAt(ts, i, UnparseElements(tbl, k) + [RBraceToken])
    requires els == acc + tbl.elements[k..] && m == i + |UnparseElements(tbl, k)| + 1
    ensures TableReads(ts, i, acc, els, m)
  {
    assert ElementWellTyped(tbl.elements[k]);
    ElementsAt(tbl, k, ts, i);
    TokensAtIndex(ts, i, UnparseElement(tbl.elements[k]), 0);
    TokensAtIndex(ts, i + 1, UnparseElements(tbl, k + 1) + [RBraceToken], 0);
    assert els == acc + [tbl.elements[k]];
    TableLastUnit(ts, i, acc);
  }

  lemma {:induction false} ParseUnparseUnitPair(tbl: Table, k: nat, ts: TokenStream, i: nat,
                                                acc: seq<TableElement>, els: seq<TableElement>, m: nat)
    requires WellTyped(Expression.Table(tbl)) && Homogeneous(Expression.Table(tbl))
    requires k + 1 < |tbl.elements| && tbl.elements[k].ArrayElement?
    requires TokensAt(ts, i, UnparseElements(tbl, k) + [RBraceToken])
    requires els == acc + tbl.elements[k..] && m == i + |UnparseElements(tbl, k)| + 1
    ensures TableReads(ts, i, acc, els, m)
    decreases tbl, |tbl.elements| - k, 0
  {
    assert tbl.elements[k + 1].ArrayElement?;
    assert ElementWellTyped(tbl.elements[k]) && ElementWellTyped(tbl.elements[k + 1]);
    ElementsAt(tbl, k, ts, i);
    ElementsAt(tbl, k + 1, ts, i + 1);
    TokensAtIndex(ts, i, UnparseElement(tbl.elements[k]), 0);
    TokensAtIndex(ts, i + 1, UnparseElement(tbl.elements[k + 1]), 0);
    assert tbl.elements[k] == ArrayElement(ts.tokens[i]);
    assert tbl.elements[k + 1] == ArrayElement(ts.tokens[i + 1]);
    assert m == i + 2 + |UnparseElements(tbl, k + 2)| + 1;
    var next := acc + [tbl.elements[k], tbl.elements[k + 1]];
    AppendTwo(acc, tbl.elements, k);
    ParseUnparseElements(tbl, k + 2, ts, i + 2, next, els, m);
    TableUnitPair(ts, i, acc, next, els, m);
  }

  lemma AppendOne(acc: seq<TableElement>, els: seq<TableElement>, k: nat)
    requires k < |els|
    ensures acc + [els[k]] + els[k + 1..] == acc + els[k..]
  {
    assert els[k..] == [els[k]] + els[k + 1..];
  }

  lemma AppendTwo(acc: seq<TableElement>, els: seq<TableElement>, k: nat)
    requires k + 1 < |els|
    ensures acc + [els[k], els[k + 1]] + els[k + 2..] == acc + els[k..]
  {
    assert els[k..] == [els[k], els[k + 1]] + els[k + 2..];
  }

  // One step of `parse_expr` and of its table loop, for each lookahead case.

  lemma ExprUnit(ts: TokenStream, i: nat)
    requires i < |ts.tokens| && IsUnit(ts.tokens[i])
    ensures ExprReads(ts, i, Unit(ts.tokens[i]), i + 1)
  {
  }

  lemma ExprTable(ts: TokenStream, i: nat, els: seq<TableElement>, j: nat)
    requires i < |ts.tokens| && ts.tokens[i].kind == LBrace
    requires TableReads(ts, i + 1, [], els, j)
    ensures ExprReads(ts, i, Expression.Table(Table.Table(els)), j)
  {
  }

  lemma TableCloses(ts: TokenStream, i: nat, acc: seq<TableElement>)
    requires i < |ts.tokens| && ts.tokens[i].kind == RBrace
    ensures TableReads(ts, i, acc, acc, i + 1)
  {
  }

  lemma TableKeyValue(ts: TokenStream, i: nat, acc: seq<TableElement>, v: Expression, j: nat,
                      next: seq<TableElement>, els: seq<TableElement>, m: nat)
    requires i + 1 < |ts.tokens| && IsKey(ts.tokens[i]) && ts.tokens[i + 1].kind == Equal
    requires ExprReads(ts, i + 2, v, j)
    requires next == acc + [KeyValueElement(KeyValue(ts.tokens[i], v))]
    requires TableReads(ts, j, next, els, m)
    ensures TableReads(ts, i, acc, els, m)
  {
  }

  lemma TableUnitPair(ts: TokenStream, i: nat, acc: seq<TableElement>,
                      next: seq<TableElement>, els: seq<TableElement>, m: nat)
    requires i + 1 < |ts.tokens| && IsUnit(ts.tokens[i]) && IsUnit(ts.tokens[i + 1])
    requires next == acc + [ArrayElement(ts.tokens[i]), ArrayElement(ts.tokens[i + 1])]
    requires TableReads(ts, i + 2, next, els, m)
    ensures TableReads(ts, i, acc, els, m)
  {
  }

  lemma TableLastUnit(ts: TokenStream, i: nat, acc: seq<TableElement>)
    requires i + 1 < |ts.tokens| && IsUnit(ts.tokens[i]) && ts.tokens[i + 1].kind == RBrace
    ensures TableReads(ts, i, acc, acc + [ArrayElement(ts.tokens[i])], i + 2)
  {
  }

  /** A whole assignment round-trips: an identifier, `=`, then the tokens
      of a regular tree parse back to that assignment. */
  lemma ParseProgramUnparse(id: Token, e: Expression, ts: TokenStream, i: nat)
    requires id.kind == Identifier && WellTyped(e) && Homogeneous(e)
    requires TokensAt(ts, i, [id, EqualToken] + Unparse(e))
    ensures ParseProgram(ts, i) == Ok(Assignment(AssignmentStatement(id, e)))
  {
    TokensAtSplit(ts, i, [id, EqualToken], Unparse(e));
    TokensAtIndex(ts, i, [id, EqualToken], 0);
    TokensAtIndex(ts, i, [id, EqualToken], 1);
    ParseUnparse(e, ts, i + 2, i + 2 + |Unparse(e)|);
  }

  // ---------------------------------------------------------------------
  // The converse: whatever the parser accepts is exactly the token text of
  // the tree it returns, provided `=`, `{` and `}` tokens carry their own
  // character as text (`Canonical`; both lexers make them so, see
  // `EagerLexer.TokenizeCanonical` and `LazyLexer.LazyTokenizeCanonical`).

  lemma {:induction false} TokensAtJoin(ts: TokenStream, i: nat, a: seq<Token>, b: seq<Token>)
    requires TokensAt(ts, i, a) && TokensAt(ts, i + |a|, b)
    ensures TokensAt(ts, i, a + b)
    decreases |a|
  {
    if |a| == 0 {
      assert a + b == b;
    } else {
      assert (a + b)[0] == a[0] && (a + b)[1..] == a[1..] + b;
      TokensAtJoin(ts, i + 1, a[1..], b);
    }
  }

  lemma TokensAtSingle(ts: TokenStream, i: nat, t: Token)
    requires i < |ts.tokens| && ts.tokens[i] == t
    ensures TokensAt(ts, i, [t])
  {
    assert TokensAt(ts, i + 1, [t][1..]);
  }

  /** The tree `parse_expr` returns is written by exactly the tokens it consumed. */
  lemma {:induction false} ParseExact(ts: TokenStream, i: nat)
    requires Canonical(ts) && ParseExpr(ts, i).Ok?
    ensures TokensAt(ts, i, Unparse(ParseExpr(ts, i).value.0))
    ensures ParseExpr(ts, i).value.1 == i + |Unparse(ParseExpr(ts, i).value.0)|
    decreases |ts.tokens| - i, 1
  {
    var (e, j) := ParseExpr(ts, i).value;
    match e
    case Unit(t) =>
      TokensAtSingle(ts, i, t);
    case Table(tbl) =>
      assert ts.tokens[i] == LBraceToken by {
        assert CanonicalToken(ts.tokens[i]);
      }
      assert ParseTable(ts, i + 1, []) == Ok((tbl.elements, j));
      ParseTableExact(ts, i + 1, [], tbl.elements, j);
      assert tbl == Table.Table(tbl.elements);
      TokensAtSingle(ts, i, LBraceToken);
      TokensAtJoin(ts, i, [LBraceToken], UnparseElements(tbl, 0) + [RBraceToken]);
      assert [LBraceToken] + (UnparseElements(tbl, 0) + [RBraceToken]) == Unparse(e);
  }

  /** The table loop consumes exactly the tokens of the elements it adds,
      and the closing brace. */
  lemma {:induction false} ParseTableExact(ts: TokenStream, i: nat, acc: seq<TableElement>, els: seq<TableElement>, j: nat)
    requires Canonical(ts) && TableReads(ts, i, acc, els, j)
    ensures |acc| <= |els|
    ensures TokensAt(ts, i, UnparseElements(Table.Table(els), |acc|) + [RBraceToken])
    ensures j == i + |UnparseElements(Table.Table(els), |acc|)| + 1
    decreases |ts.tokens| - i, 2
  {
    TableReadsShape(ts, i, acc, els, j);
    var cur := ts.tokens[i];
    if cur.kind == RBrace {
      TableClosesInv(ts, i, acc, els, j);
      TokensAtSingle(ts, i, RBraceToken);
      assert UnparseElements(Table.Table(els), |acc|) + [RBraceToken] == [RBraceToken];
    } else if ts.tokens[i + 1].kind == Equal && IsKey(cur) {
      ParseTableExactKeyValue(ts, i, acc, els, j);
    } else if IsUnit(ts.tokens[i + 1]) {
      ParseTableExactUnitPair(ts, i, acc, els, j);
    } else {
      TableLastUnitInv(ts, i, acc, els, j);
      var tbl := Table.Table(els);
      assert UnparseElements(tbl, |acc|) + [RBraceToken] == [cur, RBraceToken];
      TokensAtSingle(ts, i + 1, RBraceToken);
      TokensAtSingle(ts, i, cur);
      TokensAtJoin(ts, i, [cur], [RBraceToken]);
    }
  }

  lemma {:induction false} ParseTableExactKeyValue(ts: TokenStream, i: nat, acc: seq<TableElement>, els: seq<TableElement>, j: nat)
    requires Canonical(ts) && TableReads(ts, i, acc, els, j)
    requires i + 1 < |ts.tokens| && IsKey(ts.tokens[i]) && ts.tokens[i + 1].kind == Equal
    ensures |acc| <= |els|
    ensures TokensAt(ts, i, UnparseElements(Table.Table(els), |acc|) + [RBraceToken])
    ensures j == i + |UnparseElements(Table.Table(els), |acc|)| + 1
    decreases |ts.tokens| - i, 1
  {
    var cur := ts.tokens[i];
    TableKeyValueInv(ts, i, acc, els, j);
    var (v, m) := ParseExpr(ts, i + 2).value;
    var acc' := acc + [KeyValueElement(KeyValue(cur, v))];
    ParseExact(ts, i + 2);
    ParseTableExact(ts, m, acc', els, j);
    PrefixAt(acc', els, |acc|);
    assert CanonicalToken(ts.tokens[i + 1]);
    KeyValueTokens(ts, i, cur, v, Table.Table(els), |acc|);
  }

  lemma {:induction false} ParseTableExactUnitPair(ts: TokenStream, i: nat, acc: seq<TableElement>, els: seq<TableElement>, j: nat)
    requires Canonical(ts) && TableReads(ts, i, acc, els, j)
    requires i + 1 < |ts.tokens| && IsUnit(ts.tokens[i]) && IsUnit(ts.tokens[i + 1])
    ensures |acc| <= |els|
    ensures TokensAt(ts, i, UnparseElements(Table.Table(els), |acc|) + [RBraceToken])
    ensures j == i + |UnparseElements(Table.Table(els), |acc|)| + 1
    decreases |ts.tokens| - i, 1
  {
    var acc' := acc + [ArrayElement(ts.tokens[i]), ArrayElement(ts.tokens[i + 1])];
    TableUnitPairInv(ts, i, acc, els, j);
    ParseTableExact(ts, i + 2, acc', els, j);
    PrefixAt(acc', els, |acc|);
    PrefixAt(acc', els, |acc| + 1);
    UnitPairTokens(ts, i, Table.Table(els), |acc|);
  }

  /** An accepted program is written by exactly the tokens it consumed: its
      identifier, `=`, then the tokens of its value. */
  lemma ProgramExact(ts: TokenStream, i: nat)
    requires Canonical(ts) && ParseProgram(ts, i).Ok?
    ensures var a := ParseProgram(ts, i).value.assignment;
      TokensAt(ts, i, [a.identifier, EqualToken] + Unparse(a.value))
  {
    var a := ParseProgram(ts, i).value.assignment;
    ParseExact(ts, i + 2);
    assert CanonicalToken(ts.tokens[i + 1]);
    TokensAtSingle(ts, i, a.identifier);
    TokensAtSingle(ts, i + 1, EqualToken);
    TokensAtJoin(ts, i, [a.identifier], [EqualToken]);
    assert [a.identifier] + [EqualToken] == [a.identifier, EqualToken];
    TokensAtJoin(ts, i, [a.identifier, EqualToken], Unparse(a.value));
  }

  lemma PrefixAt(a: seq<TableElement>, b: seq<TableElement>, k: nat)
    requires a <= b && k < |a|
    ensures b[k] == a[k]
  {
  }

  // What a successful table loop tells about the tokens it read.

  lemma TableReadsShape(ts: TokenStream, i: nat, acc: seq<TableElement>, els: seq<TableElement>, j: nat)
    requires TableReads(ts, i, acc, els, j)
    ensures i < |ts.tokens|
    ensures ts.tokens[i].kind == RBrace || (IsUnit(ts.tokens[i]) && i + 1 < |ts.tokens|)
    ensures ts.tokens[i].kind != RBrace ==>
      (ts.tokens[i + 1].kind == Equal && IsKey(ts.tokens[i])) || IsUnit(ts.tokens[i + 1]) ||
      ts.tokens[i + 1].kind == RBrace
  {
  }

  lemma TableClosesInv(ts: TokenStream, i: nat, acc: seq<TableElement>, els: seq<TableElement>, j: nat)
    requires TableReads(ts, i, acc, els, j) && i < |ts.tokens| && ts.tokens[i].kind == RBrace
    ensures els == acc && j == i + 1
  {
  }

  lemma TableKeyValueInv(ts: TokenStream, i: nat, acc: seq<TableElement>, els: seq<TableElement>, j: nat)
    requires TableReads(ts, i, acc, els, j)
    requires i + 1 < |ts.tokens| && IsKey(ts.tokens[i]) && ts.tokens[i + 1].kind == Equal
    ensures ParseExpr(ts, i + 2).Ok?
    ensures TableReads(ts, ParseExpr(ts, i + 2).value.1,
                       acc + [KeyValueElement(KeyValue(ts.tokens[i], ParseExpr(ts, i + 2).value.0))], els, j)
  {
  }

  lemma TableUnitPairInv(ts: TokenStream, i: nat, acc: seq<TableElement>, els: seq<TableElement>, j: nat)
    requires TableReads(ts, i, acc, els, j)
    requires i + 1 < |ts.tokens| && IsUnit(ts.tokens[i]) && IsUnit(ts.tokens[i + 1])
    ensures TableReads(ts, i + 2, acc + [ArrayElement(ts.tokens[i]), ArrayElement(ts.tokens[i + 1])], els, j)
  {
  }

  lemma TableLastUnitInv(ts: TokenStream, i: nat, acc: seq<TableElement>, els: seq<TableElement>, j: nat)
    requires TableReads(ts, i, acc, els, j)
    requires i + 1 < |ts.tokens| && IsUnit(ts.tokens[i]) && ts.tokens[i + 1].kind == RBrace
    ensures els == acc + [ArrayElement(ts.tokens[i])] && j == i + 2
  {
  }

  lemma KeyValueTokens(ts: TokenStream, i: nat, key: Token, v: Expression, tbl: Table, k: nat)
    requires k < |tbl.elements| && tbl.elements[k] == KeyValueElement(KeyValue(key, v))
    requires i + 1 < |ts.tokens| && ts.tokens[i] == key && ts.tokens[i + 1] == EqualToken
    requires TokensAt(ts, i + 2, Unparse(v))
    requires TokensAt(ts, i + 2 + |Unparse(v)|, UnparseElements(tbl, k + 1) + [RBraceToken])
    ensures TokensAt(ts, i, UnparseElements(tbl, k) + [RBraceToken])
    ensures |UnparseElements(tbl, k)| == 2 + |Unparse(v)| + |UnparseElements(tbl, k + 1)|
  {
    TokensAtSingle(ts, i + 1, EqualToken);
    TokensAtJoin(ts, i + 1, [EqualToken], Unparse(v));
    TokensAtSingle(ts, i, key);
    TokensAtJoin(ts, i, [key], [EqualToken] + Unparse(v));
    var first := [key] + ([EqualToken] + Unparse(v));
    TokensAtJoin(ts, i, first, UnparseElements(tbl, k + 1) + [RBraceToken]);
    assert first == UnparseElement(tbl.elements[k]);
    assert first + (UnparseElements(tbl, k + 1) + [RBraceToken]) == UnparseElements(tbl, k) + [RBraceToken];
  }

  lemma UnitPairTokens(ts: TokenStream, i: nat, tbl: Table, k: nat)
    requires k + 1 < |tbl.elements|
    requires i + 1 < |ts.tokens| && tbl.elements[k] == ArrayElement(ts.tokens[i]) &&
             tbl.elements[k + 1] == ArrayElement(ts.tokens[i + 1])
    requires TokensAt(ts, i + 2, UnparseElements(tbl, k + 2) + [RBraceToken])
    ensures TokensAt(ts, i, UnparseElements(tbl, k) + [RBraceToken])
    ensures |UnparseElements(tbl, k)| == 2 + |UnparseElements(tbl, k + 2)|
  {
    var a := ts.tokens[i];
    var b := ts.tokens[i + 1];
    TokensAtSingle(ts, i + 1, b);
    TokensAtJoin(ts, i + 1, [b], UnparseElements(tbl, k + 2) + [RBraceToken]);
    TokensAtSingle(ts, i, a);
    TokensAtJoin(ts, i, [a], [b] + (UnparseElements(tbl, k + 2) + [RBraceToken]));
    assert UnparseElements(tbl, k + 1) == [b] + UnparseElements(tbl, k + 2);
    assert [a] + ([b] + (UnparseElements(tbl, k + 2) + [RBraceToken])) == UnparseElements(tbl, k) + [RBraceToken];
  }

  // ---------------------------------------------------------------------
  // Examples fixing the lookahead rules of the table loop.

  /** A key/value element followed by a bare unit is accepted: the parser
      itself lets a table mix the two kinds. */
  lemma MixedTableAccepted()
    ensures
      var k := Token(Identifier, "k");
      var one := Token(Integer, "1");
      var a := Token(Identifier, "a");
      var ts := TokenStream([LBraceToken, k, EqualToken, one, a, RBraceToken], EndOfInput);
      var e := Expression.Table(Table.Table([KeyValueElement(KeyValue(k, Unit(one))), ArrayElement(a)]));
      ParseExpr(ts, 0) == Ok((e, 6)) && !Homogeneous(e)
  {
    var k := Token(Identifier, "k");
    var one := Token(Integer, "1");
    var a := Token(Identifier, "a");
    var ts := TokenStream([LBraceToken, k, EqualToken, one, a, RBraceToken], EndOfInput);
    var e := Expression.Table(Table.Table([KeyValueElement(KeyValue(k, Unit(one))), ArrayElement(a)]));
    var kv := KeyValueElement(KeyValue(k, Unit(one)));
    assert At(ts, 4) == Ok(a) && At(ts, 5) == Ok(RBraceToken);
    assert [kv] + [ArrayElement(a)] == [kv, ArrayElement(a)];
    assert ParseTable(ts, 4, [kv]) == Ok(([kv, ArrayElement(a)], 6));
    assert At(ts, 1) == Ok(k) && At(ts, 2) == Ok(EqualToken);
    assert ParseExpr(ts, 3) == Ok((Unit(one), 4));
    assert [] + [kv] == [kv];
    assert ParseTable(ts, 1, []) == Ok(([kv, ArrayElement(a)], 6));
    assert !SingleKind(e.table.elements) by {
      assert e.table.elements[1].ArrayElement? != e.table.elements[0].ArrayElement?;
    }
  }

  /** A bare unit followed by a key/value element is not: the unit and the
      key are read as a pair, and the `=` after them is unexpected. */
  lemma ArrayThenKeyRejected()
    ensures
      var ts := TokenStream([LBraceToken, Token(Identifier, "a"), Token(Identifier, "k"), EqualToken,
                             Token(Integer, "1"), RBraceToken], EndOfInput);
      ParseExpr(ts, 0) == Err(UnexpectedToken(EqualToken))
  {
    var a := Token(Identifier, "a");
    var k := Token(Identifier, "k");
    var ts := TokenStream([LBraceToken, a, k, EqualToken, Token(Integer, "1"), RBraceToken], EndOfInput);
    assert At(ts, 3) == Ok(EqualToken);
    assert ParseTable(ts, 3, [ArrayElement(a), ArrayElement(k)]) == Err(UnexpectedToken(EqualToken));
    assert At(ts, 1) == Ok(a) && At(ts, 2) == Ok(k);
    assert ParseTable(ts, 1, []) == Err(UnexpectedToken(EqualToken));
  }

  /** Only identifiers and integers are keys: a string before `=` makes the
      `=` unexpected. */
  lemma StringKeyRejected()
    ensures
      var ts := TokenStream([LBraceToken, Token(String, "s"), EqualToken, Token(Integer, "1"), RBraceToken], EndOfInput);
      ParseExpr(ts, 0) == Err(UnexpectedToken(EqualToken))
  {
  }

  /** Input that ends inside a table, or meets a character no token starts
      with, is reported as such. */
  lemma UnfinishedTableRejected()
    ensures ParseExpr(TokenStream([LBraceToken], EndOfInput), 0) == Err(UnexpectedEndOfFile)
    ensures ParseExpr(TokenStream([LBraceToken], StuckAt('@')), 0) == Err(UndefinedInTable(UndefinedToken('@')))
    ensures ParseExpr(TokenStream([LBraceToken], LexFailed(UnterminatedString)), 0) == Err(LexFailure(UnterminatedString))
  {
  }

  /** `x = {}` is an assignment of the empty table. */
  lemma EmptyTableProgram()
    ensures
      var x := Token(Identifier, "x");
      var ts := TokenStream([x, EqualToken, LBraceToken, RBraceToken], EndOfInput);
      ParseProgram(ts, 0) == Ok(Assignment(AssignmentStatement(x, Expression.Table(Table.Table([])))))
  {
    var x := Token(Identifier, "x");
    var ts := TokenStream([x, EqualToken, LBraceToken, RBraceToken], EndOfInput);
    assert At(ts, 3) == Ok(RBraceToken);
    assert ParseTable(ts, 3, []) == Ok(([], 4));
    assert At(ts, 2) == Ok(LBraceToken);
    assert ParseExpr(ts, 2) == Ok((Expression.Table(Table.Table([])), 4));
  }
}
