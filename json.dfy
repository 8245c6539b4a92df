/** `parse_expr_to_json` of src/json.rs: the syntax tree rendered as indented
    JSON text. The source's two panics on a table that mixes keyed and keyless
    elements are the two `RenderError`s. `Render` is the function the method
    `RenderExpr` is proved to compute; the lemmas below state what it means. */
module Json {
  import opened Wrappers
  import opened Tokens
  import opened Ast

  /** The element kind that broke a table: a keyless element in a table whose
      first element was keyed, or a keyed element in a table whose first
      element was keyless. */
  datatype RenderError = ArrayElementInObject | KeyValueInArray

  /** `"    ".repeat(n)`. */
  function Indent(n: nat): (s: string)
    ensures |s| == 4 * n
    ensures forall i :: 0 <= i < |s| ==> s[i] == ' '
  {
    if n == 0 then "" else "    " + Indent(n - 1)
  }

  /** `join`: the parts with `sep` between consecutive ones. */
  function Join(parts: seq<string>, sep: string): string
  {
    if |parts| == 0 then ""
    else if |parts| == 1 then parts[0]
    else parts[0] + sep + Join(parts[1..], sep)
  }

  /** The kinds whose text is written between double quotes. */
  predicate Quoted(kind: TokenType)
  {
    kind == String || kind == Identifier
  }

  /** The rendering of a unit value: its text, in double quotes when it is a
      string or an identifier, with no escaping. */
  function RenderUnit(t: Token): string
  {
    if Quoted(t.kind) then "\"" + t.value + "\"" else t.value
  }

  /** The line of a keyless element: the raw token text, unquoted whatever
      its kind. */
  function ArrayLine(t: Token, indent: nat): string
  {
    Indent(indent + 1) + t.value
  }

  /** The line of a keyed element: the key in quotes, then the rendered value. */
  function KeyLine(key: Token, value: string, indent: nat): string
  {
    Indent(indent + 1) + "\"" + key.value + "\": " + value
  }

  /** The text of an expression rendered at nesting depth `indent`. A table
      is bracketed by `[`/`]` when its first element is keyless and by
      `{`/`}` otherwise, including when it is empty. */
  function Render(e: Expression, indent: nat): Result<string, RenderError>
    decreases e
  {
    match e
    case Unit(t) => Ok(RenderUnit(t))
    case Table(tbl) =>
      var rendered := RenderElements(tbl, 0, indent, None, []);
      if rendered.Err? then Err(rendered.error)
      else
        var (isArray, lines) := rendered.value;
        var (open, close) := if isArray == Some(true) then ("[", "]") else ("{", "}");
        Ok(open + "\n" + Join(lines, ",\n") + "\n" + Indent(indent) + close)
  }

  /** The loop over a table's elements from the `k`-th on, given the kind
      seen so far (`None` before the first element) and the lines rendered
      so far: the final kind and lines, or the first error met. */
  function RenderElements(tbl: Table, k: nat, indent: nat, isArray: Option<bool>, lines: seq<string>)
    : Result<(Option<bool>, seq<string>), RenderError>
    requires k <= |tbl.elements|
    decreases tbl, |tbl.elements| - k
  {
    if k == |tbl.elements| then Ok((isArray, lines))
    else
      match tbl.elements[k]
      case ArrayElement(t) =>
        if isArray.Some? && !isArray.value then Err(ArrayElementInObject)
        else RenderElements(tbl, k + 1, indent, Some(true), lines + [ArrayLine(t, indent)])
      case KeyValueElement(kv) =>
        if isArray.Some? && isArray.value then Err(KeyValueInArray)
        else
          var value := Render(kv.value, indent + 1);
          if value.Err? then Err(value.error)
          else RenderElements(tbl, k + 1, indent, Some(false), lines + [KeyLine(kv.key, value.value, indent)])
  }

  /** `parse_expr_to_json`. */
  method RenderExpr(e: Expression, indent: nat) returns (r: Result<string, RenderError>)
    ensures r == Render(e, indent)
    decreases e
  {
    match e
    case Unit(t) =>
      return Ok(RenderUnit(t));
    case Table(tbl) =>
      var isArray: Option<bool> := None;
      var lines: seq<string> := [];
      for k := 0 to |tbl.elements|
        invariant RenderElements(tbl, k, indent, isArray, lines) == RenderElements(tbl, 0, indent, None, [])
      {
        match tbl.elements[k]
        case ArrayElement(t) =>
          if isArray == None {
            isArray := Some(true);
          } else if !isArray.value {
            return Err(ArrayElementInObject);
          }
          lines := lines + [ArrayLine(t, indent)];
        case KeyValueElement(kv) =>
          if isArray == None {
            isArray := Some(false);
          } else if isArray.value {
            return Err(KeyValueInArray);
          }
          var value := RenderExpr(kv.value, indent + 1);
          if value.Err? {
            return Err(value.error);
          }
          lines := lines + [KeyLine(kv.key, value.value, indent)];
      }
      var (open, close) := if isArray == Some(true) then ("[", "]") else ("{", "}");
      return Ok(open + "\n" + Join(lines, ",\n") + "\n" + Indent(indent) + close);
  }

  // ---------------------------------------------------------------------
  // Rendering succeeds exactly on homogeneous trees.

  /** Every element from the `k`-th on is keyless exactly when `isArray` holds. */
  predicate Agrees(els: seq<TableElement>, k: nat, isArray: bool)
  {
    forall j :: k <= j < |els| ==> els[j].ArrayElement? == isArray
  }

  /** The elements from the `k`-th on are of the kind seen so far, or, when
      none was seen, of the kind of the `k`-th. */
  predicate KindsFit(els: seq<TableElement>, k: nat, isArray: Option<bool>)
    requires k <= |els|
  {
    match isArray
    case None => k == |els| || Agrees(els, k, els[k].ArrayElement?)
    case Some(a) => Agrees(els, k, a)
  }

  predicate ElementsHomogeneous(els: seq<TableElement>, k: nat)
  {
    forall j :: k <= j < |els| ==> ElementHomogeneous(els[j])
  }

  /** The source's two failures are exactly the mixed tables: rendering
      succeeds if and only if every table in the tree is of one element kind. */
  lemma {:induction false} RenderOkIffHomogeneous(e: Expression, indent: nat)
    ensures Render(e, indent).Ok? <==> Homogeneous(e)
    decreases e, 1
  {
    match e
    case Unit(_) =>
    case Table(tbl) =>
      RenderElementsOk(tbl, 0, indent, None, []);
      assert KindsFit(tbl.elements, 0, None) <==> SingleKind(tbl.elements);
  }

  lemma {:induction false} RenderElementsOk(tbl: Table, k: nat, indent: nat, isArray: Option<bool>, lines: seq<string>)
    requires k <= |tbl.elements|
    ensures RenderElements(tbl, k, indent, isArray, lines).Ok? <==>
      KindsFit(tbl.elements, k, isArray) && ElementsHomogeneous(tbl.elements, k)
    decreases tbl, |tbl.elements| - k
  {
    var els := tbl.elements;
    if k < |els| {
      match els[k]
      case ArrayElement(t) =>
        RenderElementsOk(tbl, k + 1, indent, Some(true), lines + [ArrayLine(t, indent)]);
      case KeyValueElement(kv) =>
        RenderOkIffHomogeneous(kv.value, indent + 1);
        var value := Render(kv.value, indent + 1);
        if value.Ok? {
          RenderElementsOk(tbl, k + 1, indent, Some(false), lines + [KeyLine(kv.key, value.value, indent)]);
        }
    }
  }

  /** Which failure a mixed table reports. The kind of its first element
      fixes the table's kind, and the loop stops at `m`, the first element of
      the other kind, with the error for that kind. Only the elements before
      `m` are rendered, so only their values need to render; what follows `m`
      is never looked at. */
  lemma MixedTableError(tbl: Table, indent: nat, m: nat)
    requires 0 < m < |tbl.elements|
    requires tbl.elements[m].ArrayElement? != tbl.elements[0].ArrayElement?
    requires forall j :: 0 <= j < m ==>
      tbl.elements[j].ArrayElement? == tbl.elements[0].ArrayElement? && ElementHomogeneous(tbl.elements[j])
    ensures Render(Expression.Table(tbl), indent) ==
      Err(if tbl.elements[0].ArrayElement? then KeyValueInArray else ArrayElementInObject)
  {
    var els := tbl.elements;
    var a := els[0].ArrayElement?;
    if a {
      var line := ArrayLine(els[0].token, indent);
      assert [] + [line] == [line];
      RenderMismatch(tbl, 1, indent, a, [line], m);
    } else {
      var kv := els[0].keyValue;
      assert ElementHomogeneous(els[0]);
      RenderOkIffHomogeneous(kv.value, indent + 1);
      var value := Render(kv.value, indent + 1);
      var line := KeyLine(kv.key, value.value, indent);
      assert [] + [line] == [line];
      RenderMismatch(tbl, 1, indent, a, [line], m);
    }
  }

  /** Once the kind `a` is chosen, the loop fails at `m`, the first element
      of the other kind, provided the elements from `k` up to `m` render. */
  lemma {:induction false} RenderMismatch(tbl: Table, k: nat, indent: nat, a: bool, lines: seq<string>, m: nat)
    requires k <= m < |tbl.elements| && tbl.elements[m].ArrayElement? != a
    requires forall j :: k <= j < m ==> tbl.elements[j].ArrayElement? == a && ElementHomogeneous(tbl.elements[j])
    ensures RenderElements(tbl, k, indent, Some(a), lines) ==
      Err(if a then KeyValueInArray else ArrayElementInObject)
    decreases m - k
  {
    var els := tbl.elements;
    if k < m {
      match els[k]
      case ArrayElement(t) =>
        RenderMismatch(tbl, k + 1, indent, a, lines + [ArrayLine(t, indent)], m);
      case KeyValueElement(kv) =>
        RenderOkIffHomogeneous(kv.value, indent + 1);
        var value := Render(kv.value, indent + 1);
        RenderMismatch(tbl, k + 1, indent, a, lines + [KeyLine(kv.key, value.value, indent)], m);
    }
  }

  /** `{ 1 k = { 1 k = 1 } }`: the table fails at its keyed element with its
      own error, although the value after that element is itself mixed. */
  lemma MismatchStopsBeforeValue()
    ensures
      var one := Token(Integer, "1");
      var k := Token(Identifier, "k");
      var inner := Expression.Table(Table.Table([ArrayElement(one), KeyValueElement(KeyValue(k, Unit(one)))]));
      var tbl := Table.Table([ArrayElement(one), KeyValueElement(KeyValue(k, inner))]);
      !ElementHomogeneous(tbl.elements[1]) &&
      Render(Expression.Table(tbl), 0) == Err(KeyValueInArray)
  {
    var one := Token(Integer, "1");
    var k := Token(Identifier, "k");
    var inner := Expression.Table(Table.Table([ArrayElement(one), KeyValueElement(KeyValue(k, Unit(one)))]));
    var tbl := Table.Table([ArrayElement(one), KeyValueElement(KeyValue(k, inner))]);
    assert !SingleKind(inner.table.elements) by {
      assert inner.table.elements[1].ArrayElement? != inner.table.elements[0].ArrayElement?;
    }
    MixedTableError(tbl, 0, 1);
  }

  // ---------------------------------------------------------------------
  // The layout of a rendered table.

  /** The lines of a table's loop, in element order: a keyless element gives
      its raw text, a keyed one its quoted key and its value rendered one level
      deeper; the kind recorded is that of the first element. */
  lemma {:induction false} RenderElementsLines(tbl: Table, k: nat, indent: nat, isArray: Option<bool>, lines: seq<string>,
                                              kind: Option<bool>, out: seq<string>)
    requires k <= |tbl.elements|
    requires RenderElements(tbl, k, indent, isArray, lines) == Ok((kind, out))
    ensures |out| == |lines| + |tbl.elements| - k
    ensures out[..|lines|] == lines
    ensures forall j :: k <= j < |tbl.elements| ==> LineOf(tbl.elements[j], indent, out[|lines| + j - k])
    ensures kind == (if isArray.Some? || k == |tbl.elements| then isArray else Some(tbl.elements[k].ArrayElement?))
    decreases |tbl.elements| - k
  {
    var els := tbl.elements;
    if k < |els| {
      var next, isNext;
      match els[k] {
        case ArrayElement(t) =>
          next, isNext := lines + [ArrayLine(t, indent)], Some(true);
        case KeyValueElement(kv) =>
          next, isNext := lines + [KeyLine(kv.key, Render(kv.value, indent + 1).value, indent)], Some(false);
      }
      assert RenderElements(tbl, k + 1, indent, isNext, next) == Ok((kind, out));
      RenderElementsLines(tbl, k + 1, indent, isNext, next, kind, out);
      assert out[..|next|][..|lines|] == out[..|lines|];
      assert LineOf(els[k], indent, out[|lines|]) by {
        assert out[|lines|] == next[|lines|];
      }
      forall j | k < j < |els|
        ensures LineOf(els[j], indent, out[|lines| + j - k])
      {
        assert |next| + j - (k + 1) == |lines| + j - k;
      }
    }
  }

  /** `line` is the rendering of element `el` of a table at depth `indent`. */
  predicate LineOf(el: TableElement, indent: nat, line: string)
  {
    match el
    case ArrayElement(t) => line == ArrayLine(t, indent)
    case KeyValueElement(kv) =>
      Render(kv.value, indent + 1).Ok? && line == KeyLine(kv.key, Render(kv.value, indent + 1).value, indent)
  }

  /** A rendered table: the bracket chosen by its first element, a newline,
      one line per element in order joined by `,\n`, a newline, the
      indentation of its depth and the closing bracket. */
  lemma RenderTableLayout(tbl: Table, indent: nat)
    requires Render(Expression.Table(tbl), indent).Ok?
    ensures exists lines: seq<string> ::
      |lines| == |tbl.elements| &&
      (forall j :: 0 <= j < |lines| ==> LineOf(tbl.elements[j], indent, lines[j])) &&
      var keyless := |tbl.elements| > 0 && tbl.elements[0].ArrayElement?;
      Render(Expression.Table(tbl), indent).value ==
        (if keyless then "[" else "{") + "\n" + Join(lines, ",\n") + "\n" + Indent(indent) + (if keyless then "]" else "}")
  {
    var empty: seq<string> := [];
    var (kind, lines) := RenderElements(tbl, 0, indent, None, empty).value;
    RenderElementsLines(tbl, 0, indent, None, empty, kind, lines);
    forall j | 0 <= j < |lines|
      ensures LineOf(tbl.elements[j], indent, lines[j])
    {
      assert LineOf(tbl.elements[j], indent, lines[|empty| + j - 0]);
    }
    var keyless := |tbl.elements| > 0 && tbl.elements[0].ArrayElement?;
    assert kind == Some(true) <==> keyless;
    var text := (if keyless then "[" else "{") + "\n" + Join(lines, ",\n") + "\n" + Indent(indent) + (if keyless then "]" else "}");
    assert Render(Expression.Table(tbl), indent).value == text;
  }

  /** A unit renders the same at every depth, and its text is recoverable:
      it is the token text, wrapped in one pair of quotes exactly for strings
      and identifiers. */
  lemma UnitRendering(t: Token, indent: nat)
    ensures Render(Unit(t), indent).Ok?
    ensures var s := Render(Unit(t), indent).value;
      (Quoted(t.kind) ==> |s| == |t.value| + 2 && s[0] == '"' && s[|s| - 1] == '"' && s[1..|s| - 1] == t.value) &&
      (!Quoted(t.kind) ==> s == t.value)
  {
  }

  // ---------------------------------------------------------------------
  // Examples.

  /** An empty table renders as braces around an empty line. */
  lemma EmptyTableRendersAsObject()
    ensures Render(Expression.Table(Table.Table([])), 0) == Ok("{\n\n}")
  {
    assert "{" + "\n" + "" + "\n" + "" + "}" == "{\n\n}";
  }

  /** A string unit is quoted, but the same token as a keyless element is
      written raw. */
  lemma KeylessStringIsRaw()
    ensures Render(Unit(Token(String, "a")), 0) == Ok("\"a\"")
    ensures Render(Expression.Table(Table.Table([ArrayElement(Token(String, "a"))])), 0) == Ok("[\n    a\n]")
  {
    assert "\"" + "a" + "\"" == "\"a\"";
    var tbl := Table.Table([ArrayElement(Token(String, "a"))]);
    var line := ArrayLine(Token(String, "a"), 0);
    assert line == "    a" by { assert Indent(1) == "    "; }
    assert [] + [line] == [line];
    assert RenderElements(tbl, 0, 0, None, []) == Ok((Some(true), [line]));
    assert "[" + "\n" + "    a" + "\n" + "" + "]" == "[\n    a\n]";
  }

  /** A keyed value is rendered one level deeper than its table. */
  lemma NestedObject()
    ensures Render(
      Expression.Table(Table.Table([KeyValueElement(KeyValue(Token(Identifier, "n"), Unit(Token(Integer, "1"))))])), 0)
      == Ok("{\n    \"n\": 1\n}")
  {
    var kv := KeyValue(Token(Identifier, "n"), Unit(Token(Integer, "1")));
    var tbl := Table.Table([KeyValueElement(kv)]);
    assert Render(kv.value, 1) == Ok("1");
    var line := KeyLine(kv.key, "1", 0);
    assert line == "    \"n\": 1" by { assert Indent(1) == "    "; }
    assert [] + [line] == [line];
    assert RenderElements(tbl, 0, 0, None, []) == Ok((Some(false), [line]));
    assert "{" + "\n" + "    \"n\": 1" + "\n" + "" + "}" == "{\n    \"n\": 1\n}";
  }
}
