/** `Parser` of src/parser.rs and src/lazyparser.rs. The two are the same code
    over different lexers; here the lexer is the stream of answers its
    `advance` calls give (see `Streams`), and `pos` counts the calls made.
    Each method is proved to compute the corresponding `Grammar` function. */
module Parser {
  import opened Wrappers
  import opened Tokens
  import opened Ast
  import opened Streams
  import Grammar

  class Parser {
    /** The answers of the lexer the parser reads from. */
    const stream: TokenStream
    /** How many tokens the parser has taken from the lexer. */
    var pos: nat

    constructor(lexer: TokenStream)
      ensures stream == lexer && pos == 0
    {
      stream := lexer;
      pos := 0;
    }

    /** The lexer's `advance`: the next answer of the stream. */
    method Advance() returns (r: Result<Token, LexError>)
      modifies this
      ensures r == At(stream, old(pos)) && pos == old(pos) + 1
    {
      r := At(stream, pos);
      pos := pos + 1;
    }

    /** `parse_program`. A panic of the source is the error it would report. */
    method ParseProgram() returns (r: Result<Statement, Grammar.ParseError>)
      modifies this
      ensures r == Grammar.ParseProgram(stream, old(pos))
    {
      var first := Advance();
      if first.Err? {
        return Err(Grammar.LexFailure(first.error));
      }
      if first.value.kind != Identifier {
        return Err(Grammar.NotAnAssignment);
      }
      var second := Advance();
      if second.Err? {
        return Err(Grammar.LexFailure(second.error));
      }
      if second.value.kind != Equal {
        return Err(Grammar.NotAnAssignment);
      }
      var value := ParseExpr();
      if value.Err? {
        return Err(value.error);
      }
      return Ok(Assignment(AssignmentStatement(first.value, value.value)));
    }

    /** `parse_expr`: a unit token, or a table read element by element with
        one token of lookahead. On success the parser stands just past the
        expression. */
    method ParseExpr() returns (r: Result<Expression, Grammar.ParseError>)
      modifies this
      ensures var g := Grammar.ParseExpr(stream, old(pos));
        (g.Ok? ==> r == Ok(g.value.0) && pos == g.value.1) &&
        (g.Err? ==> r == Err(g.error))
      decreases if pos <= |stream.tokens| then |stream.tokens| - pos else 0, 1
    {
      var first := Advance();
      if first.Err? {
        return Err(Grammar.LexFailure(first.error));
      }
      var open := first.value;
      if IsUnit(open) {
        return Ok(Unit(open));
      }
      if open.kind != LBrace {
        return Err(Grammar.UnexpectedToken(open));
      }
      Grammar.ExprOpens(stream, pos - 1);
      var elements := ParseTable();
      if elements.Err? {
        return Err(elements.error);
      }
      return Ok(Expression.Table(Table.Table(elements.value)));
    }

    /** The loop of `parse_expr` that reads the elements of a table after its
        opening brace, up to and including the closing brace. */
    method ParseTable() returns (r: Result<seq<TableElement>, Grammar.ParseError>)
      requires pos <= |stream.tokens|
      modifies this
      ensures var g := Grammar.ParseTable(stream, old(pos), []);
        (g.Ok? ==> r == Ok(g.value.0) && pos == g.value.1) &&
        (g.Err? ==> r == Err(g.error))
      decreases |stream.tokens| - pos, 0
    {
      ghost var target := Grammar.ParseTable(stream, pos, []);
      var elements: seq<TableElement> := [];
      while true
        invariant old(pos) <= pos <= |stream.tokens|
        invariant Grammar.ParseTable(stream, pos, elements) == target
        decreases |stream.tokens| - pos
      {
        ghost var here := pos;
        var cur := Advance();
        if cur.Err? {
          Grammar.TurnFails(stream, here, elements, Grammar.LexFailure(cur.error));
          return Err(Grammar.LexFailure(cur.error));
        }
        var token := cur.value;
        if token.kind == RBrace {
          Grammar.TableCloses(stream, here, elements);
          break;
        } else if IsUnit(token) {
          var lookahead := Advance();
          if lookahead.Err? {
            Grammar.TurnFailsAfterUnit(stream, here, elements, Grammar.LexFailure(lookahead.error));
            return Err(Grammar.LexFailure(lookahead.error));
          }
          var next := lookahead.value;
          if next.kind == Equal && IsKey(token) {
            Grammar.TurnKeyValue(stream, here, elements);
            var value := ParseExpr();
            if value.Err? {
              return Err(value.error);
            }
            elements := elements + [KeyValueElement(KeyValue(token, value.value))];
          } else if IsUnit(next) {
            Grammar.TurnUnitPair(stream, here, elements);
            elements := elements + [ArrayElement(token), ArrayElement(next)];
          } else if next.kind == RBrace {
            Grammar.TableLastUnit(stream, here, elements);
            elements := elements + [ArrayElement(token)];
            break;
          } else {
            Grammar.TurnFailsAfterUnit(stream, here, elements, Grammar.UnexpectedToken(next));
            return Err(Grammar.UnexpectedToken(next));
          }
        } else if token.kind == EOF {
          Grammar.TurnFails(stream, here, elements, Grammar.UnexpectedEndOfFile);
          return Err(Grammar.UnexpectedEndOfFile);
        } else if token.kind == TokenType.Undefined {
          Grammar.TurnFails(stream, here, elements, Grammar.UndefinedInTable(token));
          return Err(Grammar.UndefinedInTable(token));
        } else {
          Grammar.TurnFails(stream, here, elements, Grammar.UnexpectedToken(token));
          return Err(Grammar.UnexpectedToken(token));
        }
      }
      return Ok(elements);
    }
  }
}
