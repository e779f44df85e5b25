/** The expression parser over its token stream (src/banjo/parser/expr_parser.cpp). */
module ExprParsers {
  import opened RegAllocFunc
  import opened ExprGrammar
  import opened ExprRoundTrip

  /** The parser has come to the result `p`. */
  ghost predicate Arrives(p: Parsed, r: Option<Expr>, position: nat) {
    if p.Some? then r == Some(p.value.0) && position == p.value.1 else r.None?
  }

  class ExprParser {
    const tokens: seq<Token>
    var position: nat

    constructor (tokens: seq<Token>)
      ensures this.tokens == tokens && position == 0
    {
      this.tokens, position := tokens, 0;
    }

    /** The token at the current position. */
    function Current(): Token
      reads this
    {
      Peek(tokens, position)
    }

    /** `parse_level`, for all levels of binary operators, and the levels below them. */
    method Level(level: nat) returns (r: Option<Expr>)
      modifies this`position
      ensures Arrives(ParseLevel(tokens, old(position), level), r, position)
      decreases |tokens| - position, 20 - level, 0
    {
      if |tokens| <= position || level > OPERAND_LEVEL {
        return None;
      } else if level <= CAST_LEVEL {
        r := BinaryLevel(level);
      } else if level == RESULT_LEVEL {
        r := ResultLevel();
      } else if level == UNARY_LEVEL {
        r := UnaryLevel();
      } else if level == POST_LEVEL {
        r := PostOperand();
      } else {
        r := OperandLevel();
      }
    }

    method BinaryLevel(level: nat) returns (r: Option<Expr>)
      requires position < |tokens| && level <= CAST_LEVEL
      modifies this`position
      ensures Arrives(ParseLevel(tokens, old(position), level), r, position)
      decreases |tokens| - position, 19 - level, 1
    {
      var first := Level(level + 1);
      if first.None? {
        return None;
      }
      var current := first.value;
      var op := OpAt(level, Current());
      while op.Some? && position < |tokens|
        invariant old(position) < position <= |tokens| && op == OpAt(level, Current())
        invariant ParseLevel(tokens, old(position), level) == ParseRest(tokens, level, current, position)
        decreases |tokens| - position
      {
        position := position + 1;
        var right := Level(level + 1);
        if right.None? {
          return None;
        }
        current := Binary(op.value, current, right.value);
        op := OpAt(level, Current());
      }
      return Some(current);
    }

    method ResultLevel() returns (r: Option<Expr>)
      requires position < |tokens|
      modifies this`position
      ensures Arrives(ParseResult(tokens, old(position)), r, position)
      decreases |tokens| - position, 8, 1
    {
      r := Level(UNARY_LEVEL);
      if r.Some? && Current() == Except {
        position := position + 1;
        var error := Level(RESULT_LEVEL);
        r := if error.Some? then Some(ResultType(r.value, error.value)) else None;
      }
    }

    method UnaryLevel() returns (r: Option<Expr>)
      requires position < |tokens|
      modifies this`position
      ensures Arrives(ParseUnary(tokens, old(position)), r, position)
      decreases |tokens| - position, 7, 1
    {
      var op := UnOpAt(tokens[position]);
      if op.None? {
        r := Level(POST_LEVEL);
        return;
      }
      position := position + 1;
      var unOp := op.value;
      if unOp == Ref && Current() == Mut {
        position := position + 1;
        unOp := RefMut;
      }
      var operand := Level(UNARY_LEVEL);
      r := if operand.Some? then Some(Unary(unOp, operand.value)) else None;
    }

    /** One member access, call or bracket expression after `current`. */
    method Suffix(current: Expr) returns (next: Option<Expr>)
      requires position < |tokens| && (tokens[position] == Dot || tokens[position] == LParen || tokens[position] == LBracket)
      modifies this`position
      ensures next.None? ==> ParsePost(tokens, current, old(position)).None?
      ensures next.Some? ==> old(position) < position <= |tokens|
                             && ParsePost(tokens, current, old(position)) == ParsePost(tokens, next.value, position)
      decreases |tokens| - position, 6, 0
    {
      var token := tokens[position];
      position := position + 1;
      if token == Dot {
        var member := Level(OPERAND_LEVEL);
        next := if member.Some? then Some(Member(current, member.value)) else None;
      } else if token == LParen {
        var args := List(RParen);
        next := if args.Some? then Some(Call(current, args.value)) else None;
      } else {
        var args := List(RBracket);
        next := if args.Some? then Some(Bracket(current, args.value)) else None;
      }
    }

    /** An operand followed by member accesses, calls and bracket expressions. */
    method PostOperand() returns (r: Option<Expr>)
      requires position < |tokens|
      modifies this`position
      ensures Arrives(ParseLevel(tokens, old(position), POST_LEVEL), r, position)
      decreases |tokens| - position, 6, 1
    {
      var first := Level(OPERAND_LEVEL);
      if first.None? {
        return None;
      }
      var current := first.value;
      while Current() == Dot || Current() == LParen || Current() == LBracket
        invariant old(position) < position <= |tokens|
        invariant ParseLevel(tokens, old(position), POST_LEVEL) == ParsePost(tokens, current, position)
        decreases |tokens| - position
      {
        var next := Suffix(current);
        if next.None? {
          return None;
        }
        current := next.value;
      }
      return Some(current);
    }

    /** `parse_list`: elements separated by commas, up to the terminator. */
    method List(end: Token) returns (r: Option<seq<Expr>>)
      requires end != Foreign(0)
      modifies this`position
      ensures var p := ParseArgs(tokens, old(position), end, []);
              if p.Some? then r == Some(p.value.0) && position == p.value.1 else r.None?
      decreases |tokens| - position, 21, 0
    {
      var elements: seq<Expr> := [];
      while position < |tokens|
        invariant old(position) <= position
        invariant ParseArgs(tokens, old(position), end, []) == ParseArgs(tokens, position, end, elements)
        decreases |tokens| - position
      {
        if Current() == end {
          position := position + 1;
          return Some(elements);
        }
        var element := Level(0);
        if element.None? {
          return None;
        }
        if Current() == end {
          position := position + 1;
          return Some(elements + [element.value]);
        } else if Current() == Comma {
          position := position + 1;
          elements := elements + [element.value];
        } else {
          return None;
        }
      }
      return None;
    }

    method OperandLevel() returns (r: Option<Expr>)
      requires position < |tokens|
      modifies this`position
      ensures Arrives(ParseOperand(tokens, old(position)), r, position)
      decreases |tokens| - position, 5, 1
    {
      var token := tokens[position];
      if token.Simple? {
        position := position + 1;
        return Some(Operand(token.kind));
      } else if token == LParen {
        r := ParenExpr();
      } else {
        return None;
      }
    }

    /** A parenthesised expression, or a tuple if a comma follows the first element. */
    method ParenExpr() returns (r: Option<Expr>)
      requires position < |tokens| && tokens[position] == LParen
      modifies this`position
      ensures Arrives(ParseOperand(tokens, old(position)), r, position)
      decreases |tokens| - position, 4, 1
    {
      position := position + 1;
      var inner := Level(0);
      if inner.None? {
        return None;
      }
      if Current() != Comma {
        r := ConsumeCloser(Paren(inner.value));
        return;
      }
      var elements := [inner.value];
      while Current() == Comma
        invariant old(position) < position <= |tokens|
        invariant ParseOperand(tokens, old(position)) == ParseElements(tokens, position, elements)
        decreases |tokens| - position
      {
        position := position + 1;
        if Current() == RParen {
          break;
        }
        var element := Level(0);
        if element.None? {
          return None;
        }
        elements := elements + [element.value];
      }
      r := ConsumeCloser(Tuple(elements));
    }

    /** Consumes the closing parenthesis, without a look at it. */
    method ConsumeCloser(e: Expr) returns (r: Option<Expr>)
      requires position <= |tokens|
      modifies this`position
      ensures Arrives(Close(tokens, e, old(position)), r, position)
    {
      if position < |tokens| {
        position := position + 1;
        return Some(e);
      }
      return None;
    }

    /** A whole expression. What it reads is the tree the tokens stand for. */
    method Parse() returns (r: Option<Expr>)
      modifies this`position
      ensures Arrives(ParseLevel(tokens, old(position), 0), r, position)
      ensures forall e, end: nat :: Fits(e, 0) && At(tokens, old(position), end, Yield(e)) && Stops(Peek(tokens, end), 0) ==>
                r == Some(e) && position == end
    {
      ghost var start := position;
      r := Level(0);
      forall e, end: nat | Fits(e, 0) && At(tokens, start, end, Yield(e)) && Stops(Peek(tokens, end), 0)
        ensures ParseLevel(tokens, start, 0) == Some((e, end))
      {
        ParsesTree(tokens, start, end, e, 0);
      }
    }
  }

  /** Any token that does not go on with the expression closes a parenthesis. */
  lemma CloserIsNotChecked(ts: seq<Token>, pos: nat, mid: nat, e: Expr)
    requires Fits(e, 0) && pos < |ts| && ts[pos] == LParen && At(ts, pos + 1, mid, Yield(e))
    requires mid < |ts| && Stops(ts[mid], 0) && ts[mid] != Comma
    ensures ParseLevel(ts, pos, OPERAND_LEVEL) == Some((Paren(e), mid + 1))
  {
    ParsesTree(ts, pos + 1, mid, e, 0);
  }
}
