/** A comma may come last in lists and tuples, too (src/banjo/parser/expr_parser.cpp:463-490 and src/banjo/parser/parser.cpp). */
module ExprLiberties {
  import opened RegAllocFunc
  import opened ExprGrammar
  import opened ExprRoundTrip
  import opened ExprPrecedence

  /** A comma after every tree, and then the closer. */
  function CommaList(es: seq<Expr>, close: Token): seq<Token> {
    if es == [] then [close] else Yield(es[0]) + ([Comma] + CommaList(es[1..], close))
  }

  lemma {:induction false} CommaListIs(es: seq<Expr>, close: Token)
    requires es != []
    ensures CommaList(es, close) == YieldList(es) + [Comma, close]
  {
    if |es| == 1 {
      assert CommaList(es[1..], close) == [close];
      assert [Comma] + [close] == [Comma, close];
    } else {
      CommaListIs(es[1..], close);
      assert YieldList(es) + [Comma, close] == Yield(es[0]) + ([Comma] + (YieldList(es[1..]) + [Comma, close]));
    }
  }

  lemma FirstOfList(ts: seq<Token>, pos: nat, end: nat, es: seq<Expr>, close: Token) returns (mid: nat)
    requires es != [] && AllRanked(es) && At(ts, pos, end, CommaList(es, close)) && (close == RParen || close == RBracket)
    ensures pos < mid < end <= |ts| && ts[pos] != close && ParseLevel(ts, pos, 0) == Some((es[0], mid))
    ensures ts[mid] == Comma && At(ts, mid + 1, end, CommaList(es[1..], close)) && AllRanked(es[1..])
  {
    var rest := [Comma] + CommaList(es[1..], close);
    mid := AtSplit(ts, pos, end, Yield(es[0]), rest);
    AtFirst(ts, mid, end, rest);
    var next := AtSplit(ts, mid, end, [Comma], CommaList(es[1..], close));
    FirstIsNoCloser(ts, pos, mid, es[0], 0);
    CloserStops(Comma, 0);
    ParsesTree(ts, pos, mid, es[0], 0);
  }

  lemma NoMoreArgs(ts: seq<Token>, pos: nat, end: nat, close: Token, done: seq<Expr>)
    requires At(ts, pos, end, [close])
    ensures ParseArgs(ts, pos, close, done) == Some((done, end))
  {
    AtFirst(ts, pos, end, [close]);
    ArgsEnd(ts, pos, close, done);
  }

  lemma DoneGrows(done: seq<Expr>, es: seq<Expr>)
    requires es != []
    ensures done + [es[0]] + es[1..] == done + es
  {
  }

  lemma {:induction false} ArgsMayEndWithComma(ts: seq<Token>, pos: nat, end: nat, es: seq<Expr>, close: Token, done: seq<Expr>)
    requires (close == RParen || close == RBracket) && AllRanked(es) && At(ts, pos, end, CommaList(es, close))
    ensures ParseArgs(ts, pos, close, done) == Some((done + es, end))
    decreases |es|, 1
  {
    if es == [] {
      NoMoreArgs(ts, pos, end, close, done);
      assert done + es == done;
    } else {
      MoreArgs(ts, pos, end, es, close, done);
    }
  }

  lemma {:induction false} MoreArgs(ts: seq<Token>, pos: nat, end: nat, es: seq<Expr>, close: Token, done: seq<Expr>)
    requires (close == RParen || close == RBracket) && AllRanked(es) && At(ts, pos, end, CommaList(es, close)) && es != []
    ensures ParseArgs(ts, pos, close, done) == Some((done + es, end))
    decreases |es|, 0
  {
    var mid := FirstOfList(ts, pos, end, es, close);
    ArgsMayEndWithComma(ts, mid + 1, end, es[1..], close, done + [es[0]]);
    OneMoreArg(ts, pos, close, done, es[0], mid);
    DoneGrows(done, es);
  }

  lemma {:induction false} ElementsMayEndWithComma(ts: seq<Token>, pos: nat, end: nat, es: seq<Expr>, done: seq<Expr>)
    requires AllRanked(es) && pos < |ts| && ts[pos] == Comma && At(ts, pos + 1, end, CommaList(es, RParen))
    ensures ParseElements(ts, pos, done) == Some((Tuple(done + es), end))
    decreases |es|
  {
    if es == [] {
      AtFirst(ts, pos + 1, end, [RParen]);
      CommaEndsElements(ts, pos, done);
      assert done + es == done;
    } else {
      var mid := FirstOfList(ts, pos + 1, end, es, RParen);
      OneMoreElement(ts, pos, done, es[0], mid);
      ElementsMayEndWithComma(ts, mid, end, es[1..], done + [es[0]]);
      assert done + [es[0]] + es[1..] == done + es;
    }
  }

  lemma PartsAround(ts: seq<Token>, ys: seq<Token>, token: Token, zs: seq<Token>)
    requires ts == ys + ([token] + zs)
    ensures At(ts, 0, |ys|, ys) && |ys| < |ts| && ts[|ys|] == token && At(ts, |ys| + 1, |ts|, zs)
  {
  }

  lemma OperandBeforeArgs(ts: seq<Token>, e: Expr)
    requires IsPostOperand(e) && |Yield(e)| < |ts| && At(ts, 0, |Yield(e)|, Yield(e))
    ensures ParseLevel(ts, 0, POST_LEVEL) == ParsePost(ts, e, |Yield(e)|)
  {
    WholeIffFits(e, POST_LEVEL);
    ParsesPost(ts, 0, |Yield(e)|, e);
  }

  lemma ArgsAreRead(ts: seq<Token>, pos: nat, args: seq<Expr>, close: Token)
    requires AreWhole(args) && args != [] && (close == RParen || close == RBracket)
    requires At(ts, pos, |ts|, YieldList(args) + [Comma, close])
    ensures ParseArgs(ts, pos, close, []) == Some((args, |ts|))
  {
    WholeAreRanked(args);
    CommaListIs(args, close);
    ArgsMayEndWithComma(ts, pos, |ts|, args, close, []);
    assert [] + args == args;
  }

  /** Arguments with a comma after the last one. */
  lemma CommaAfterArgs(ts: seq<Token>, e: Expr, args: seq<Expr>)
    requires IsPostOperand(e) && AreWhole(args) && args != [] && ts == Yield(e) + ([LParen] + (YieldList(args) + [Comma, RParen]))
    ensures ReadWhole(ts, POST_LEVEL, Call(e, args))
  {
    PartsAround(ts, Yield(e), LParen, YieldList(args) + [Comma, RParen]);
    OperandBeforeArgs(ts, e);
    ArgsAreRead(ts, |Yield(e)| + 1, args, RParen);
    CallFollows(ts, e, |Yield(e)|, args, |ts|);
    PostStops(ts, Call(e, args), |ts|);
  }

  /** The same in brackets. */
  lemma CommaInBrackets(ts: seq<Token>, e: Expr, args: seq<Expr>)
    requires IsPostOperand(e) && AreWhole(args) && args != [] && ts == Yield(e) + ([LBracket] + (YieldList(args) + [Comma, RBracket]))
    ensures ReadWhole(ts, POST_LEVEL, Bracket(e, args))
  {
    PartsAround(ts, Yield(e), LBracket, YieldList(args) + [Comma, RBracket]);
    OperandBeforeArgs(ts, e);
    ArgsAreRead(ts, |Yield(e)| + 1, args, RBracket);
    BracketFollows(ts, e, |Yield(e)|, args, |ts|);
    PostStops(ts, Bracket(e, args), |ts|);
  }

  lemma ElementsAreRead(ts: seq<Token>, es: seq<Expr>)
    requires AllRanked(es) && es != [] && |ts| > 0 && ts[0] == LParen && At(ts, 1, |ts|, CommaList(es, RParen))
    ensures ParseOperand(ts, 0) == Some((Tuple(es), |ts|))
  {
    var mid := FirstOfList(ts, 1, |ts|, es, RParen);
    TupleStarts(ts, 0, es[0], mid);
    ElementsMayEndWithComma(ts, mid, |ts|, es[1..], [es[0]]);
    assert [es[0]] + es[1..] == es;
  }

  /** Tuples with a comma after their last element. */
  lemma CommaAfterElements(ts: seq<Token>, es: seq<Expr>)
    requires AreWhole(es) && es != [] && ts == [LParen] + (YieldList(es) + [Comma, RParen])
    ensures ReadWhole(ts, OPERAND_LEVEL, Tuple(es))
  {
    WholeAreRanked(es);
    CommaListIs(es, RParen);
    PartsAround(ts, [], LParen, YieldList(es) + [Comma, RParen]);
    ElementsAreRead(ts, es);
  }
}
