/** Parsing the tokens of a tree gives the tree back. */
module ExprRoundTrip {
  import opened RegAllocFunc
  import opened ExprGrammar

  /** The tokens from `pos` up to but not including `end` are `ys`. */
  ghost predicate At(ts: seq<Token>, pos: nat, end: nat, ys: seq<Token>) {
    pos <= end <= |ts| && ts[pos..end] == ys
  }

  lemma AtSplit(ts: seq<Token>, pos: nat, end: nat, xs: seq<Token>, ys: seq<Token>) returns (mid: nat)
    requires At(ts, pos, end, xs + ys)
    ensures At(ts, pos, mid, xs) && At(ts, mid, end, ys) && mid == pos + |xs|
  {
    mid := pos + |xs|;
    assert ts[pos..mid] == ts[pos..end][..|xs|];
    assert ts[mid..end] == ts[pos..end][|xs|..];
  }

  /** The token between two parts. */
  lemma AtMiddle(ts: seq<Token>, pos: nat, end: nat, xs: seq<Token>, token: Token, zs: seq<Token>) returns (mid: nat)
    requires At(ts, pos, end, xs + [token] + zs)
    ensures At(ts, pos, mid, xs) && mid < end && ts[mid] == token && At(ts, mid + 1, end, zs)
  {
    var next := AtSplit(ts, pos, end, xs + [token], zs);
    mid := AtSplit(ts, pos, next, xs, [token]);
    assert ts[mid..next][0] == ts[mid];
  }

  lemma AtFirst(ts: seq<Token>, pos: nat, end: nat, ys: seq<Token>)
    requires At(ts, pos, end, ys) && |ys| > 0
    ensures pos < end && ts[pos] == ys[0]
  {
    assert ts[pos..end][0] == ts[pos];
  }

  /** No level from `level` on goes on with this token. */
  ghost predicate Stops(token: Token, level: nat) {
    && (forall l: nat | level <= l <= CAST_LEVEL :: OpAt(l, token).None?)
    && (level <= RESULT_LEVEL ==> token != Except)
    && (level <= POST_LEVEL ==> token != Dot && token != LParen && token != LBracket)
  }

  lemma OperatorStops(op: BinOp, level: nat)
    requires LevelOf(op) < level
    ensures Stops(TokenOf(op), level)
  {
    forall l: nat | level <= l <= CAST_LEVEL
      ensures OpAt(l, TokenOf(op)).None?
    {
      OpAtItsLevel(l, op);
    }
  }

  lemma CloserStops(token: Token, level: nat)
    requires token == RParen || token == RBracket || token == Comma || (token == Except && level > RESULT_LEVEL)
    ensures Stops(token, level)
  {
  }

  // ---- Single steps of the parser ----

  lemma SpineStarts(ts: seq<Token>, pos: nat, level: nat, e: Expr, end: nat)
    requires pos < |ts| && level <= CAST_LEVEL && end <= |ts| && ParseLevel(ts, pos, level + 1) == Some((e, end))
    ensures ParseLevel(ts, pos, level) == ParseRest(ts, level, e, end)
  {
  }

  lemma RestStops(ts: seq<Token>, level: nat, left: Expr, pos: nat)
    requires pos <= |ts| && level <= CAST_LEVEL && OpAt(level, Peek(ts, pos)).None?
    ensures ParseRest(ts, level, left, pos) == Some((left, pos))
  {
  }

  lemma PostStops(ts: seq<Token>, e: Expr, pos: nat)
    requires pos <= |ts| && Peek(ts, pos) != Dot && Peek(ts, pos) != LParen && Peek(ts, pos) != LBracket
    ensures ParsePost(ts, e, pos) == Some((e, pos))
  {
  }

  lemma RestGoesOn(ts: seq<Token>, level: nat, left: Expr, pos: nat, op: BinOp, right: Expr, end: nat)
    requires pos < |ts| && level <= CAST_LEVEL && end <= |ts| && OpAt(level, ts[pos]) == Some(op)
    requires ParseLevel(ts, pos + 1, level + 1) == Some((right, end))
    ensures ParseRest(ts, level, left, pos) == ParseRest(ts, level, Binary(op, left, right), end)
  {
  }

  lemma PostStarts(ts: seq<Token>, pos: nat, e: Expr, end: nat)
    requires pos < |ts| && end <= |ts| && ParseLevel(ts, pos, OPERAND_LEVEL) == Some((e, end))
    ensures ParseLevel(ts, pos, POST_LEVEL) == ParsePost(ts, e, end)
  {
  }

  lemma PrefixFollows(ts: seq<Token>, pos: nat, op: UnOp, operand: Expr, end: nat)
    requires pos < |ts| && UnOpAt(ts[pos]) == Some(if op == RefMut then Ref else op)
    requires (op == Ref ==> Peek(ts, pos + 1) != Mut) && (op == RefMut ==> Peek(ts, pos + 1) == Mut)
    requires ParseLevel(ts, if op == RefMut then pos + 2 else pos + 1, UNARY_LEVEL) == Some((operand, end))
    ensures ParseUnary(ts, pos) == Some((Unary(op, operand), end))
  {
  }

  lemma NoPrefix(ts: seq<Token>, pos: nat)
    requires pos < |ts| && StartsOperand(ts[pos])
    ensures ParseUnary(ts, pos) == ParseLevel(ts, pos, POST_LEVEL)
  {
  }

  lemma MemberFollows(ts: seq<Token>, e: Expr, pos: nat, member: Expr, end: nat)
    requires pos < |ts| && end <= |ts| && ts[pos] == Dot && ParseLevel(ts, pos + 1, OPERAND_LEVEL) == Some((member, end))
    ensures ParsePost(ts, e, pos) == ParsePost(ts, Member(e, member), end)
  {
  }

  lemma CallFollows(ts: seq<Token>, e: Expr, pos: nat, args: seq<Expr>, end: nat)
    requires pos < |ts| && end <= |ts| && ts[pos] == LParen && ParseArgs(ts, pos + 1, RParen, []) == Some((args, end))
    ensures ParsePost(ts, e, pos) == ParsePost(ts, Call(e, args), end)
  {
  }

  lemma BracketFollows(ts: seq<Token>, e: Expr, pos: nat, args: seq<Expr>, end: nat)
    requires pos < |ts| && end <= |ts| && ts[pos] == LBracket && ParseArgs(ts, pos + 1, RBracket, []) == Some((args, end))
    ensures ParsePost(ts, e, pos) == ParsePost(ts, Bracket(e, args), end)
  {
  }

  lemma ArgsEnd(ts: seq<Token>, pos: nat, end: Token, done: seq<Expr>)
    requires pos < |ts| && ts[pos] == end
    ensures ParseArgs(ts, pos, end, done) == Some((done, pos + 1))
  {
  }

  lemma LastArg(ts: seq<Token>, pos: nat, end: Token, done: seq<Expr>, e: Expr, next: nat)
    requires pos < |ts| && ts[pos] != end && ParseLevel(ts, pos, 0) == Some((e, next)) && next < |ts| && ts[next] == end
    ensures ParseArgs(ts, pos, end, done) == Some((done + [e], next + 1))
  {
  }

  lemma OneMoreArg(ts: seq<Token>, pos: nat, end: Token, done: seq<Expr>, e: Expr, next: nat)
    requires pos < |ts| && ts[pos] != end && ParseLevel(ts, pos, 0) == Some((e, next)) && next < |ts| && ts[next] == Comma != end
    ensures ParseArgs(ts, pos, end, done) == ParseArgs(ts, next + 1, end, done + [e])
  {
  }

  lemma OneMoreElement(ts: seq<Token>, pos: nat, done: seq<Expr>, e: Expr, next: nat)
    requires pos + 1 < |ts| && ts[pos] == Comma && ts[pos + 1] != RParen && next <= |ts|
    requires ParseLevel(ts, pos + 1, 0) == Some((e, next))
    ensures ParseElements(ts, pos, done) == ParseElements(ts, next, done + [e])
  {
  }

  lemma ElementsEnd(ts: seq<Token>, pos: nat, done: seq<Expr>)
    requires pos < |ts| && ts[pos] == RParen
    ensures ParseElements(ts, pos, done) == Some((Tuple(done), pos + 1))
  {
  }

  lemma CommaEndsElements(ts: seq<Token>, pos: nat, done: seq<Expr>)
    requires pos + 1 < |ts| && ts[pos] == Comma && ts[pos + 1] == RParen
    ensures ParseElements(ts, pos, done) == Some((Tuple(done), pos + 2))
  {
  }

  lemma TupleStarts(ts: seq<Token>, pos: nat, e: Expr, next: nat)
    requires pos < |ts| && ts[pos] == LParen && ParseLevel(ts, pos + 1, 0) == Some((e, next)) && next < |ts| && ts[next] == Comma
    ensures ParseOperand(ts, pos) == ParseElements(ts, next, [e])
  {
  }

  // ---- Where the parts of a tree stand ----

  lemma BinaryParts(ts: seq<Token>, pos: nat, end: nat, e: Expr) returns (mid: nat)
    requires e.Binary? && At(ts, pos, end, Yield(e))
    ensures At(ts, pos, mid, Yield(e.lhs)) && mid < end && ts[mid] == TokenOf(e.binOp) && At(ts, mid + 1, end, Yield(e.rhs))
  {
    mid := AtMiddle(ts, pos, end, Yield(e.lhs), TokenOf(e.binOp), Yield(e.rhs));
  }

  lemma ResultParts(ts: seq<Token>, pos: nat, end: nat, e: Expr) returns (mid: nat)
    requires e.ResultType? && At(ts, pos, end, Yield(e))
    ensures At(ts, pos, mid, Yield(e.value)) && mid < end && ts[mid] == Except && At(ts, mid + 1, end, Yield(e.error))
  {
    mid := AtMiddle(ts, pos, end, Yield(e.value), Except, Yield(e.error));
  }

  /** A prefix operator of one token, or two. */
  lemma UnaryParts(ts: seq<Token>, pos: nat, end: nat, e: Expr) returns (start: nat)
    requires e.Unary? && At(ts, pos, end, Yield(e)) && Fits(e.operand, UNARY_LEVEL)
    ensures start == (if e.unOp == RefMut then pos + 2 else pos + 1) && At(ts, start, end, Yield(e.operand))
    ensures pos < |ts| && UnOpAt(ts[pos]) == Some(if e.unOp == RefMut then Ref else e.unOp)
    ensures (e.unOp == Ref ==> Peek(ts, pos + 1) != Mut) && (e.unOp == RefMut ==> Peek(ts, pos + 1) == Mut)
  {
    var tokens := UnTokens(e.unOp);
    start := AtSplit(ts, pos, end, tokens, Yield(e.operand));
    AtFirst(ts, pos, start, tokens);
    YieldStarts(e.operand, UNARY_LEVEL);
    AtFirst(ts, start, end, Yield(e.operand));
    if e.unOp == RefMut { assert ts[pos..start][1] == ts[pos + 1]; }
  }

  lemma MemberParts(ts: seq<Token>, pos: nat, end: nat, e: Expr) returns (mid: nat)
    requires e.Member? && At(ts, pos, end, Yield(e))
    ensures At(ts, pos, mid, Yield(e.owner)) && mid < end && ts[mid] == Dot && At(ts, mid + 1, end, Yield(e.member))
  {
    mid := AtMiddle(ts, pos, end, Yield(e.owner), Dot, Yield(e.member));
  }

  lemma CallParts(ts: seq<Token>, pos: nat, end: nat, e: Expr) returns (mid: nat)
    requires e.Call? && At(ts, pos, end, Yield(e))
    ensures At(ts, pos, mid, Yield(e.callee)) && mid < end && ts[mid] == LParen && At(ts, mid + 1, end, YieldList(e.args) + [RParen])
  {
    assert Yield(e) == Yield(e.callee) + [LParen] + (YieldList(e.args) + [RParen]);
    mid := AtMiddle(ts, pos, end, Yield(e.callee), LParen, YieldList(e.args) + [RParen]);
  }

  lemma BracketParts(ts: seq<Token>, pos: nat, end: nat, e: Expr) returns (mid: nat)
    requires e.Bracket? && At(ts, pos, end, Yield(e))
    ensures At(ts, pos, mid, Yield(e.base)) && mid < end && ts[mid] == LBracket && At(ts, mid + 1, end, YieldList(e.args) + [RBracket])
  {
    assert Yield(e) == Yield(e.base) + [LBracket] + (YieldList(e.args) + [RBracket]);
    mid := AtMiddle(ts, pos, end, Yield(e.base), LBracket, YieldList(e.args) + [RBracket]);
  }

  lemma ParenParts(ts: seq<Token>, pos: nat, end: nat, e: Expr) returns (mid: nat)
    requires e.Paren? && At(ts, pos, end, Yield(e))
    ensures pos < mid && ts[pos] == LParen && At(ts, pos + 1, mid, Yield(e.inner)) && mid + 1 == end && ts[mid] == RParen
  {
    assert Yield(e) == [] + [LParen] + (Yield(e.inner) + [RParen]);
    var start := AtMiddle(ts, pos, end, [], LParen, Yield(e.inner) + [RParen]);
    mid := AtSplit(ts, pos + 1, end, Yield(e.inner), [RParen]);
    AtFirst(ts, mid, end, [RParen]);
  }

  /** What stands between an element of a list and the end of the list. */
  function Tail(es: seq<Expr>, close: Token): seq<Token> {
    if es == [] then [close] else [Comma] + (YieldList(es) + [close])
  }

  lemma ListParts(ts: seq<Token>, pos: nat, end: nat, es: seq<Expr>, close: Token) returns (mid: nat)
    requires es != [] && At(ts, pos, end, YieldList(es) + [close])
    ensures At(ts, pos, mid, Yield(es[0])) && At(ts, mid, end, Tail(es[1..], close)) && mid < end
    ensures if |es| == 1 then ts[mid] == close && mid + 1 == end else ts[mid] == Comma && At(ts, mid + 1, end, YieldList(es[1..]) + [close])
  {
    var rest := Tail(es[1..], close);
    assert YieldList(es) + [close] == Yield(es[0]) + rest;
    mid := AtSplit(ts, pos, end, Yield(es[0]), rest);
    AtFirst(ts, mid, end, rest);
    if |es| > 1 { var next := AtSplit(ts, mid, end, [Comma], YieldList(es[1..]) + [close]); }
  }

  lemma TupleParts(ts: seq<Token>, pos: nat, end: nat, e: Expr) returns (mid: nat)
    requires e.Tuple? && e.elements != [] && At(ts, pos, end, Yield(e))
    ensures var es := e.elements;
            && pos < mid < end && ts[pos] == LParen && At(ts, pos + 1, mid, Yield(es[0])) && ts[mid] == Comma
            && if |es| == 1 then mid + 2 == end && ts[mid + 1] == RParen else At(ts, mid + 1, end, YieldList(es[1..]) + [RParen])
  {
    var es := e.elements;
    var after := if |es| == 1 then [RParen] else YieldList(es[1..]) + [RParen];
    var inside := Yield(es[0]) + [Comma] + after;
    assert Yield(e) == [] + [LParen] + inside;
    var start := AtMiddle(ts, pos, end, [], LParen, inside);
    mid := AtMiddle(ts, pos + 1, end, Yield(es[0]), Comma, after);
    if |es| == 1 { AtFirst(ts, mid + 1, end, after); }
  }

  lemma FirstIsNoCloser(ts: seq<Token>, pos: nat, end: nat, e: Expr, level: nat)
    requires Fits(e, level) && At(ts, pos, end, Yield(e))
    ensures pos < end && ts[pos] != RParen && ts[pos] != RBracket
    ensures level >= POST_LEVEL ==> StartsOperand(ts[pos])
  {
    YieldStarts(e, level);
    AtFirst(ts, pos, end, Yield(e));
  }

  // ---- Each level ----

  /** Parsing at `level` reads a tree that fits there, if what comes next does not go on with it. */
  lemma {:induction false} ParsesTree(ts: seq<Token>, pos: nat, end: nat, e: Expr, level: nat)
    requires level <= OPERAND_LEVEL && Fits(e, level) && At(ts, pos, end, Yield(e)) && Stops(Peek(ts, end), level)
    ensures ParseLevel(ts, pos, level) == Some((e, end))
    decreases end - pos, 20 - level, 0
  {
    FirstIsNoCloser(ts, pos, end, e, level);
    if level <= CAST_LEVEL {
      ParsesSpine(ts, pos, end, e, level);
      RestStops(ts, level, e, end);
    } else if level == RESULT_LEVEL {
      ParsesResult(ts, pos, end, e);
    } else if level == UNARY_LEVEL {
      ParsesUnary(ts, pos, end, e);
    } else if level == POST_LEVEL {
      ParsesPost(ts, pos, end, e);
      PostStops(ts, e, end);
    } else {
      ParsesOperand(ts, pos, end, e);
    }
  }

  /** At a binary level the loop arrives at the tree itself, whatever operator of the level comes next. */
  lemma {:induction false} ParsesSpine(ts: seq<Token>, pos: nat, end: nat, e: Expr, level: nat)
    requires level <= CAST_LEVEL && Fits(e, level) && At(ts, pos, end, Yield(e)) && Stops(Peek(ts, end), level + 1)
    ensures ParseLevel(ts, pos, level) == ParseRest(ts, level, e, end)
    decreases end - pos, 19 - level, 1
  {
    FirstIsNoCloser(ts, pos, end, e, level);
    if e.Binary? && LevelOf(e.binOp) == level {
      ParsesOperator(ts, pos, end, e, level);
    } else {
      ParsesTree(ts, pos, end, e, level + 1);
      SpineStarts(ts, pos, level, e, end);
    }
  }

  lemma {:induction false} ParsesOperator(ts: seq<Token>, pos: nat, end: nat, e: Expr, level: nat)
    requires level <= CAST_LEVEL && e.Binary? && LevelOf(e.binOp) == level && Fits(e, level)
    requires At(ts, pos, end, Yield(e)) && Stops(Peek(ts, end), level + 1)
    ensures ParseLevel(ts, pos, level) == ParseRest(ts, level, e, end)
    decreases end - pos, 19 - level, 0
  {
    var mid := BinaryParts(ts, pos, end, e);
    OperatorStops(e.binOp, level + 1);
    ParsesSpine(ts, pos, mid, e.lhs, level);
    ParsesRight(ts, pos, mid, end, e, level);
  }

  /** The operand after the operator, which closes the loop's next round. */
  lemma {:induction false} ParsesRight(ts: seq<Token>, pos: nat, mid: nat, end: nat, e: Expr, level: nat)
    requires level <= CAST_LEVEL && e.Binary? && LevelOf(e.binOp) == level && Fits(e.rhs, level + 1)
    requires pos <= mid < end && end <= |ts| && ts[mid] == TokenOf(e.binOp)
    requires At(ts, mid + 1, end, Yield(e.rhs)) && Stops(Peek(ts, end), level + 1)
    ensures ParseRest(ts, level, e.lhs, mid) == ParseRest(ts, level, e, end)
    decreases end - pos, 18 - level, 1
  {
    ParsesTree(ts, mid + 1, end, e.rhs, level + 1);
    OpAtItsLevel(level, e.binOp);
    RestGoesOn(ts, level, e.lhs, mid, e.binOp, e.rhs, end);
  }

  lemma {:induction false} ParsesResult(ts: seq<Token>, pos: nat, end: nat, e: Expr)
    requires Fits(e, RESULT_LEVEL) && At(ts, pos, end, Yield(e)) && Stops(Peek(ts, end), RESULT_LEVEL) && pos < |ts|
    ensures ParseResult(ts, pos) == Some((e, end))
    decreases end - pos, 20 - RESULT_LEVEL - 1, 2
  {
    if e.ResultType? {
      var mid := ResultParts(ts, pos, end, e);
      CloserStops(Except, UNARY_LEVEL);
      ParsesTree(ts, pos, mid, e.value, UNARY_LEVEL);
      ParsesTree(ts, mid + 1, end, e.error, RESULT_LEVEL);
    } else {
      ParsesTree(ts, pos, end, e, UNARY_LEVEL);
    }
  }

  lemma {:induction false} ParsesUnary(ts: seq<Token>, pos: nat, end: nat, e: Expr)
    requires Fits(e, UNARY_LEVEL) && At(ts, pos, end, Yield(e)) && Stops(Peek(ts, end), UNARY_LEVEL) && pos < |ts|
    ensures ParseUnary(ts, pos) == Some((e, end))
    decreases end - pos, 20 - UNARY_LEVEL - 1, 2
  {
    if e.Unary? {
      var start := UnaryParts(ts, pos, end, e);
      ParsesTree(ts, start, end, e.operand, UNARY_LEVEL);
      PrefixFollows(ts, pos, e.unOp, e.operand, end);
    } else {
      FirstIsNoCloser(ts, pos, end, e, POST_LEVEL);
      ParsesTree(ts, pos, end, e, POST_LEVEL);
      NoPrefix(ts, pos);
    }
  }

  lemma {:induction false} ParsesPost(ts: seq<Token>, pos: nat, end: nat, e: Expr)
    requires Fits(e, POST_LEVEL) && At(ts, pos, end, Yield(e)) && pos < |ts|
    ensures ParseLevel(ts, pos, POST_LEVEL) == ParsePost(ts, e, end)
    decreases end - pos, 20 - POST_LEVEL - 1, 2
  {
    match e
    case Member(_, _) => ParsesMember(ts, pos, end, e);
    case Call(_, _) => ParsesCall(ts, pos, end, e);
    case Bracket(_, _) => ParsesBracket(ts, pos, end, e);
    case Operand(_) => ParsesPlain(ts, pos, end, e);
    case Paren(_) => ParsesPlain(ts, pos, end, e);
    case Tuple(_) => ParsesPlain(ts, pos, end, e);
  }

  lemma {:induction false} ParsesPlain(ts: seq<Token>, pos: nat, end: nat, e: Expr)
    requires Fits(e, OPERAND_LEVEL) && At(ts, pos, end, Yield(e)) && pos < |ts|
    ensures ParseLevel(ts, pos, POST_LEVEL) == ParsePost(ts, e, end)
    decreases end - pos, 20 - POST_LEVEL - 1, 1
  {
    OperandNeedsNoStop(ts, pos, end, e);
    PostStarts(ts, pos, e, end);
  }

  lemma {:induction false} ParsesMember(ts: seq<Token>, pos: nat, end: nat, e: Expr)
    requires e.Member? && Fits(e, POST_LEVEL) && At(ts, pos, end, Yield(e)) && pos < |ts|
    ensures ParseLevel(ts, pos, POST_LEVEL) == ParsePost(ts, e, end)
    decreases end - pos, 20 - POST_LEVEL - 1, 1
  {
    var mid := MemberParts(ts, pos, end, e);
    ParsesPost(ts, pos, mid, e.owner);
    OperandNeedsNoStop(ts, mid + 1, end, e.member);
    MemberFollows(ts, e.owner, mid, e.member, end);
    assert e == Member(e.owner, e.member);
  }

  lemma {:induction false} ParsesCall(ts: seq<Token>, pos: nat, end: nat, e: Expr)
    requires e.Call? && Fits(e, POST_LEVEL) && At(ts, pos, end, Yield(e)) && pos < |ts|
    ensures ParseLevel(ts, pos, POST_LEVEL) == ParsePost(ts, e, end)
    decreases end - pos, 20 - POST_LEVEL - 1, 1
  {
    var mid := CallParts(ts, pos, end, e);
    ParsesPost(ts, pos, mid, e.callee);
    ParsesArgs(ts, mid + 1, end, e.args, RParen, []);
    assert [] + e.args == e.args;
    CallFollows(ts, e.callee, mid, e.args, end);
    assert e == Call(e.callee, e.args);
  }

  lemma {:induction false} ParsesBracket(ts: seq<Token>, pos: nat, end: nat, e: Expr)
    requires e.Bracket? && Fits(e, POST_LEVEL) && At(ts, pos, end, Yield(e)) && pos < |ts|
    ensures ParseLevel(ts, pos, POST_LEVEL) == ParsePost(ts, e, end)
    decreases end - pos, 20 - POST_LEVEL - 1, 1
  {
    var mid := BracketParts(ts, pos, end, e);
    ParsesPost(ts, pos, mid, e.base);
    ParsesArgs(ts, mid + 1, end, e.args, RBracket, []);
    assert [] + e.args == e.args;
    BracketFollows(ts, e.base, mid, e.args, end);
    assert e == Bracket(e.base, e.args);
  }

  lemma {:induction false} OperandNeedsNoStop(ts: seq<Token>, pos: nat, end: nat, e: Expr)
    requires Fits(e, OPERAND_LEVEL) && At(ts, pos, end, Yield(e))
    ensures ParseLevel(ts, pos, OPERAND_LEVEL) == Some((e, end)) && pos < end
    decreases end - pos, 20 - POST_LEVEL - 2, 1
  {
    FirstIsNoCloser(ts, pos, end, e, OPERAND_LEVEL);
    ParsesOperand(ts, pos, end, e);
  }

  lemma {:induction false} ParsesOperand(ts: seq<Token>, pos: nat, end: nat, e: Expr)
    requires Fits(e, OPERAND_LEVEL) && At(ts, pos, end, Yield(e)) && pos < |ts|
    ensures ParseOperand(ts, pos) == Some((e, end))
    decreases end - pos, 0, 2
  {
    match e
    case Operand(_) => AtFirst(ts, pos, end, Yield(e));
    case Paren(inner) =>
      var mid := ParenParts(ts, pos, end, e);
      CloserStops(RParen, 0);
      ParsesTree(ts, pos + 1, mid, inner, 0);
    case Tuple(elements) => ParsesTuple(ts, pos, end, e);
  }

  lemma PartsOfList(es: seq<Expr>)
    requires es != [] && AllRanked(es)
    ensures Fits(es[0], 0) && AllRanked(es[1..])
  {
  }

  lemma {:induction false} ParsesTuple(ts: seq<Token>, pos: nat, end: nat, e: Expr)
    requires e.Tuple? && Fits(e, OPERAND_LEVEL) && At(ts, pos, end, Yield(e)) && pos < |ts|
    ensures ParseOperand(ts, pos) == Some((e, end))
    decreases end - pos, 0, 1
  {
    var es := e.elements;
    PartsOfList(es);
    var mid := TupleParts(ts, pos, end, e);
    CloserStops(Comma, 0);
    ParsesTree(ts, pos + 1, mid, es[0], 0);
    TupleStarts(ts, pos, es[0], mid);
    if |es| == 1 {
      CommaEndsElements(ts, mid, [es[0]]);
      assert es == [es[0]];
    } else {
      ParsesElements(ts, mid, end, es[1..], [es[0]]);
      assert [es[0]] + es[1..] == es;
    }
  }

  /** The elements after a comma, up to the closing parenthesis. */
  lemma {:induction false} ParsesElements(ts: seq<Token>, pos: nat, end: nat, es: seq<Expr>, done: seq<Expr>)
    requires es != [] && AllRanked(es)
    requires pos < |ts| && ts[pos] == Comma && At(ts, pos + 1, end, YieldList(es) + [RParen])
    ensures ParseElements(ts, pos, done) == Some((Tuple(done + es), end))
    decreases end - pos, 30, 0
  {
    var mid := ParsesFirstArg(ts, pos + 1, end, es, RParen);
    OneMoreElement(ts, pos, done, es[0], mid);
    if |es| == 1 {
      ElementsEnd(ts, mid, done + [es[0]]);
      assert done + es == done + [es[0]];
    } else {
      ParsesElements(ts, mid, end, es[1..], done + [es[0]]);
      assert done + [es[0]] + es[1..] == done + es;
    }
  }

  lemma {:induction false} ParsesArgs(ts: seq<Token>, pos: nat, end: nat, es: seq<Expr>, close: Token, done: seq<Expr>)
    requires close == RParen || close == RBracket
    requires AllRanked(es) && At(ts, pos, end, YieldList(es) + [close])
    ensures ParseArgs(ts, pos, close, done) == Some((done + es, end))
    decreases end - pos, 30, 0
  {
    if es == [] {
      NoArgs(ts, pos, end, close, done);
      assert done + es == done;
    } else {
      ParsesSomeArgs(ts, pos, end, es, close, done);
    }
  }

  lemma {:induction false} ParsesSomeArgs(ts: seq<Token>, pos: nat, end: nat, es: seq<Expr>, close: Token, done: seq<Expr>)
    requires (close == RParen || close == RBracket) && es != []
    requires AllRanked(es) && At(ts, pos, end, YieldList(es) + [close])
    ensures ParseArgs(ts, pos, close, done) == Some((done + es, end))
    decreases end - pos, 29, 0
  {
    var mid := ParsesFirstArg(ts, pos, end, es, close);
    if |es| == 1 {
      LastArg(ts, pos, close, done, es[0], mid);
      assert done + es == done + [es[0]];
    } else {
      ParsesArgs(ts, mid + 1, end, es[1..], close, done + [es[0]]);
      OneMoreArg(ts, pos, close, done, es[0], mid);
      assert done + [es[0]] + es[1..] == done + es;
    }
  }

  lemma {:induction false} ParsesFirstArg(ts: seq<Token>, pos: nat, end: nat, es: seq<Expr>, close: Token) returns (mid: nat)
    requires (close == RParen || close == RBracket) && es != []
    requires AllRanked(es) && At(ts, pos, end, YieldList(es) + [close])
    ensures pos < mid < end <= |ts| && ts[pos] != close && ParseLevel(ts, pos, 0) == Some((es[0], mid))
    ensures if |es| == 1 then ts[mid] == close && mid + 1 == end else ts[mid] == Comma && At(ts, mid + 1, end, YieldList(es[1..]) + [close])
    decreases end - pos, 28, 0
  {
    mid := ListParts(ts, pos, end, es, close);
    FirstIsNoCloser(ts, pos, mid, es[0], 0);
    CloserStops(ts[mid], 0);
    ParsesTree(ts, pos, mid, es[0], 0);
  }

  lemma NoArgs(ts: seq<Token>, pos: nat, end: nat, close: Token, done: seq<Expr>)
    requires At(ts, pos, end, YieldList([]) + [close])
    ensures ParseArgs(ts, pos, close, done) == Some((done, end))
  {
    assert YieldList([]) + [close] == [close];
    AtFirst(ts, pos, end, [close]);
    ArgsEnd(ts, pos, close, done);
  }

  /** Every tree that respects the levels is read back from its tokens, and exactly those are consumed. */
  lemma RoundTrip(ts: seq<Token>, before: seq<Token>, e: Expr, after: seq<Token>)
    requires ts == before + Yield(e) + after && Fits(e, 0) && (after != [] ==> Stops(after[0], 0))
    ensures ParseLevel(ts, |before|, 0) == Some((e, |before| + |Yield(e)|))
  {
    var end := |before| + |Yield(e)|;
    Stands(ts, before, Yield(e), after);
    NextToken(ts, before + Yield(e), after);
    ParsesTree(ts, |before|, end, e, 0);
  }

  lemma Stands(ts: seq<Token>, before: seq<Token>, ys: seq<Token>, after: seq<Token>)
    requires ts == before + ys + after
    ensures At(ts, |before|, |before| + |ys|, ys)
  {
  }

  lemma NextToken(ts: seq<Token>, read: seq<Token>, after: seq<Token>)
    requires ts == read + after && (after != [] ==> Stops(after[0], 0))
    ensures Stops(Peek(ts, |read|), 0)
  {
  }

  /** So no two trees that respect the levels have the same tokens. */
  lemma Unambiguous(e: Expr, e': Expr)
    requires Fits(e, 0) && Fits(e', 0) && Yield(e) == Yield(e')
    ensures e == e'
  {
    var ts := Yield(e);
    assert ts == [] + Yield(e) + [] == [] + Yield(e') + [];
    RoundTrip(ts, [], e, []);
    RoundTrip(ts, [], e', []);
  }
}
