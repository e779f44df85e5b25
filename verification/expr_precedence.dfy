/**
  How operators group (src/banjo/parser/expr_parser.cpp:25-200), told from their tokens: which operator of a chain is made
  last, and that `except` binds more than they do, prefix operators more than `except`, and what follows an operand most.
 */
module ExprPrecedence {
  import opened RegAllocFunc
  import opened ExprGrammar
  import opened ExprRoundTrip
  import opened ExprSoundness

  // ---- Chains of operators ----

  /** The groups of operators, those that bind least first. */
  function GroupOf(token: Token): Option<nat> {
    if token in {DotDot} then Some(0)
    else if token in {OrOr} then Some(1)
    else if token in {AndAnd} then Some(2)
    else if token in {EqEq, Ne, Gt, Lt, Ge, Le} then Some(3)
    else if token in {Or} then Some(4)
    else if token in {Caret} then Some(5)
    else if token in {And} then Some(6)
    else if token in {Shl, Shr} then Some(7)
    else if token in {Plus, Minus} then Some(8)
    else if token in {Star, Slash, Percent} then Some(9)
    else if token in {As, Is} then Some(10)
    else None
  }

  predicate IsOperator(token: Token) {
    GroupOf(token).Some?
  }

  function NameOf(token: Token): BinOp
    requires IsOperator(token)
  {
    match token
    case DotDot => RangeOp
    case OrOr => OrOp
    case AndAnd => AndOp
    case EqEq => EqOp
    case Ne => NeOp
    case Gt => GtOp
    case Lt => LtOp
    case Ge => GeOp
    case Le => LeOp
    case Or => BitOrOp
    case Caret => BitXorOp
    case And => BitAndOp
    case Shl => ShlOp
    case Shr => ShrOp
    case Plus => AddOp
    case Minus => SubOp
    case Star => MulOp
    case Slash => DivOp
    case Percent => ModOp
    case As => CastOp
    case Is => TypeCheckOp
  }

  predicate AllOperators(ops: seq<Token>) {
    forall k | 0 <= k < |ops| :: IsOperator(ops[k])
  }

  /** The last of the operators that bind least. */
  function LastOfLeast(ops: seq<Token>): (k: nat)
    requires ops != [] && AllOperators(ops)
    ensures k < |ops|
    ensures forall j | 0 <= j < |ops| :: GroupOf(ops[k]).value <= GroupOf(ops[j]).value
    ensures forall j | k < j < |ops| :: GroupOf(ops[k]).value < GroupOf(ops[j]).value
  {
    var n := |ops| - 1;
    if n == 0 then 0
    else
      var k := LastOfLeast(ops[..n]);
      if GroupOf(ops[n]).value <= GroupOf(ops[k]).value then n else k
  }

  /** The tree of a chain: that operator is made last, and the chains on both sides of it before. */
  function Grouped(operands: seq<Expr>, ops: seq<Token>): Expr
    requires |operands| == |ops| + 1 && AllOperators(ops)
    decreases |ops|
  {
    if ops == [] then operands[0]
    else
      var k := LastOfLeast(ops);
      Binary(NameOf(ops[k]), Grouped(operands[..k + 1], ops[..k]), Grouped(operands[k + 1..], ops[k + 1..]))
  }

  function Chain(operands: seq<Expr>, ops: seq<Token>): seq<Token>
    requires |operands| == |ops| + 1
  {
    if ops == [] then Yield(operands[0])
    else
      var n := |ops| - 1;
      Chain(operands[..n + 1], ops[..n]) + [ops[n]] + Yield(operands[n + 1])
  }

  /** From its tokens alone the tree is read back whole. */
  ghost predicate ReadWhole(ts: seq<Token>, level: nat, e: Expr) {
    ParseLevel(ts, 0, level) == Some((e, |ts|))
  }

  /** The tree can be an operand of any operator: with prefix operators, but without `except`. */
  ghost predicate IsOperand(e: Expr) {
    ReadWhole(Yield(e), UNARY_LEVEL, e)
  }

  lemma WholeIffFits(e: Expr, level: nat)
    requires level <= OPERAND_LEVEL
    ensures ReadWhole(Yield(e), level, e) <==> Fits(e, level)
  {
    var ts := Yield(e);
    if ReadWhole(ts, level, e) { Soundness(ts, 0, level, e, |ts|); }
    if Fits(e, level) { ParsesTree(ts, 0, |ts|, e, level); }
  }

  lemma OperatorMeans(token: Token)
    requires IsOperator(token)
    ensures LevelOf(NameOf(token)) == GroupOf(token).value && TokenOf(NameOf(token)) == token
  {
  }

  lemma ChainLast(operands: seq<Expr>, ops: seq<Token>)
    requires |operands| == |ops| + 1 && ops != []
    ensures var n := |ops| - 1; Chain(operands, ops) == Chain(operands[..n + 1], ops[..n]) + [ops[n]] + Yield(operands[n + 1])
  {
  }

  lemma SlicesOf<T>(s: seq<T>, n: nat, k: nat)
    requires k <= n < |s|
    ensures s[..n][..k] == s[..k] && s[..n][k..] == s[k..][..n - k] && s[k..][n - k] == s[n]
  {
  }

  lemma {:induction false} ChainSplits(operands: seq<Expr>, ops: seq<Token>, k: nat)
    requires |operands| == |ops| + 1 && k < |ops|
    ensures Chain(operands, ops) == Chain(operands[..k + 1], ops[..k]) + ([ops[k]] + Chain(operands[k + 1..], ops[k + 1..]))
    decreases |ops|
  {
    var n := |ops| - 1;
    ChainLast(operands, ops);
    if k == n {
      assert ops[k + 1..] == [] && operands[k + 1..] == [operands[n + 1]];
    } else {
      var right, rightOps := operands[k + 1..], ops[k + 1..];
      SlicesOf(operands, n + 1, k + 1);
      SlicesOf(ops, n, k);
      SlicesOf(ops, n, k + 1);
      ChainSplits(operands[..n + 1], ops[..n], k);
      ChainLast(right, rightOps);
      Regroup(Chain(operands[..k + 1], ops[..k]), [ops[k]], Chain(right[..|rightOps|], rightOps[..|rightOps| - 1]), [ops[n]], Yield(operands[n + 1]));
    }
  }

  lemma Regroup(a: seq<Token>, b: seq<Token>, c: seq<Token>, d: seq<Token>, e: seq<Token>)
    ensures a + (b + c) + d + e == a + (b + (c + d + e))
  {
  }

  lemma JoinFits(op: BinOp, l: Expr, r: Expr, group: nat, least: nat)
    requires Fits(l, group) && Fits(r, group + 1) && LevelOf(op) == group >= least
    ensures Fits(Binary(op, l, r), least) && Yield(Binary(op, l, r)) == Yield(l) + ([TokenOf(op)] + Yield(r))
  {
  }

  /** All operators bind at least as much as group `least`. */
  predicate AllFrom(ops: seq<Token>, least: nat) {
    forall k | 0 <= k < |ops| :: IsOperator(ops[k]) && GroupOf(ops[k]).value >= least
  }

  predicate AllFit(operands: seq<Expr>) {
    forall k | 0 <= k < |operands| :: Fits(operands[k], RESULT_LEVEL)
  }

  lemma SidesOfLast(ops: seq<Token>, least: nat)
    requires ops != [] && AllOperators(ops) && AllFrom(ops, least)
    ensures var k := LastOfLeast(ops); var group := GroupOf(ops[k]).value;
            group >= least && AllFrom(ops[..k], group) && AllFrom(ops[k + 1..], group + 1)
  {
  }

  /** The tree of a chain has its tokens, and may stand wherever the operator made last may. */
  lemma {:induction false} GroupedFits(operands: seq<Expr>, ops: seq<Token>, least: nat)
    requires |operands| == |ops| + 1 && AllOperators(ops) && least <= RESULT_LEVEL && AllFit(operands) && AllFrom(ops, least)
    ensures Fits(Grouped(operands, ops), least) && Yield(Grouped(operands, ops)) == Chain(operands, ops)
    decreases |ops|
  {
    if ops != [] {
      var k := LastOfLeast(ops);
      var group := GroupOf(ops[k]).value;
      OperatorMeans(ops[k]);
      SidesOfLast(ops, least);
      GroupedFits(operands[..k + 1], ops[..k], group);
      GroupedFits(operands[k + 1..], ops[k + 1..], group + 1);
      JoinFits(NameOf(ops[k]), Grouped(operands[..k + 1], ops[..k]), Grouped(operands[k + 1..], ops[k + 1..]), group, least);
      ChainSplits(operands, ops, k);
    }
  }

  /** A chain of any length: the parser makes the last of the operators that bind least last. */
  lemma ChainIsGrouped(operands: seq<Expr>, ops: seq<Token>)
    requires |operands| == |ops| + 1 && AllOperators(ops) && forall k | 0 <= k < |operands| :: IsOperand(operands[k])
    ensures ReadWhole(Chain(operands, ops), 0, Grouped(operands, ops))
  {
    forall k | 0 <= k < |operands|
      ensures Fits(operands[k], RESULT_LEVEL)
    {
      WholeIffFits(operands[k], UNARY_LEVEL);
    }
    GroupedFits(operands, ops, 0);
    WholeIffFits(Grouped(operands, ops), 0);
  }

  lemma ChainOfThree(a: Expr, x: Token, b: Expr, y: Token, c: Expr)
    ensures Chain([a, b, c], [x, y]) == Yield(a) + [x] + Yield(b) + [y] + Yield(c)
  {
    var operands, ops := [a, b, c], [x, y];
    assert operands[..2] == [a, b] && ops[..1] == [x];
    assert [a, b][..1] == [a] && [x][..0] == [];
    assert Chain([a, b], [x]) == Chain([a], []) + [x] + Yield(b);
  }

  lemma ThreeAreGrouped(a: Expr, x: Token, b: Expr, y: Token, c: Expr)
    requires IsOperator(x) && IsOperator(y)
    ensures Grouped([a, b, c], [x, y]) ==
            if GroupOf(x).value < GroupOf(y).value then Binary(NameOf(x), a, Binary(NameOf(y), b, c))
            else Binary(NameOf(y), Binary(NameOf(x), a, b), c)
  {
    var operands, ops := [a, b, c], [x, y];
    TwoAreGrouped(a, x, b);
    TwoAreGrouped(b, y, c);
    assert operands[..1] == [a] && operands[1..] == [b, c] && ops[..0] == [] && ops[1..] == [y];
    assert operands[..2] == [a, b] && operands[2..] == [c] && ops[..1] == [x] && ops[2..] == [];
    assert LastOfLeast(ops) == if GroupOf(x).value < GroupOf(y).value then 0 else 1;
  }

  /** Of two operators the second one is made first exactly if it binds more. */
  lemma SecondIsFirst(a: Expr, x: Token, b: Expr, y: Token, c: Expr)
    requires IsOperand(a) && IsOperand(b) && IsOperand(c) && IsOperator(x) && IsOperator(y)
    ensures ReadWhole(Yield(a) + [x] + Yield(b) + [y] + Yield(c), 0,
              if GroupOf(x).value < GroupOf(y).value then Binary(NameOf(x), a, Binary(NameOf(y), b, c))
              else Binary(NameOf(y), Binary(NameOf(x), a, b), c))
  {
    ChainIsGrouped([a, b, c], [x, y]);
    ChainOfThree(a, x, b, y, c);
    ThreeAreGrouped(a, x, b, y, c);
  }

  lemma TwoAreGrouped(a: Expr, x: Token, b: Expr)
    requires IsOperator(x)
    ensures Grouped([a, b], [x]) == Binary(NameOf(x), a, b)
  {
    assert [a, b][..1] == [a] && [a, b][1..] == [b] && [x][..0] == [] && [x][1..] == [];
  }

  // ---- Except ----

  lemma ExceptFits(a: Expr, b: Expr)
    requires IsOperand(a) && (IsOperand(b) || (b.ResultType? && Fits(b, RESULT_LEVEL)))
    ensures Fits(ResultType(a, b), RESULT_LEVEL)
  {
    WholeIffFits(a, UNARY_LEVEL);
    WholeIffFits(b, UNARY_LEVEL);
  }

  /** `except` binds more than every operator on either side, and the second of two is made first. */
  lemma ExceptBindsMore(a: Expr, b: Expr, c: Expr, x: Token)
    requires IsOperand(a) && IsOperand(b) && IsOperand(c) && IsOperator(x)
    ensures ReadWhole(Yield(a) + [Except] + Yield(b) + [x] + Yield(c), 0, Binary(NameOf(x), ResultType(a, b), c))
    ensures ReadWhole(Yield(a) + [x] + Yield(b) + [Except] + Yield(c), 0, Binary(NameOf(x), a, ResultType(b, c)))
    ensures ReadWhole(Yield(a) + [Except] + Yield(b) + [Except] + Yield(c), 0, ResultType(a, ResultType(b, c)))
  {
    ExceptFits(a, b);
    ExceptFits(b, c);
    ExceptFits(a, ResultType(b, c));
    WholeIffFits(a, UNARY_LEVEL);
    WholeIffFits(c, UNARY_LEVEL);
    OperatorMeans(x);
    var left, right, both := Binary(NameOf(x), ResultType(a, b), c), Binary(NameOf(x), a, ResultType(b, c)), ResultType(a, ResultType(b, c));
    WholeIffFits(left, 0);
    WholeIffFits(right, 0);
    WholeIffFits(both, 0);
    assert Yield(right) == Yield(a) + [x] + Yield(b) + [Except] + Yield(c);
    assert Yield(both) == Yield(a) + [Except] + Yield(b) + [Except] + Yield(c);
  }

  // ---- Prefix operators, and what follows an operand ----

  predicate IsPrefix(tokens: seq<Token>, op: UnOp) {
    || (tokens == [Minus] && op == Neg) || (tokens == [Tilde] && op == BitNot) || (tokens == [And] && op == Addr)
    || (tokens == [Star] && op == Deref) || (tokens == [Not] && op == LogNot) || (tokens == [Question] && op == Optional)
    || (tokens == [Dot] && op == ImplicitDot) || (tokens == [RefToken] && op == Ref) || (tokens == [RefToken, Mut] && op == RefMut)
    || (tokens == [Share] && op == ShareOp) || (tokens == [Try] && op == TryOp)
  }

  /** What stands before an operand becomes part of it, before any operator and `except` are made. */
  lemma PrefixBindsMore(tokens: seq<Token>, op: UnOp, e: Expr)
    requires IsPrefix(tokens, op) && IsOperand(e)
    ensures ReadWhole(tokens + Yield(e), UNARY_LEVEL, Unary(op, e)) && IsOperand(Unary(op, e))
  {
    WholeIffFits(e, UNARY_LEVEL);
    WholeIffFits(Unary(op, e), UNARY_LEVEL);
    assert UnTokens(op) == tokens;
  }

  /** The tree can be followed by a member, arguments or brackets: it has no prefix operator outside of parentheses. */
  ghost predicate IsPostOperand(e: Expr) {
    ReadWhole(Yield(e), POST_LEVEL, e)
  }

  ghost predicate AreWhole(args: seq<Expr>) {
    forall k | 0 <= k < |args| :: ReadWhole(Yield(args[k]), 0, args[k])
  }

  /** A member becomes part of the operand before it, and only then prefix operators are made. */
  lemma MemberBindsMost(tokens: seq<Token>, op: UnOp, e: Expr, member: nat)
    requires IsPrefix(tokens, op) && IsPostOperand(e)
    ensures ReadWhole(Yield(e) + [Dot, Simple(member)], POST_LEVEL, Member(e, Operand(member)))
    ensures ReadWhole(tokens + (Yield(e) + [Dot, Simple(member)]), UNARY_LEVEL, Unary(op, Member(e, Operand(member))))
  {
    WholeIffFits(e, POST_LEVEL);
    PostIsWhole(tokens, op, Member(e, Operand(member)));
    assert Yield(Member(e, Operand(member))) == Yield(e) + [Dot, Simple(member)];
  }

  /** So do arguments. */
  lemma ArgsBindMost(tokens: seq<Token>, op: UnOp, e: Expr, args: seq<Expr>)
    requires IsPrefix(tokens, op) && IsPostOperand(e) && AreWhole(args)
    ensures ReadWhole(Yield(e) + [LParen] + YieldList(args) + [RParen], POST_LEVEL, Call(e, args))
    ensures ReadWhole(tokens + (Yield(e) + [LParen] + YieldList(args) + [RParen]), UNARY_LEVEL, Unary(op, Call(e, args)))
  {
    WholeIffFits(e, POST_LEVEL);
    WholeAreRanked(args);
    PostIsWhole(tokens, op, Call(e, args));
  }

  /** So do brackets. */
  lemma BracketsBindMost(tokens: seq<Token>, op: UnOp, e: Expr, args: seq<Expr>)
    requires IsPrefix(tokens, op) && IsPostOperand(e) && AreWhole(args)
    ensures ReadWhole(Yield(e) + [LBracket] + YieldList(args) + [RBracket], POST_LEVEL, Bracket(e, args))
    ensures ReadWhole(tokens + (Yield(e) + [LBracket] + YieldList(args) + [RBracket]), UNARY_LEVEL, Unary(op, Bracket(e, args)))
  {
    WholeIffFits(e, POST_LEVEL);
    WholeAreRanked(args);
    PostIsWhole(tokens, op, Bracket(e, args));
  }

  lemma TupleIsWhole(elements: seq<Expr>)
    requires AreWhole(elements) && elements != []
    ensures ReadWhole(Yield(Tuple(elements)), POST_LEVEL, Tuple(elements))
  {
    WholeAreRanked(elements);
    WholeIffFits(Tuple(elements), POST_LEVEL);
  }

  /** Parentheses with commas make a tuple. */
  lemma CommasMakeTuples(elements: seq<Expr>)
    requires AreWhole(elements) && |elements| > 1
    ensures ReadWhole([LParen] + YieldList(elements) + [RParen], POST_LEVEL, Tuple(elements))
  {
    TupleIsWhole(elements);
    assert Yield(Tuple(elements)) == [LParen] + YieldList(elements) + [] + [RParen];
    assert [LParen] + YieldList(elements) + [] == [LParen] + YieldList(elements);
  }

  /** So does a comma after one element. */
  lemma CommaMakesTuple(e: Expr)
    requires ReadWhole(Yield(e), 0, e)
    ensures ReadWhole([LParen] + Yield(e) + [Comma] + [RParen], POST_LEVEL, Tuple([e]))
  {
    TupleIsWhole([e]);
    assert YieldList([e]) == Yield(e);
  }

  lemma WholeAreRanked(args: seq<Expr>)
    requires AreWhole(args)
    ensures AllRanked(args)
  {
    forall k | 0 <= k < |args|
      ensures Rank(args[k]) >= 0
    {
      WholeIffFits(args[k], 0);
    }
  }

  lemma PostIsWhole(tokens: seq<Token>, op: UnOp, e: Expr)
    requires Fits(e, POST_LEVEL) && IsPrefix(tokens, op)
    ensures IsPostOperand(e) && ReadWhole(tokens + Yield(e), UNARY_LEVEL, Unary(op, e))
  {
    WholeIffFits(e, POST_LEVEL);
    WholeIffFits(e, UNARY_LEVEL);
    PrefixBindsMore(tokens, op, e);
  }

  /** An operand with nothing before it can be used with prefix operators and all others. */
  lemma PostIsOperand(e: Expr)
    requires IsPostOperand(e)
    ensures IsOperand(e)
  {
    WholeIffFits(e, POST_LEVEL);
    WholeIffFits(e, UNARY_LEVEL);
  }

  /** Single tokens, and whole expressions in parentheses, are such operands. */
  lemma SimpleOperands(kind: nat, e: Expr)
    ensures IsPostOperand(Operand(kind))
    ensures ReadWhole(Yield(e), 0, e) ==> ReadWhole([LParen] + Yield(e) + [RParen], POST_LEVEL, Paren(e))
  {
    WholeIffFits(Operand(kind), POST_LEVEL);
    WholeIffFits(e, 0);
    WholeIffFits(Paren(e), POST_LEVEL);
  }
}
