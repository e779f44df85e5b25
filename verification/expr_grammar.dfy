/** Expressions, their tokens, and the grammar the expression parser follows (src/banjo/parser/expr_parser.cpp). */
module ExprGrammar {
  import opened RegAllocFunc

  /** `Simple` is any operand of one token: an identifier, a literal, a primitive type. */
  datatype Token =
    | Simple(kind: nat) | LParen | RParen | LBracket | RBracket | Comma | Dot | Except
    | Minus | Tilde | And | Star | Not | Question | RefToken | Mut | Share | Try
    | DotDot | OrOr | AndAnd | EqEq | Ne | Gt | Lt | Ge | Le | Or | Caret | Shl | Shr | Plus | Slash | Percent | As | Is
    | Foreign(kind: nat)

  datatype BinOp =
    | RangeOp | OrOp | AndOp | EqOp | NeOp | GtOp | LtOp | GeOp | LeOp | BitOrOp | BitXorOp | BitAndOp
    | ShlOp | ShrOp | AddOp | SubOp | MulOp | DivOp | ModOp | CastOp | TypeCheckOp

  datatype UnOp = Neg | BitNot | Addr | Deref | LogNot | Optional | ImplicitDot | Ref | RefMut | ShareOp | TryOp

  datatype Expr =
    | Operand(kind: nat)
    | Paren(inner: Expr)
    | Tuple(elements: seq<Expr>)
    | Unary(unOp: UnOp, operand: Expr)
    | Binary(binOp: BinOp, lhs: Expr, rhs: Expr)
    | Member(owner: Expr, member: Expr)
    | Call(callee: Expr, args: seq<Expr>)
    | Bracket(base: Expr, args: seq<Expr>)
    | ResultType(value: Expr, error: Expr)

  // ---- Levels ----

  const CAST_LEVEL: nat := 10
  const RESULT_LEVEL: nat := 11
  const UNARY_LEVEL: nat := 12
  const POST_LEVEL: nat := 13
  const OPERAND_LEVEL: nat := 14

  function LevelOf(op: BinOp): (level: nat)
    ensures level <= CAST_LEVEL
  {
    match op
    case RangeOp => 0
    case OrOp => 1
    case AndOp => 2
    case EqOp | NeOp | GtOp | LtOp | GeOp | LeOp => 3
    case BitOrOp => 4
    case BitXorOp => 5
    case BitAndOp => 6
    case ShlOp | ShrOp => 7
    case AddOp | SubOp => 8
    case MulOp | DivOp | ModOp => 9
    case CastOp | TypeCheckOp => 10
  }

  function TokenOf(op: BinOp): Token {
    match op
    case RangeOp => DotDot
    case OrOp => OrOr
    case AndOp => AndAnd
    case EqOp => EqEq
    case NeOp => Ne
    case GtOp => Gt
    case LtOp => Lt
    case GeOp => Ge
    case LeOp => Le
    case BitOrOp => Or
    case BitXorOp => Caret
    case BitAndOp => And
    case ShlOp => Shl
    case ShrOp => Shr
    case AddOp => Plus
    case SubOp => Minus
    case MulOp => Star
    case DivOp => Slash
    case ModOp => Percent
    case CastOp => As
    case TypeCheckOp => Is
  }

  /** The token checker of each level. */
  function OpAt(level: nat, token: Token): Option<BinOp> {
    match level
    case 0 => if token == DotDot then Some(RangeOp) else None
    case 1 => if token == OrOr then Some(OrOp) else None
    case 2 => if token == AndAnd then Some(AndOp) else None
    case 3 => (match token
               case EqEq => Some(EqOp)
               case Ne => Some(NeOp)
               case Gt => Some(GtOp)
               case Lt => Some(LtOp)
               case Ge => Some(GeOp)
               case Le => Some(LeOp)
               case _ => None)
    case 4 => if token == Or then Some(BitOrOp) else None
    case 5 => if token == Caret then Some(BitXorOp) else None
    case 6 => if token == And then Some(BitAndOp) else None
    case 7 => (match token
               case Shl => Some(ShlOp)
               case Shr => Some(ShrOp)
               case _ => None)
    case 8 => (match token
               case Plus => Some(AddOp)
               case Minus => Some(SubOp)
               case _ => None)
    case 9 => (match token
               case Star => Some(MulOp)
               case Slash => Some(DivOp)
               case Percent => Some(ModOp)
               case _ => None)
    case 10 => (match token
                case As => Some(CastOp)
                case Is => Some(TypeCheckOp)
                case _ => None)
    case _ => None
  }

  /** Each binary operator is recognised at its own level, and only there. */
  lemma OpAtItsLevel(level: nat, op: BinOp)
    ensures OpAt(level, TokenOf(op)) == if level == LevelOf(op) then Some(op) else None
  {
  }

  /** The prefix operator a token stands for; `ref` may be followed by `mut`. */
  function UnOpAt(token: Token): Option<UnOp> {
    match token
    case Minus => Some(Neg)
    case Tilde => Some(BitNot)
    case And => Some(Addr)
    case Star => Some(Deref)
    case Not => Some(LogNot)
    case Question => Some(Optional)
    case Dot => Some(ImplicitDot)
    case RefToken => Some(Ref)
    case Share => Some(ShareOp)
    case Try => Some(TryOp)
    case _ => None
  }

  function UnTokens(op: UnOp): seq<Token> {
    match op
    case Neg => [Minus]
    case BitNot => [Tilde]
    case Addr => [And]
    case Deref => [Star]
    case LogNot => [Not]
    case Optional => [Question]
    case ImplicitDot => [Dot]
    case Ref => [RefToken]
    case RefMut => [RefToken, Mut]
    case ShareOp => [Share]
    case TryOp => [Try]
  }

  /** The highest level at which the tree may stand; -1 if a part of it stands where it may not. */
  function Rank(e: Expr): int {
    match e
    case Operand(_) => OPERAND_LEVEL
    case Paren(inner) => if Rank(inner) >= 0 then OPERAND_LEVEL else -1
    case Tuple(elements) => if elements != [] && AllRanked(elements) then OPERAND_LEVEL else -1
    case Unary(_, operand) => if Rank(operand) >= UNARY_LEVEL then UNARY_LEVEL else -1
    case Binary(op, lhs, rhs) => if Rank(lhs) >= LevelOf(op) && Rank(rhs) > LevelOf(op) then LevelOf(op) else -1
    case Member(owner, member) => if Rank(owner) >= POST_LEVEL && Rank(member) >= OPERAND_LEVEL then POST_LEVEL else -1
    case Call(callee, args) => if Rank(callee) >= POST_LEVEL && AllRanked(args) then POST_LEVEL else -1
    case Bracket(base, args) => if Rank(base) >= POST_LEVEL && AllRanked(args) then POST_LEVEL else -1
    case ResultType(value, error) => if Rank(value) >= UNARY_LEVEL && Rank(error) >= RESULT_LEVEL then RESULT_LEVEL else -1
  }

  predicate AllRanked(es: seq<Expr>) {
    forall i | 0 <= i < |es| :: Rank(es[i]) >= 0
  }

  /** The tree respects the level order and left associativity, and may stand where `level` is parsed. */
  predicate Fits(e: Expr, level: nat) {
    Rank(e) >= level
  }

  // ---- Tokens of a tree, in order ----

  function Yield(e: Expr): seq<Token> {
    match e
    case Operand(kind) => [Simple(kind)]
    case Paren(inner) => [LParen] + Yield(inner) + [RParen]
    case Tuple(elements) =>
      [LParen] + YieldList(elements) + (if |elements| == 1 then [Comma] else []) + [RParen]
    case Unary(op, operand) => UnTokens(op) + Yield(operand)
    case Binary(op, lhs, rhs) => Yield(lhs) + [TokenOf(op)] + Yield(rhs)
    case Member(owner, member) => Yield(owner) + [Dot] + Yield(member)
    case Call(callee, args) => Yield(callee) + [LParen] + YieldList(args) + [RParen]
    case Bracket(base, args) => Yield(base) + [LBracket] + YieldList(args) + [RBracket]
    case ResultType(value, error) => Yield(value) + [Except] + Yield(error)
  }

  /** Separated by commas. */
  function YieldList(es: seq<Expr>): seq<Token> {
    if es == [] then []
    else if |es| == 1 then Yield(es[0])
    else Yield(es[0]) + [Comma] + YieldList(es[1..])
  }

  /** Where an operand can start. */
  predicate StartsOperand(token: Token) {
    token.Simple? || token == LParen
  }

  lemma {:induction false} YieldStarts(e: Expr, level: nat)
    requires Fits(e, level)
    ensures |Yield(e)| > 0 && Yield(e)[0] != Mut
    ensures Yield(e)[0] != RParen && Yield(e)[0] != RBracket && Yield(e)[0] != Comma
    ensures level >= POST_LEVEL ==> StartsOperand(Yield(e)[0])
  {
    match e
    case Operand(_) =>
    case Paren(_) =>
    case Tuple(_) =>
    case Unary(_, _) =>
    case Binary(op, lhs, _) => YieldStarts(lhs, LevelOf(op));
    case Member(owner, _) => YieldStarts(owner, POST_LEVEL);
    case Call(callee, _) => YieldStarts(callee, POST_LEVEL);
    case Bracket(base, _) => YieldStarts(base, POST_LEVEL);
    case ResultType(value, _) => YieldStarts(value, UNARY_LEVEL);
  }

  // ---- The parser as a function ----

  type Parsed = Option<(Expr, nat)>

  function Peek(ts: seq<Token>, pos: nat): Token {
    if pos < |ts| then ts[pos] else Foreign(0)
  }

  /** A tree and the position after it, parsing at `level` from position `pos`. */
  function ParseLevel(ts: seq<Token>, pos: nat, level: nat): (r: Parsed)
    ensures r.Some? ==> pos < r.value.1 <= |ts|
    decreases |ts| - pos, 20 - level, 0
  {
    if |ts| <= pos || level > OPERAND_LEVEL then None
    else if level <= CAST_LEVEL then
      var first := ParseLevel(ts, pos, level + 1);
      if first.None? then None else ParseRest(ts, level, first.value.0, first.value.1)
    else if level == RESULT_LEVEL then ParseResult(ts, pos)
    else if level == UNARY_LEVEL then ParseUnary(ts, pos)
    else if level == POST_LEVEL then
      var first := ParseLevel(ts, pos, OPERAND_LEVEL);
      if first.None? then None else ParsePost(ts, first.value.0, first.value.1)
    else ParseOperand(ts, pos)
  }

  /** The loop of `parse_level`. */
  function ParseRest(ts: seq<Token>, level: nat, left: Expr, pos: nat): (r: Parsed)
    requires pos <= |ts| && level <= CAST_LEVEL
    ensures r.Some? ==> pos <= r.value.1 <= |ts|
    decreases |ts| - pos, 20, 1
  {
    var op := OpAt(level, Peek(ts, pos));
    if op.None? || pos == |ts| then Some((left, pos))
    else
      var right := ParseLevel(ts, pos + 1, level + 1);
      if right.None? then None else ParseRest(ts, level, Binary(op.value, left, right.value.0), right.value.1)
  }

  function ParseResult(ts: seq<Token>, pos: nat): (r: Parsed)
    requires pos < |ts|
    ensures r.Some? ==> pos < r.value.1 <= |ts|
    decreases |ts| - pos, 8, 1
  {
    var value := ParseLevel(ts, pos, UNARY_LEVEL);
    if value.None? || Peek(ts, value.value.1) != Except then value
    else
      var error := ParseLevel(ts, value.value.1 + 1, RESULT_LEVEL);
      if error.None? then None else Some((ResultType(value.value.0, error.value.0), error.value.1))
  }

  function ParseUnary(ts: seq<Token>, pos: nat): (r: Parsed)
    requires pos < |ts|
    ensures r.Some? ==> pos < r.value.1 <= |ts|
    decreases |ts| - pos, 7, 1
  {
    var op := UnOpAt(ts[pos]);
    if op.None? then ParseLevel(ts, pos, POST_LEVEL)
    else
      var isMut := op.value == Ref && Peek(ts, pos + 1) == Mut;
      var operand := ParseLevel(ts, if isMut then pos + 2 else pos + 1, UNARY_LEVEL);
      if operand.None? then None
      else Some((Unary(if isMut then RefMut else op.value, operand.value.0), operand.value.1))
  }

  /** The loop of `parse_post_operand`. */
  function ParsePost(ts: seq<Token>, e: Expr, pos: nat): (r: Parsed)
    requires pos <= |ts|
    ensures r.Some? ==> pos <= r.value.1 <= |ts|
    decreases |ts| - pos, 20, 1
  {
    if pos == |ts| then Some((e, pos))
    else if ts[pos] == Dot then
      var member := ParseLevel(ts, pos + 1, OPERAND_LEVEL);
      if member.None? then None else ParsePost(ts, Member(e, member.value.0), member.value.1)
    else if ts[pos] == LParen then
      var args := ParseArgs(ts, pos + 1, RParen, []);
      if args.None? then None else ParsePost(ts, Call(e, args.value.0), args.value.1)
    else if ts[pos] == LBracket then
      var args := ParseArgs(ts, pos + 1, RBracket, []);
      if args.None? then None else ParsePost(ts, Bracket(e, args.value.0), args.value.1)
    else Some((e, pos))
  }

  /** The elements up to the terminator, after those parsed already; a comma may come last. */
  function ParseArgs(ts: seq<Token>, pos: nat, end: Token, done: seq<Expr>): (r: Option<(seq<Expr>, nat)>)
    ensures r.Some? ==> pos < r.value.1 <= |ts|
    decreases |ts| - pos, 21, 0
  {
    if |ts| <= pos then None
    else if ts[pos] == end then Some((done, pos + 1))
    else
      var element := ParseLevel(ts, pos, 0);
      if element.None? then None
      else
        var (e, next) := element.value;
        if Peek(ts, next) == end && next < |ts| then Some((done + [e], next + 1))
        else if Peek(ts, next) == Comma then ParseArgs(ts, next + 1, end, done + [e])
        else None
  }

  function ParseOperand(ts: seq<Token>, pos: nat): (r: Parsed)
    requires pos < |ts|
    ensures r.Some? ==> pos < r.value.1 <= |ts|
    decreases |ts| - pos, 5, 1
  {
    if ts[pos].Simple? then Some((Operand(ts[pos].kind), pos + 1))
    else if ts[pos] == LParen then
      var inner := ParseLevel(ts, pos + 1, 0);
      if inner.None? then None
      else if Peek(ts, inner.value.1) == Comma then ParseElements(ts, inner.value.1, [inner.value.0])
      else Close(ts, Paren(inner.value.0), inner.value.1)
    else None
  }

  /** The loop of `parse_paren_expr` over the elements of a tuple. */
  function ParseElements(ts: seq<Token>, pos: nat, done: seq<Expr>): (r: Parsed)
    requires pos <= |ts|
    ensures r.Some? ==> pos < r.value.1 <= |ts|
    decreases |ts| - pos, 21, 0
  {
    if Peek(ts, pos) != Comma then Close(ts, Tuple(done), pos)
    else if Peek(ts, pos + 1) == RParen then Close(ts, Tuple(done), pos + 1)
    else
      var element := ParseLevel(ts, pos + 1, 0);
      if element.None? then None else ParseElements(ts, element.value.1, done + [element.value.0])
  }

  /** The closing parenthesis is consumed without a look at it. */
  function Close(ts: seq<Token>, e: Expr, pos: nat): Parsed {
    if pos < |ts| then Some((e, pos + 1)) else None
  }
}
