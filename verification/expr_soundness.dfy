/**
  What accepted input stands for (src/banjo/parser/expr_parser.cpp). The tree the parser returns respects the levels, and
  the tokens it has consumed are those of the tree, up to two liberties: any token closes a parenthesis, and a comma may
  come last in a list.
 */
module ExprSoundness {
  import opened RegAllocFunc
  import opened ExprGrammar
  import opened ExprRoundTrip

  /** Whether the tokens from some position on spell a tree, up to which, and how many liberties they take. */
  datatype Spelling = Spelling(ok: bool, end: nat, commas: nat, closers: nat)

  function Then(s: Spelling, t: Spelling): Spelling {
    Spelling(s.ok && t.ok, t.end, s.commas + t.commas, s.closers + t.closers)
  }

  function One(ts: seq<Token>, pos: nat, token: Token): Spelling {
    Spelling(pos < |ts| && ts[pos] == token, pos + 1, 0, 0)
  }

  function ThenOne(ts: seq<Token>, s: Spelling, token: Token): Spelling {
    Then(s, One(ts, s.end, token))
  }

  /** Any token stands for the closing parenthesis. */
  function ThenCloser(ts: seq<Token>, s: Spelling): Spelling {
    Then(s, Spelling(s.end < |ts|, s.end + 1, 0, if Peek(ts, s.end) == RParen then 0 else 1))
  }

  /** A comma that need not be there. */
  function ThenComma(ts: seq<Token>, s: Spelling): Spelling {
    if Peek(ts, s.end) == Comma then s.(end := s.end + 1, commas := s.commas + 1) else s
  }

  function Prefix(ts: seq<Token>, pos: nat, op: UnOp): Spelling {
    var s := One(ts, pos, UnTokens(op)[0]);
    if op == RefMut then ThenOne(ts, s, Mut) else s
  }

  /** A token, and the tree after it. */
  function ThenTree(ts: seq<Token>, s: Spelling, token: Token, e: Expr): Spelling
    decreases e, 1
  {
    var t := ThenOne(ts, s, token);
    Then(t, Spell(ts, t.end, e))
  }

  function Spell(ts: seq<Token>, pos: nat, e: Expr): Spelling
    decreases e, 0
  {
    match e
    case Operand(kind) => One(ts, pos, Simple(kind))
    case Paren(inner) =>
      var s := One(ts, pos, LParen);
      ThenCloser(ts, Then(s, Spell(ts, s.end, inner)))
    case Tuple(elements) =>
      var s := One(ts, pos, LParen);
      EndTuple(ts, Then(s, SpellList(ts, s.end, elements)), elements)
    case Unary(op, operand) =>
      var s := Prefix(ts, pos, op);
      Then(s, Spell(ts, s.end, operand))
    case Binary(op, lhs, rhs) => ThenTree(ts, Spell(ts, pos, lhs), TokenOf(op), rhs)
    case Member(owner, member) => ThenTree(ts, Spell(ts, pos, owner), Dot, member)
    case Call(callee, args) =>
      var s := ThenOne(ts, Spell(ts, pos, callee), LParen);
      EndList(ts, Then(s, SpellList(ts, s.end, args)), args, RParen)
    case Bracket(base, args) =>
      var s := ThenOne(ts, Spell(ts, pos, base), LBracket);
      EndList(ts, Then(s, SpellList(ts, s.end, args)), args, RBracket)
    case ResultType(value, error) => ThenTree(ts, Spell(ts, pos, value), Except, error)
  }

  /** Trees with commas between them. */
  function SpellList(ts: seq<Token>, pos: nat, es: seq<Expr>): Spelling
    decreases es, 2
  {
    if es == [] then Spelling(pos <= |ts|, pos, 0, 0)
    else if |es| == 1 then Spell(ts, pos, es[0])
    else ThenTree(ts, SpellList(ts, pos, es[..|es| - 1]), Comma, es[|es| - 1])
  }

  /** An extra comma, unless the list is empty, and the terminator. */
  function EndList(ts: seq<Token>, s: Spelling, es: seq<Expr>, close: Token): Spelling {
    ThenOne(ts, if es == [] then s else ThenComma(ts, s), close)
  }

  /** A tuple of one element needs its comma. */
  function EndTuple(ts: seq<Token>, s: Spelling, es: seq<Expr>): Spelling {
    ThenCloser(ts, if |es| == 1 then ThenOne(ts, s, Comma) else ThenComma(ts, s))
  }

  // ---- Spelling without liberties is the yield ----

  /** `s` spells `ys` from `pos` on: an extra comma makes it longer, a wrong closer makes it different. */
  ghost predicate Faithful(ts: seq<Token>, pos: nat, s: Spelling, ys: seq<Token>) {
    s.ok ==>
      && pos <= s.end <= |ts| && |ys| + s.commas == s.end - pos
      && (s.commas == 0 ==> (At(ts, pos, s.end, ys) <==> s.closers == 0))
  }

  /** No mistakes, if the spelling is faithful. */
  ghost function Mistakes(ts: seq<Token>, pos: nat, s: Spelling, ys: seq<Token>): nat {
    if Faithful(ts, pos, s, ys) then 0 else 1
  }

  lemma ThenMeans(ts: seq<Token>, pos: nat, s: Spelling, xs: seq<Token>, t: Spelling, ys: seq<Token>)
    requires Mistakes(ts, pos, s, xs) == 0 && Mistakes(ts, s.end, t, ys) == 0
    ensures Mistakes(ts, pos, Then(s, t), xs + ys) == 0
  {
    if s.ok && t.ok && s.commas + t.commas == 0 {
      if At(ts, pos, t.end, xs + ys) { var mid := AtSplit(ts, pos, t.end, xs, ys); }
      if At(ts, pos, s.end, xs) && At(ts, s.end, t.end, ys) {
        assert ts[pos..t.end] == ts[pos..s.end] + ts[s.end..t.end];
      }
    }
  }

  lemma OneMeans(ts: seq<Token>, pos: nat, token: Token)
    ensures Mistakes(ts, pos, One(ts, pos, token), [token]) == 0
  {
    if pos < |ts| { assert ts[pos..pos + 1] == [ts[pos]]; }
  }

  lemma ThenOneMeans(ts: seq<Token>, pos: nat, s: Spelling, ys: seq<Token>, token: Token)
    requires Mistakes(ts, pos, s, ys) == 0
    ensures Mistakes(ts, pos, ThenOne(ts, s, token), ys + [token]) == 0
  {
    OneMeans(ts, s.end, token);
    ThenMeans(ts, pos, s, ys, One(ts, s.end, token), [token]);
  }

  lemma ThenCloserMeans(ts: seq<Token>, pos: nat, s: Spelling, ys: seq<Token>)
    requires Mistakes(ts, pos, s, ys) == 0
    ensures Mistakes(ts, pos, ThenCloser(ts, s), ys + [RParen]) == 0
  {
    var t := Spelling(s.end < |ts|, s.end + 1, 0, if Peek(ts, s.end) == RParen then 0 else 1);
    if s.end < |ts| { assert ts[s.end..s.end + 1] == [ts[s.end]]; }
    assert Mistakes(ts, s.end, t, [RParen]) == 0;
    ThenMeans(ts, pos, s, ys, t, [RParen]);
  }

  lemma ThenCommaMeans(ts: seq<Token>, pos: nat, s: Spelling, ys: seq<Token>)
    requires Mistakes(ts, pos, s, ys) == 0
    ensures Mistakes(ts, pos, ThenComma(ts, s), ys) == 0
  {
  }

  lemma PrefixMeans(ts: seq<Token>, pos: nat, op: UnOp)
    ensures Mistakes(ts, pos, Prefix(ts, pos, op), UnTokens(op)) == 0
  {
    var first := UnTokens(op)[0];
    OneMeans(ts, pos, first);
    ThenOneMeans(ts, pos, One(ts, pos, first), [first], Mut);
    assert UnTokens(op) == [first] + if op == RefMut then [Mut] else [];
  }

  lemma EndListMeans(ts: seq<Token>, pos: nat, s: Spelling, ys: seq<Token>, es: seq<Expr>, close: Token)
    requires Mistakes(ts, pos, s, ys) == 0
    ensures Mistakes(ts, pos, EndList(ts, s, es, close), ys + [close]) == 0
  {
    ThenCommaMeans(ts, pos, s, ys);
    ThenOneMeans(ts, pos, if es == [] then s else ThenComma(ts, s), ys, close);
  }

  lemma EndTupleMeans(ts: seq<Token>, pos: nat, s: Spelling, ys: seq<Token>, es: seq<Expr>)
    requires Mistakes(ts, pos, s, ys) == 0
    ensures Mistakes(ts, pos, EndTuple(ts, s, es), ys + (if |es| == 1 then [Comma] else []) + [RParen]) == 0
  {
    if |es| == 1 {
      ThenOneMeans(ts, pos, s, ys, Comma);
      ThenCloserMeans(ts, pos, ThenOne(ts, s, Comma), ys + [Comma]);
    } else {
      ThenCommaMeans(ts, pos, s, ys);
      assert ys + [] == ys;
      ThenCloserMeans(ts, pos, ThenComma(ts, s), ys);
    }
  }

  lemma {:induction false} YieldListAppend(es: seq<Expr>, e: Expr)
    requires es != []
    ensures YieldList(es + [e]) == YieldList(es) + [Comma] + Yield(e)
  {
    var all := es + [e];
    assert all[0] == es[0] && all[1..] == es[1..] + [e];
    if |es| == 1 {
      assert YieldList(all[1..]) == Yield(e);
    } else {
      YieldListAppend(es[1..], e);
      assert YieldList(all) == Yield(es[0]) + [Comma] + (YieldList(es[1..]) + [Comma] + Yield(e));
    }
  }

  /** Spelling a tree without liberties is spelling its yield. */
  lemma {:induction false} SpellMeans(ts: seq<Token>, pos: nat, e: Expr)
    ensures Mistakes(ts, pos, Spell(ts, pos, e), Yield(e)) == 0
    decreases e, 1
  {
    match e
    case Operand(kind) => OneMeans(ts, pos, Simple(kind));
    case Paren(inner) =>
      var s := One(ts, pos, LParen);
      OneMeans(ts, pos, LParen);
      SpellMeans(ts, s.end, inner);
      ThenMeans(ts, pos, s, [LParen], Spell(ts, s.end, inner), Yield(inner));
      ThenCloserMeans(ts, pos, Then(s, Spell(ts, s.end, inner)), [LParen] + Yield(inner));
    case Tuple(elements) =>
      var s := One(ts, pos, LParen);
      OneMeans(ts, pos, LParen);
      SpellListMeans(ts, s.end, elements);
      ThenMeans(ts, pos, s, [LParen], SpellList(ts, s.end, elements), YieldList(elements));
      EndTupleMeans(ts, pos, Then(s, SpellList(ts, s.end, elements)), [LParen] + YieldList(elements), elements);
    case Unary(op, operand) =>
      var s := Prefix(ts, pos, op);
      PrefixMeans(ts, pos, op);
      SpellMeans(ts, s.end, operand);
      ThenMeans(ts, pos, s, UnTokens(op), Spell(ts, s.end, operand), Yield(operand));
    case Call(callee, args) =>
      var s := ThenOne(ts, Spell(ts, pos, callee), LParen);
      SpellMeans(ts, pos, callee);
      SpellListMeans(ts, s.end, args);
      ArgsMean(ts, pos, Spell(ts, pos, callee), Yield(callee), LParen, args, RParen);
    case Bracket(base, args) =>
      var s := ThenOne(ts, Spell(ts, pos, base), LBracket);
      SpellMeans(ts, pos, base);
      SpellListMeans(ts, s.end, args);
      ArgsMean(ts, pos, Spell(ts, pos, base), Yield(base), LBracket, args, RBracket);
    case Binary(_, _, _) => SpellInfixMeans(ts, pos, e);
    case Member(_, _) => SpellInfixMeans(ts, pos, e);
    case ResultType(_, _) => SpellInfixMeans(ts, pos, e);
  }

  lemma ArgsMean(ts: seq<Token>, pos: nat, s: Spelling, ys: seq<Token>, open: Token, args: seq<Expr>, close: Token)
    requires Mistakes(ts, pos, s, ys) == 0
    requires var t := ThenOne(ts, s, open); Mistakes(ts, t.end, SpellList(ts, t.end, args), YieldList(args)) == 0
    ensures var t := ThenOne(ts, s, open);
            Mistakes(ts, pos, EndList(ts, Then(t, SpellList(ts, t.end, args)), args, close), ys + [open] + YieldList(args) + [close]) == 0
  {
    var t := ThenOne(ts, s, open);
    ThenOneMeans(ts, pos, s, ys, open);
    ThenMeans(ts, pos, t, ys + [open], SpellList(ts, t.end, args), YieldList(args));
    EndListMeans(ts, pos, Then(t, SpellList(ts, t.end, args)), ys + [open] + YieldList(args), args, close);
  }

  lemma {:induction false} SpellInfixMeans(ts: seq<Token>, pos: nat, e: Expr)
    requires e.Binary? || e.Member? || e.ResultType?
    ensures Mistakes(ts, pos, Spell(ts, pos, e), Yield(e)) == 0
    decreases e, 0
  {
    match e
    case Binary(op, lhs, rhs) =>
      SpellMeans(ts, pos, lhs);
      SpellMeans(ts, ThenOne(ts, Spell(ts, pos, lhs), TokenOf(op)).end, rhs);
      InfixMeans(ts, pos, lhs, TokenOf(op), rhs);
    case Member(owner, member) =>
      SpellMeans(ts, pos, owner);
      SpellMeans(ts, ThenOne(ts, Spell(ts, pos, owner), Dot).end, member);
      InfixMeans(ts, pos, owner, Dot, member);
    case ResultType(value, error) =>
      SpellMeans(ts, pos, value);
      SpellMeans(ts, ThenOne(ts, Spell(ts, pos, value), Except).end, error);
      InfixMeans(ts, pos, value, Except, error);
  }

  lemma InfixMeans(ts: seq<Token>, pos: nat, lhs: Expr, token: Token, rhs: Expr)
    requires Mistakes(ts, pos, Spell(ts, pos, lhs), Yield(lhs)) == 0
    requires var t := ThenOne(ts, Spell(ts, pos, lhs), token); Mistakes(ts, t.end, Spell(ts, t.end, rhs), Yield(rhs)) == 0
    ensures Mistakes(ts, pos, ThenTree(ts, Spell(ts, pos, lhs), token, rhs), Yield(lhs) + [token] + Yield(rhs)) == 0
  {
    var t := ThenOne(ts, Spell(ts, pos, lhs), token);
    ThenOneMeans(ts, pos, Spell(ts, pos, lhs), Yield(lhs), token);
    ThenMeans(ts, pos, t, Yield(lhs) + [token], Spell(ts, t.end, rhs), Yield(rhs));
  }

  lemma {:induction false} SpellListMeans(ts: seq<Token>, pos: nat, es: seq<Expr>)
    ensures Mistakes(ts, pos, SpellList(ts, pos, es), YieldList(es)) == 0
    decreases es, 2
  {
    if |es| == 1 {
      SpellMeans(ts, pos, es[0]);
    } else if es != [] {
      var before, last := es[..|es| - 1], es[|es| - 1];
      var s := ThenOne(ts, SpellList(ts, pos, before), Comma);
      assert es == before + [last];
      SpellListMeans(ts, pos, before);
      SpellMeans(ts, s.end, last);
      ThenOneMeans(ts, pos, SpellList(ts, pos, before), YieldList(before), Comma);
      ThenMeans(ts, pos, s, YieldList(before) + [Comma], Spell(ts, s.end, last), Yield(last));
      YieldListAppend(before, last);
    }
  }

  // ---- What the parser returns is spelled by what it has consumed ----

  /** The tree may stand at the level, and the tokens from `pos` up to `end` spell it. */
  ghost predicate Sound(ts: seq<Token>, pos: nat, e: Expr, end: nat, level: nat) {
    Fits(e, level) && Spell(ts, pos, e).ok && Spell(ts, pos, e).end == end
  }

  ghost predicate SoundList(ts: seq<Token>, pos: nat, es: seq<Expr>, end: nat) {
    AllRanked(es) && SpellList(ts, pos, es).ok && SpellList(ts, pos, es).end == end
  }

  ghost predicate SoundArgs(ts: seq<Token>, pos: nat, es: seq<Expr>, end: nat, close: Token) {
    var s := EndList(ts, SpellList(ts, pos, es), es, close);
    AllRanked(es) && s.ok && s.end == end
  }

  /** None, if the result is sound. */
  ghost function Faults(ts: seq<Token>, pos: nat, r: Parsed, level: nat): nat {
    if r.Some? && !Sound(ts, pos, r.value.0, r.value.1, level) then 1 else 0
  }

  ghost function ListFaults(ts: seq<Token>, pos: nat, es: seq<Expr>, end: nat): nat {
    if SoundList(ts, pos, es, end) then 0 else 1
  }

  ghost function ArgFaults(ts: seq<Token>, pos: nat, r: Option<(seq<Expr>, nat)>, close: Token): nat {
    if r.Some? && !SoundArgs(ts, pos, r.value.0, r.value.1, close) then 1 else 0
  }

  // ---- Putting parts together ----

  lemma OneMoreInList(ts: seq<Token>, pos: nat, es: seq<Expr>, mid: nat, e: Expr, end: nat)
    requires ListFaults(ts, pos, es, mid) == 0 && es != [] && Peek(ts, mid) == Comma && Faults(ts, mid + 1, Some((e, end)), 0) == 0
    ensures ListFaults(ts, pos, es + [e], end) == 0
  {
    var all := es + [e];
    assert all[..|all| - 1] == es && all[|all| - 1] == e;
    RightSpells(ts, SpellList(ts, pos, es), Comma, e, end, 0);
  }

  lemma FirstInList(ts: seq<Token>, pos: nat, e: Expr, end: nat)
    requires Faults(ts, pos, Some((e, end)), 0) == 0
    ensures ListFaults(ts, pos, [e], end) == 0
  {
  }

  lemma ComparisonOfLevel(token: Token)
    ensures var op := OpAt(3, token); op.Some? ==> LevelOf(op.value) == 3 && TokenOf(op.value) == token
  {
  }

  lemma ArithmeticOfLevel(level: nat, token: Token)
    requires 7 <= level <= 9
    ensures var op := OpAt(level, token); op.Some? ==> LevelOf(op.value) == level && TokenOf(op.value) == token
  {
  }

  /** The operator a level recognises is of that level, and its token is the one read. */
  lemma OperatorOfLevel(level: nat, token: Token)
    ensures var op := OpAt(level, token); op.Some? ==> LevelOf(op.value) == level && TokenOf(op.value) == token
  {
    ComparisonOfLevel(token);
    if 7 <= level <= 9 { ArithmeticOfLevel(level, token); }
  }

  /** The tree after an infix token. */
  lemma RightSpells(ts: seq<Token>, s: Spelling, token: Token, right: Expr, end: nat, level: nat)
    requires s.ok && s.end < |ts| && ts[s.end] == token && Faults(ts, s.end + 1, Some((right, end)), level) == 0
    ensures Fits(right, level)
    ensures ThenTree(ts, s, token, right).ok && ThenTree(ts, s, token, right).end == end
  {
    var t := ThenOne(ts, s, token);
    assert t.ok && t.end == s.end + 1;
  }

  /** Two trees with a token between them. */
  lemma PairSpells(ts: seq<Token>, start: nat, left: Expr, pos: nat, l: nat, token: Token, right: Expr, end: nat, r: nat)
    requires pos < |ts| && ts[pos] == token
    requires Faults(ts, start, Some((left, pos)), l) == 0 && Faults(ts, pos + 1, Some((right, end)), r) == 0
    ensures Fits(left, l) && Fits(right, r)
    ensures ThenTree(ts, Spell(ts, start, left), token, right).ok && ThenTree(ts, Spell(ts, start, left), token, right).end == end
  {
    RightSpells(ts, Spell(ts, start, left), token, right, end, r);
  }

  lemma InfixRanks(op: BinOp, left: Expr, right: Expr)
    ensures Fits(left, LevelOf(op)) && Fits(right, LevelOf(op) + 1) ==> Fits(Binary(op, left, right), LevelOf(op))
    ensures Fits(left, UNARY_LEVEL) && Fits(right, RESULT_LEVEL) ==> Fits(ResultType(left, right), RESULT_LEVEL)
    ensures Fits(left, POST_LEVEL) && Fits(right, OPERAND_LEVEL) ==> Fits(Member(left, right), POST_LEVEL)
  {
  }

  lemma SpellBinary(ts: seq<Token>, pos: nat, op: BinOp, left: Expr, right: Expr)
    ensures Spell(ts, pos, Binary(op, left, right)) == ThenTree(ts, Spell(ts, pos, left), TokenOf(op), right)
  {
  }

  lemma SpellResult(ts: seq<Token>, pos: nat, value: Expr, error: Expr)
    ensures Spell(ts, pos, ResultType(value, error)) == ThenTree(ts, Spell(ts, pos, value), Except, error)
  {
  }

  lemma SpellMember(ts: seq<Token>, pos: nat, e: Expr, member: Expr)
    ensures Spell(ts, pos, Member(e, member)) == ThenTree(ts, Spell(ts, pos, e), Dot, member)
  {
  }

  lemma NoFaults(ts: seq<Token>, pos: nat, e: Expr, end: nat, level: nat)
    requires Rank(e) >= level && Spell(ts, pos, e).ok && Spell(ts, pos, e).end == end
    ensures Faults(ts, pos, Some((e, end)), level) == 0
  {
  }

  lemma BinaryFrom(ts: seq<Token>, start: nat, op: BinOp, left: Expr, right: Expr, end: nat)
    requires Fits(left, LevelOf(op)) && Fits(right, LevelOf(op) + 1)
    requires var s := ThenTree(ts, Spell(ts, start, left), TokenOf(op), right); s.ok && s.end == end
    ensures Faults(ts, start, Some((Binary(op, left, right), end)), LevelOf(op)) == 0
  {
    InfixRanks(op, left, right);
    SpellBinary(ts, start, op, left, right);
    NoFaults(ts, start, Binary(op, left, right), end, LevelOf(op));
  }

  lemma MemberFrom(ts: seq<Token>, start: nat, e: Expr, member: Expr, end: nat)
    requires Fits(e, POST_LEVEL) && Fits(member, OPERAND_LEVEL)
    requires var s := ThenTree(ts, Spell(ts, start, e), Dot, member); s.ok && s.end == end
    ensures Faults(ts, start, Some((Member(e, member), end)), POST_LEVEL) == 0
  {
    InfixRanks(RangeOp, e, member);
    SpellMember(ts, start, e, member);
    NoFaults(ts, start, Member(e, member), end, POST_LEVEL);
  }

  lemma ResultFrom(ts: seq<Token>, start: nat, value: Expr, error: Expr, end: nat)
    requires Fits(value, UNARY_LEVEL) && Fits(error, RESULT_LEVEL)
    requires var s := ThenTree(ts, Spell(ts, start, value), Except, error); s.ok && s.end == end
    ensures Faults(ts, start, Some((ResultType(value, error), end)), RESULT_LEVEL) == 0
  {
    InfixRanks(RangeOp, value, error);
    SpellResult(ts, start, value, error);
    NoFaults(ts, start, ResultType(value, error), end, RESULT_LEVEL);
  }

  lemma OperatorSpells(ts: seq<Token>, level: nat, start: nat, left: Expr, pos: nat, op: BinOp, right: Expr, end: nat)
    requires pos < |ts| && LevelOf(op) == level && TokenOf(op) == ts[pos]
    requires Faults(ts, start, Some((left, pos)), level) == 0 && Faults(ts, pos + 1, Some((right, end)), level + 1) == 0
    ensures Faults(ts, start, Some((Binary(op, left, right), end)), level) == 0
  {
    PairSpells(ts, start, left, pos, level, TokenOf(op), right, end, level + 1);
    BinaryFrom(ts, start, op, left, right, end);
  }

  lemma ResultSpells(ts: seq<Token>, start: nat, value: Expr, pos: nat, error: Expr, end: nat)
    requires pos < |ts| && ts[pos] == Except
    requires Faults(ts, start, Some((value, pos)), UNARY_LEVEL) == 0 && Faults(ts, pos + 1, Some((error, end)), RESULT_LEVEL) == 0
    ensures Faults(ts, start, Some((ResultType(value, error), end)), RESULT_LEVEL) == 0
  {
    PairSpells(ts, start, value, pos, UNARY_LEVEL, Except, error, end, RESULT_LEVEL);
    ResultFrom(ts, start, value, error, end);
  }

  lemma MemberSpells(ts: seq<Token>, start: nat, e: Expr, pos: nat, member: Expr, end: nat)
    requires pos < |ts| && ts[pos] == Dot
    requires Faults(ts, start, Some((e, pos)), POST_LEVEL) == 0 && Faults(ts, pos + 1, Some((member, end)), OPERAND_LEVEL) == 0
    ensures Faults(ts, start, Some((Member(e, member), end)), POST_LEVEL) == 0
  {
    PairSpells(ts, start, e, pos, POST_LEVEL, Dot, member, end, OPERAND_LEVEL);
    MemberFrom(ts, start, e, member, end);
  }

  lemma ListRank(e: Expr, args: seq<Expr>)
    requires Fits(e, POST_LEVEL) && AllRanked(args)
    ensures Fits(Call(e, args), POST_LEVEL) && Fits(Bracket(e, args), POST_LEVEL)
  {
  }

  /** The list after an opening token. */
  lemma ListSpells(ts: seq<Token>, s: Spelling, open: Token, args: seq<Expr>, end: nat, close: Token)
    requires s.ok && s.end < |ts| && ts[s.end] == open && ArgFaults(ts, s.end + 1, Some((args, end)), close) == 0
    ensures AllRanked(args)
    ensures var t := ThenOne(ts, s, open);
            var list := EndList(ts, Then(t, SpellList(ts, t.end, args)), args, close);
            list.ok && list.end == end
  {
    var t := ThenOne(ts, s, open);
    assert t.ok && t.end == s.end + 1;
    EndsAlike(ts, t, SpellList(ts, t.end, args), args, close);
  }

  lemma CallSpells(ts: seq<Token>, start: nat, e: Expr, pos: nat, args: seq<Expr>, end: nat)
    requires pos < |ts| && ts[pos] == LParen
    requires Faults(ts, start, Some((e, pos)), POST_LEVEL) == 0 && ArgFaults(ts, pos + 1, Some((args, end)), RParen) == 0
    ensures Faults(ts, start, Some((Call(e, args), end)), POST_LEVEL) == 0
  {
    ListSpells(ts, Spell(ts, start, e), LParen, args, end, RParen);
    ListRank(e, args);
  }

  lemma BracketSpells(ts: seq<Token>, start: nat, e: Expr, pos: nat, args: seq<Expr>, end: nat)
    requires pos < |ts| && ts[pos] == LBracket
    requires Faults(ts, start, Some((e, pos)), POST_LEVEL) == 0 && ArgFaults(ts, pos + 1, Some((args, end)), RBracket) == 0
    ensures Faults(ts, start, Some((Bracket(e, args), end)), POST_LEVEL) == 0
  {
    ListSpells(ts, Spell(ts, start, e), LBracket, args, end, RBracket);
    ListRank(e, args);
  }

  lemma EndsAlike(ts: seq<Token>, s: Spelling, t: Spelling, es: seq<Expr>, close: Token)
    ensures var all, list := EndList(ts, Then(s, t), es, close), EndList(ts, t, es, close);
            all.end == list.end && (all.ok <==> s.ok && list.ok)
  {
  }

  lemma PrefixSpells(ts: seq<Token>, pos: nat, op: UnOp)
    requires pos < |ts| && UnOpAt(ts[pos]) == Some(if op == RefMut then Ref else op) && (op == RefMut ==> Peek(ts, pos + 1) == Mut)
    ensures Prefix(ts, pos, op).ok && Prefix(ts, pos, op).end == if op == RefMut then pos + 2 else pos + 1
  {
  }

  lemma UnaryRank(op: UnOp, operand: Expr)
    ensures Fits(operand, UNARY_LEVEL) ==> Fits(Unary(op, operand), UNARY_LEVEL)
  {
  }

  lemma SpellUnary(ts: seq<Token>, pos: nat, op: UnOp, operand: Expr)
    ensures Spell(ts, pos, Unary(op, operand)) == Then(Prefix(ts, pos, op), Spell(ts, Prefix(ts, pos, op).end, operand))
  {
  }

  lemma UnarySpells(ts: seq<Token>, pos: nat, op: UnOp, start: nat, operand: Expr, end: nat)
    requires Prefix(ts, pos, op).ok && Prefix(ts, pos, op).end == start && Faults(ts, start, Some((operand, end)), UNARY_LEVEL) == 0
    ensures Faults(ts, pos, Some((Unary(op, operand), end)), UNARY_LEVEL) == 0
  {
    UnaryRank(op, operand);
    SpellUnary(ts, pos, op, operand);
  }

  lemma ParenSpells(ts: seq<Token>, pos: nat, inner: Expr, end: nat)
    requires pos < |ts| && ts[pos] == LParen && Faults(ts, pos + 1, Some((inner, end)), 0) == 0
    ensures Faults(ts, pos, Close(ts, Paren(inner), end), OPERAND_LEVEL) == 0
  {
  }

  lemma TupleSpells(ts: seq<Token>, start: nat, pos: nat, es: seq<Expr>)
    requires start < pos <= |ts| && ts[start] == LParen && es != [] && ListFaults(ts, start + 1, es, pos) == 0
    requires if Peek(ts, pos) == Comma then Peek(ts, pos + 1) == RParen else |es| > 1
    ensures Faults(ts, start, Close(ts, Tuple(es), if Peek(ts, pos) == Comma then pos + 1 else pos), OPERAND_LEVEL) == 0
  {
    var s := One(ts, start, LParen);
    var t := Then(s, SpellList(ts, s.end, es));
    assert s.end == start + 1 && t.ok && t.end == pos;
  }

  // ---- Following the parser ----

  lemma {:induction false} LevelIsSound(ts: seq<Token>, pos: nat, level: nat)
    ensures Faults(ts, pos, ParseLevel(ts, pos, level), level) == 0
    decreases |ts| - pos, 20 - level, 0
  {
    if |ts| <= pos || level > OPERAND_LEVEL {
    } else if level <= CAST_LEVEL {
      BinaryIsSound(ts, pos, level);
    } else if level == RESULT_LEVEL {
      ResultIsSound(ts, pos);
    } else if level == UNARY_LEVEL {
      UnaryIsSound(ts, pos);
    } else if level == POST_LEVEL {
      PostOperandIsSound(ts, pos);
    } else {
      OperandIsSound(ts, pos);
    }
  }

  lemma Lower(ts: seq<Token>, pos: nat, r: Parsed, level: nat, lower: nat)
    requires Faults(ts, pos, r, level) == 0 && lower <= level
    ensures Faults(ts, pos, r, lower) == 0
  {
  }

  lemma {:induction false} BinaryIsSound(ts: seq<Token>, pos: nat, level: nat)
    requires pos < |ts| && level <= CAST_LEVEL
    ensures Faults(ts, pos, ParseLevel(ts, pos, level), level) == 0
    decreases |ts| - pos, 19 - level, 1
  {
    LevelIsSound(ts, pos, level + 1);
    var first := ParseLevel(ts, pos, level + 1);
    if first.Some? {
      Lower(ts, pos, first, level + 1, level);
      RestIsSound(ts, level, pos, first.value.0, first.value.1);
    }
  }

  lemma {:induction false} RestIsSound(ts: seq<Token>, level: nat, start: nat, left: Expr, pos: nat)
    requires start < pos <= |ts| && level <= CAST_LEVEL && Faults(ts, start, Some((left, pos)), level) == 0
    ensures Faults(ts, start, ParseRest(ts, level, left, pos), level) == 0
    decreases |ts| - pos, 20, 1
  {
    var op := OpAt(level, Peek(ts, pos));
    if op.Some? && pos < |ts| {
      LevelIsSound(ts, pos + 1, level + 1);
      var right := ParseLevel(ts, pos + 1, level + 1);
      if right.Some? {
        OperatorOfLevel(level, ts[pos]);
        OperatorSpells(ts, level, start, left, pos, op.value, right.value.0, right.value.1);
        RestIsSound(ts, level, start, Binary(op.value, left, right.value.0), right.value.1);
      }
    }
  }

  lemma {:induction false} ResultIsSound(ts: seq<Token>, pos: nat)
    requires pos < |ts|
    ensures Faults(ts, pos, ParseResult(ts, pos), RESULT_LEVEL) == 0
    decreases |ts| - pos, 8, 1
  {
    LevelIsSound(ts, pos, UNARY_LEVEL);
    var value := ParseLevel(ts, pos, UNARY_LEVEL);
    Lower(ts, pos, value, UNARY_LEVEL, RESULT_LEVEL);
    if value.Some? && Peek(ts, value.value.1) == Except {
      LevelIsSound(ts, value.value.1 + 1, RESULT_LEVEL);
      var error := ParseLevel(ts, value.value.1 + 1, RESULT_LEVEL);
      if error.Some? { ResultSpells(ts, pos, value.value.0, value.value.1, error.value.0, error.value.1); }
    }
  }

  lemma {:induction false} UnaryIsSound(ts: seq<Token>, pos: nat)
    requires pos < |ts|
    ensures Faults(ts, pos, ParseUnary(ts, pos), UNARY_LEVEL) == 0
    decreases |ts| - pos, 7, 1
  {
    var op := UnOpAt(ts[pos]);
    if op.None? {
      LevelIsSound(ts, pos, POST_LEVEL);
      Lower(ts, pos, ParseLevel(ts, pos, POST_LEVEL), POST_LEVEL, UNARY_LEVEL);
    } else {
      var isMut := op.value == Ref && Peek(ts, pos + 1) == Mut;
      var start, unOp := if isMut then pos + 2 else pos + 1, if isMut then RefMut else op.value;
      PrefixSpells(ts, pos, unOp);
      LevelIsSound(ts, start, UNARY_LEVEL);
      var operand := ParseLevel(ts, start, UNARY_LEVEL);
      if operand.Some? { UnarySpells(ts, pos, unOp, start, operand.value.0, operand.value.1); }
    }
  }

  lemma {:induction false} PostOperandIsSound(ts: seq<Token>, pos: nat)
    requires pos < |ts|
    ensures Faults(ts, pos, ParseLevel(ts, pos, POST_LEVEL), POST_LEVEL) == 0
    decreases |ts| - pos, 6, 1
  {
    LevelIsSound(ts, pos, OPERAND_LEVEL);
    var first := ParseLevel(ts, pos, OPERAND_LEVEL);
    if first.Some? {
      Lower(ts, pos, first, OPERAND_LEVEL, POST_LEVEL);
      PostIsSound(ts, pos, first.value.0, first.value.1);
    }
  }

  /** Without its list, a call or bracket is not read. */
  lemma PostFails(ts: seq<Token>, e: Expr, pos: nat)
    requires pos < |ts|
    ensures ts[pos] == LParen && ParseArgs(ts, pos + 1, RParen, []).None? ==> ParsePost(ts, e, pos).None?
    ensures ts[pos] == LBracket && ParseArgs(ts, pos + 1, RBracket, []).None? ==> ParsePost(ts, e, pos).None?
  {
  }

  /** The loop goes on only after a dot or an opening token. */
  lemma PostEnds(ts: seq<Token>, e: Expr, pos: nat)
    requires pos <= |ts| && (pos == |ts| || (ts[pos] != Dot && ts[pos] != LParen && ts[pos] != LBracket))
    ensures ParsePost(ts, e, pos) == Some((e, pos))
  {
  }

  lemma {:induction false} PostIsSound(ts: seq<Token>, start: nat, e: Expr, pos: nat)
    requires start < pos <= |ts| && Faults(ts, start, Some((e, pos)), POST_LEVEL) == 0
    ensures Faults(ts, start, ParsePost(ts, e, pos), POST_LEVEL) == 0
    decreases |ts| - pos, 23, 0
  {
    if pos == |ts| || (ts[pos] != Dot && ts[pos] != LParen && ts[pos] != LBracket) {
      PostEnds(ts, e, pos);
    } else if ts[pos] == Dot {
      MemberIsSound(ts, start, e, pos);
    } else if ts[pos] == LParen {
      CallIsSound(ts, start, e, pos);
    } else {
      BracketIsSound(ts, start, e, pos);
    }
  }

  lemma {:induction false} MemberIsSound(ts: seq<Token>, start: nat, e: Expr, pos: nat)
    requires start < pos < |ts| && Faults(ts, start, Some((e, pos)), POST_LEVEL) == 0 && ts[pos] == Dot
    ensures Faults(ts, start, ParsePost(ts, e, pos), POST_LEVEL) == 0
    decreases |ts| - pos, 20, 1
  {
    LevelIsSound(ts, pos + 1, OPERAND_LEVEL);
    var member := ParseLevel(ts, pos + 1, OPERAND_LEVEL);
    if member.Some? {
      MemberSpells(ts, start, e, pos, member.value.0, member.value.1);
      PostIsSound(ts, start, Member(e, member.value.0), member.value.1);
      MemberFollows(ts, e, pos, member.value.0, member.value.1);
    }
  }

  lemma {:induction false} CallIsSound(ts: seq<Token>, start: nat, e: Expr, pos: nat)
    requires start < pos < |ts| && Faults(ts, start, Some((e, pos)), POST_LEVEL) == 0 && ts[pos] == LParen
    ensures Faults(ts, start, ParsePost(ts, e, pos), POST_LEVEL) == 0
    decreases |ts| - pos, 22, 2
  {
    PostFails(ts, e, pos);
    ArgsAreSound(ts, pos + 1, pos + 1, RParen, []);
    var args := ParseArgs(ts, pos + 1, RParen, []);
    if args.Some? { CallGoesOn(ts, start, e, pos, args.value.0, args.value.1); }
  }

  lemma {:induction false} CallGoesOn(ts: seq<Token>, start: nat, e: Expr, pos: nat, args: seq<Expr>, end: nat)
    requires start < pos < |ts| && Faults(ts, start, Some((e, pos)), POST_LEVEL) == 0 && ts[pos] == LParen
    requires ParseArgs(ts, pos + 1, RParen, []) == Some((args, end)) && ArgFaults(ts, pos + 1, Some((args, end)), RParen) == 0
    ensures Faults(ts, start, ParsePost(ts, e, pos), POST_LEVEL) == 0
    decreases |ts| - pos, 22, 1
  {
    CallSpells(ts, start, e, pos, args, end);
    PostIsSound(ts, start, Call(e, args), end);
    CallFollows(ts, e, pos, args, end);
  }

  lemma {:induction false} BracketIsSound(ts: seq<Token>, start: nat, e: Expr, pos: nat)
    requires start < pos < |ts| && Faults(ts, start, Some((e, pos)), POST_LEVEL) == 0 && ts[pos] == LBracket
    ensures Faults(ts, start, ParsePost(ts, e, pos), POST_LEVEL) == 0
    decreases |ts| - pos, 22, 2
  {
    PostFails(ts, e, pos);
    ArgsAreSound(ts, pos + 1, pos + 1, RBracket, []);
    var args := ParseArgs(ts, pos + 1, RBracket, []);
    if args.Some? { BracketGoesOn(ts, start, e, pos, args.value.0, args.value.1); }
  }

  lemma {:induction false} BracketGoesOn(ts: seq<Token>, start: nat, e: Expr, pos: nat, args: seq<Expr>, end: nat)
    requires start < pos < |ts| && Faults(ts, start, Some((e, pos)), POST_LEVEL) == 0 && ts[pos] == LBracket
    requires ParseArgs(ts, pos + 1, RBracket, []) == Some((args, end)) && ArgFaults(ts, pos + 1, Some((args, end)), RBracket) == 0
    ensures Faults(ts, start, ParsePost(ts, e, pos), POST_LEVEL) == 0
    decreases |ts| - pos, 22, 1
  {
    BracketSpells(ts, start, e, pos, args, end);
    PostIsSound(ts, start, Bracket(e, args), end);
    BracketFollows(ts, e, pos, args, end);
  }

  /** The elements so far, and the comma after the last of them. */
  ghost predicate ListSoFar(ts: seq<Token>, start: nat, pos: nat, done: seq<Expr>) {
    if done == [] then pos == start && pos <= |ts|
    else pos > 0 && ListFaults(ts, start, done, pos - 1) == 0 && Peek(ts, pos - 1) == Comma
  }

  lemma ListGoesOn(ts: seq<Token>, start: nat, pos: nat, done: seq<Expr>, e: Expr, end: nat)
    requires ListSoFar(ts, start, pos, done) && Faults(ts, pos, Some((e, end)), 0) == 0
    ensures ListFaults(ts, start, done + [e], end) == 0
  {
    if done == [] {
      assert done + [e] == [e];
      FirstInList(ts, start, e, end);
    } else {
      OneMoreInList(ts, start, done, pos - 1, e, end);
    }
  }

  /** A list that ends after a comma, or before any element. */
  lemma ListEnds(ts: seq<Token>, start: nat, pos: nat, close: Token, done: seq<Expr>)
    requires ListSoFar(ts, start, pos, done) && pos < |ts| && ts[pos] == close
    ensures ArgFaults(ts, start, Some((done, pos + 1)), close) == 0
  {
  }

  /** A list that ends after an element. */
  lemma ListEndsAt(ts: seq<Token>, start: nat, pos: nat, close: Token, done: seq<Expr>)
    requires done != [] && ListFaults(ts, start, done, pos) == 0 && pos < |ts| && ts[pos] == close && close != Comma
    ensures ArgFaults(ts, start, Some((done, pos + 1)), close) == 0
  {
  }

  lemma {:induction false} ArgsAreSound(ts: seq<Token>, start: nat, pos: nat, close: Token, done: seq<Expr>)
    requires start <= pos <= |ts| && ListSoFar(ts, start, pos, done) && close != Comma
    ensures ArgFaults(ts, start, ParseArgs(ts, pos, close, done), close) == 0
    decreases |ts| - pos, 21, 0
  {
    if pos < |ts| && ts[pos] == close {
      ListEnds(ts, start, pos, close, done);
    } else if pos < |ts| {
      LevelIsSound(ts, pos, 0);
      var element := ParseLevel(ts, pos, 0);
      if element.Some? {
        ListGoesOn(ts, start, pos, done, element.value.0, element.value.1);
        ArgsGoOn(ts, start, pos, close, done, element.value.0, element.value.1);
      }
    }
  }

  lemma {:induction false} ArgsGoOn(ts: seq<Token>, start: nat, pos: nat, close: Token, done: seq<Expr>, e: Expr, next: nat)
    requires start <= pos < |ts| && ts[pos] != close && close != Comma
    requires ParseLevel(ts, pos, 0) == Some((e, next)) && ListFaults(ts, start, done + [e], next) == 0
    ensures ArgFaults(ts, start, ParseArgs(ts, pos, close, done), close) == 0
    decreases |ts| - pos, 20, 3
  {
    if next < |ts| && ts[next] == close {
      ListEndsAt(ts, start, next, close, done + [e]);
      LastArg(ts, pos, close, done, e, next);
    } else if next < |ts| && ts[next] == Comma {
      ArgsAreSound(ts, start, next + 1, close, done + [e]);
      OneMoreArg(ts, pos, close, done, e, next);
    } else {
      ArgsFail(ts, pos, close, done, e, next);
    }
  }

  lemma ArgsFail(ts: seq<Token>, pos: nat, close: Token, done: seq<Expr>, e: Expr, next: nat)
    requires pos < |ts| && ts[pos] != close && close != Comma && ParseLevel(ts, pos, 0) == Some((e, next))
    requires next < |ts| ==> ts[next] != close && ts[next] != Comma
    ensures ParseArgs(ts, pos, close, done).None?
  {
  }

  lemma {:induction false} OperandIsSound(ts: seq<Token>, pos: nat)
    requires pos < |ts|
    ensures Faults(ts, pos, ParseOperand(ts, pos), OPERAND_LEVEL) == 0
    decreases |ts| - pos, 5, 1
  {
    if ts[pos] == LParen {
      LevelIsSound(ts, pos + 1, 0);
      var inner := ParseLevel(ts, pos + 1, 0);
      if inner.Some? {
        if Peek(ts, inner.value.1) == Comma {
          FirstInList(ts, pos + 1, inner.value.0, inner.value.1);
          ElementsAreSound(ts, pos, inner.value.1, [inner.value.0]);
        } else {
          ParenSpells(ts, pos, inner.value.0, inner.value.1);
        }
      }
    }
  }

  lemma ElementsClose(ts: seq<Token>, pos: nat, done: seq<Expr>)
    requires pos <= |ts| && (Peek(ts, pos) == Comma ==> Peek(ts, pos + 1) == RParen)
    ensures ParseElements(ts, pos, done) == Close(ts, Tuple(done), if Peek(ts, pos) == Comma then pos + 1 else pos)
  {
  }

  lemma ElementsFail(ts: seq<Token>, pos: nat, done: seq<Expr>)
    requires pos <= |ts| && Peek(ts, pos) == Comma && Peek(ts, pos + 1) != RParen && ParseLevel(ts, pos + 1, 0).None?
    ensures ParseElements(ts, pos, done).None?
  {
  }

  lemma {:induction false} ElementsAreSound(ts: seq<Token>, start: nat, pos: nat, done: seq<Expr>)
    requires start < pos <= |ts| && ts[start] == LParen && done != [] && ListFaults(ts, start + 1, done, pos) == 0
    requires |done| == 1 ==> Peek(ts, pos) == Comma
    ensures Faults(ts, start, ParseElements(ts, pos, done), OPERAND_LEVEL) == 0
    decreases |ts| - pos, 21, 0
  {
    if Peek(ts, pos) == Comma && Peek(ts, pos + 1) != RParen {
      LevelIsSound(ts, pos + 1, 0);
      var element := ParseLevel(ts, pos + 1, 0);
      if element.Some? { ElementsGoOn(ts, start, pos, done, element.value.0, element.value.1); } else { ElementsFail(ts, pos, done); }
    } else {
      TupleSpells(ts, start, pos, done);
      ElementsClose(ts, pos, done);
    }
  }

  lemma {:induction false} ElementsGoOn(ts: seq<Token>, start: nat, pos: nat, done: seq<Expr>, e: Expr, end: nat)
    requires start < pos && pos + 1 < |ts| && ts[start] == LParen && done != [] && ListFaults(ts, start + 1, done, pos) == 0
    requires ts[pos] == Comma && ts[pos + 1] != RParen && ParseLevel(ts, pos + 1, 0) == Some((e, end))
    requires Faults(ts, pos + 1, Some((e, end)), 0) == 0
    ensures Faults(ts, start, ParseElements(ts, pos, done), OPERAND_LEVEL) == 0
    decreases |ts| - pos, 20, 3
  {
    OneMoreInList(ts, start + 1, done, pos, e, end);
    ElementsAreSound(ts, start, end, done + [e]);
    OneMoreElement(ts, pos, done, e, end);
  }

  // ---- Soundness ----

  /** No liberties: every token taken for a closing parenthesis is one, and no extra comma ends a list. */
  ghost predicate Strict(ts: seq<Token>, pos: nat, e: Expr) {
    Spell(ts, pos, e).commas == 0 && Spell(ts, pos, e).closers == 0
  }

  /**
    What the parser accepts. The tree respects the levels and is spelled by the tokens consumed; and these are exactly the
    tokens of the tree if and only if they take no liberties.
   */
  lemma Soundness(ts: seq<Token>, pos: nat, level: nat, e: Expr, end: nat)
    requires ParseLevel(ts, pos, level) == Some((e, end))
    ensures Fits(e, level) && Spell(ts, pos, e).ok && Spell(ts, pos, e).end == end
    ensures At(ts, pos, end, Yield(e)) <==> Strict(ts, pos, e)
  {
    LevelIsSound(ts, pos, level);
    SpellMeans(ts, pos, e);
  }
}
