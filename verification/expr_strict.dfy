/**
  Which accepted input takes liberties, told from its tokens alone (src/banjo/parser/expr_parser.cpp): parentheses that do
  not balance mean a wrong closer, and reading the tokens once, one after the other, tells whether a comma is extra.
 */
module ExprStrict {
  import opened RegAllocFunc
  import opened ExprGrammar
  import opened ExprRoundTrip
  import opened ExprSoundness

  // ---- Counting parentheses ----

  function Opens(token: Token): int {
    if token == LParen then 1 else if token == RParen then -1 else 0
  }

  /** How many more parentheses are opened than closed from `lo` up to `hi`. */
  function Parens(ts: seq<Token>, lo: nat, hi: nat): int {
    if hi <= lo || |ts| < hi then 0 else Parens(ts, lo, hi - 1) + Opens(ts[hi - 1])
  }

  // ---- Reading tokens ----

  /** What is open: each has commas of its own, and a group stands where an operand can start. */
  datatype Levels = Bottom | Open(group: bool, commas: nat, outer: Levels)

  /** `operand` and `comma` tell about the last token, `extra` about all. */
  datatype Reader = Reader(levels: Levels, operand: bool, comma: bool, extra: bool)

  /** A group may close with the only comma in it. */
  predicate Single(levels: Levels) {
    levels.Open? && levels.group && levels.commas == 1
  }

  function Read(r: Reader, token: Token): Reader {
    match token
    case Simple(_) => Reader(r.levels, true, false, r.extra)
    case LParen => Reader(Open(!r.operand, 0, r.levels), false, false, r.extra)
    case LBracket => Reader(Open(false, 0, r.levels), false, false, r.extra)
    case Comma => Reader(WithComma(r.levels), false, true, r.extra)
    case RParen => ReadCloser(r)
    case RBracket => ReadCloser(r)
    case _ => Reader(r.levels, false, false, r.extra)
  }

  function WithComma(levels: Levels): Levels {
    if levels.Open? then Open(levels.group, levels.commas + 1, levels.outer) else Bottom
  }

  function ReadCloser(r: Reader): Reader {
    Reader(if r.levels.Open? then r.levels.outer else Bottom, true, false, r.extra || (r.comma && !Single(r.levels)))
  }

  /** Reads the tokens from `lo` up to `hi`. */
  function ReadAll(r: Reader, ts: seq<Token>, lo: nat, hi: nat): Reader {
    if hi <= lo || |ts| < hi then r else Read(ReadAll(r, ts, lo, hi - 1), ts[hi - 1])
  }

  const START: Reader := Reader(Bottom, false, false, false)

  /** Some closer there has a comma right before it and is not the end of a group with no other comma. */
  predicate ExtraComma(ts: seq<Token>, lo: nat, hi: nat) {
    ReadAll(START, ts, lo, hi).extra
  }

  lemma {:induction false} ReadOn(r: Reader, ts: seq<Token>, lo: nat, mid: nat, hi: nat)
    requires lo <= mid <= hi <= |ts|
    ensures ReadAll(r, ts, lo, hi) == ReadAll(ReadAll(r, ts, lo, mid), ts, mid, hi)
  {
    if mid < hi { ReadOn(r, ts, lo, mid, hi - 1); }
  }

  lemma {:induction false} ParensOn(ts: seq<Token>, lo: nat, mid: nat, hi: nat)
    requires lo <= mid <= hi <= |ts|
    ensures Parens(ts, lo, hi) == Parens(ts, lo, mid) + Parens(ts, mid, hi)
  {
    if mid < hi { ParensOn(ts, lo, mid, hi - 1); }
  }

  // ---- What a spelling says about both ----

  /** `open` parentheses stay open and wrong closers are missing; without those, the tokens lead from `r` to `r'`. */
  ghost predicate Goes(ts: seq<Token>, pos: nat, s: Spelling, open: int, r: Reader, r': Reader) {
    s.ok ==>
      && pos <= s.end <= |ts| && s.closers + open <= Parens(ts, pos, s.end) <= 2 * s.closers + open
      && (s.closers == 0 ==> ReadAll(r, ts, pos, s.end) == r')
  }

  lemma ThenGoes(ts: seq<Token>, pos: nat, s: Spelling, open: int, r: Reader, r': Reader, t: Spelling, open': int, r'': Reader, sum: int)
    requires Goes(ts, pos, s, open, r, r') && Goes(ts, s.end, t, open', r', r'') && sum == open + open'
    ensures Goes(ts, pos, Then(s, t), sum, r, r'')
  {
    if s.ok && t.ok {
      ReadOn(r, ts, pos, s.end, t.end);
      ParensOn(ts, pos, s.end, t.end);
    }
  }

  lemma OneGoes(ts: seq<Token>, pos: nat, token: Token, r: Reader)
    ensures Goes(ts, pos, One(ts, pos, token), Opens(token), r, Read(r, token))
  {
    if pos < |ts| {
      assert ReadAll(r, ts, pos, pos) == r;
      assert Parens(ts, pos, pos) == 0;
    }
  }

  lemma ThenOneGoes(ts: seq<Token>, pos: nat, s: Spelling, open: int, r: Reader, r': Reader, token: Token, sum: int)
    requires Goes(ts, pos, s, open, r, r') && sum == open + Opens(token)
    ensures Goes(ts, pos, ThenOne(ts, s, token), sum, r, Read(r', token))
  {
    OneGoes(ts, s.end, token, r');
    ThenGoes(ts, pos, s, open, r, r', One(ts, s.end, token), Opens(token), Read(r', token), sum);
  }

  /** A wrong closer may even open a parenthesis. */
  lemma ThenCloserGoes(ts: seq<Token>, pos: nat, s: Spelling, r: Reader, r': Reader)
    requires Goes(ts, pos, s, 1, r, r')
    ensures Goes(ts, pos, ThenCloser(ts, s), 0, r, ReadCloser(r'))
  {
    var t := Spelling(s.end < |ts|, s.end + 1, 0, if Peek(ts, s.end) == RParen then 0 else 1);
    if s.end < |ts| {
      assert ReadAll(r', ts, s.end, s.end) == r';
      assert Parens(ts, s.end, s.end) == 0;
    }
    assert Goes(ts, s.end, t, -1, r', ReadCloser(r'));
    ThenGoes(ts, pos, s, 1, r, r', t, -1, ReadCloser(r'), 0);
  }

  function AfterComma(ts: seq<Token>, s: Spelling, r: Reader): Reader {
    if Peek(ts, s.end) == Comma then Read(r, Comma) else r
  }

  lemma ThenCommaGoes(ts: seq<Token>, pos: nat, s: Spelling, open: int, r: Reader, r': Reader)
    requires Goes(ts, pos, s, open, r, r')
    ensures Goes(ts, pos, ThenComma(ts, s), open, r, AfterComma(ts, s, r'))
  {
    if Peek(ts, s.end) == Comma { ThenOneGoes(ts, pos, s, open, r, r', Comma, open); }
  }

  // ---- Trees ----

  /** After a tree the same is open as before. */
  function Done(r: Reader, s: Spelling): Reader {
    Reader(r.levels, true, false, r.extra || s.commas > 0)
  }

  /** After a list there are the commas between its elements, too. */
  function ListDone(r: Reader, s: Spelling, n: nat): Reader {
    if n == 0 then r
    else if r.levels.Open? then Reader(Open(r.levels.group, r.levels.commas + n - 1, r.levels.outer), true, false, r.extra || s.commas > 0)
    else Done(r, s)
  }

  ghost predicate TreeGoesFrom(ts: seq<Token>, pos: nat, e: Expr, r: Reader) {
    Goes(ts, pos, Spell(ts, pos, e), 0, r, Done(r, Spell(ts, pos, e)))
  }

  ghost predicate TreeGoes(ts: seq<Token>, pos: nat, e: Expr) {
    forall r: Reader | !r.operand :: TreeGoesFrom(ts, pos, e, r)
  }

  ghost predicate ListGoesFrom(ts: seq<Token>, pos: nat, es: seq<Expr>, r: Reader) {
    Goes(ts, pos, SpellList(ts, pos, es), 0, r, ListDone(r, SpellList(ts, pos, es), |es|))
  }

  ghost predicate ListGoes(ts: seq<Token>, pos: nat, es: seq<Expr>) {
    forall r: Reader | !r.operand && pos <= |ts| :: ListGoesFrom(ts, pos, es, r)
  }

  /** What reads on after an operator. */
  function Inside(r: Reader): Reader {
    Reader(r.levels, false, false, r.extra)
  }

  lemma PrefixGoes(ts: seq<Token>, pos: nat, op: UnOp, r: Reader)
    ensures Goes(ts, pos, Prefix(ts, pos, op), 0, r, Inside(r))
  {
    var first := UnTokens(op)[0];
    OneGoes(ts, pos, first, r);
    ThenOneGoes(ts, pos, One(ts, pos, first), 0, r, Inside(r), Mut, 0);
  }

  lemma UnaryGoes(ts: seq<Token>, pos: nat, op: UnOp, operand: Expr)
    requires TreeGoes(ts, Prefix(ts, pos, op).end, operand)
    ensures TreeGoes(ts, pos, Unary(op, operand))
  {
    forall r: Reader | !r.operand
      ensures TreeGoesFrom(ts, pos, Unary(op, operand), r)
    {
      var s := Prefix(ts, pos, op);
      var t := Spell(ts, s.end, operand);
      PrefixGoes(ts, pos, op, r);
      assert TreeGoesFrom(ts, s.end, operand, Inside(r));
      ThenGoes(ts, pos, s, 0, r, Inside(r), t, 0, Done(Inside(r), t), 0);
      assert Done(Inside(r), t) == Done(r, Then(s, t));
    }
  }

  /** A token between two trees, and what is read of it. */
  ghost predicate Infix(token: Token) {
    Opens(token) == 0 && forall r :: Read(r, token) == Inside(r)
  }

  lemma OperatorIsInfix(op: BinOp)
    ensures Infix(TokenOf(op))
  {
  }

  lemma InfixGoes(ts: seq<Token>, pos: nat, lhs: Expr, token: Token, rhs: Expr, r: Reader)
    requires TreeGoesFrom(ts, pos, lhs, r) && TreeGoes(ts, ThenOne(ts, Spell(ts, pos, lhs), token).end, rhs) && Infix(token)
    ensures var s := ThenTree(ts, Spell(ts, pos, lhs), token, rhs); Goes(ts, pos, s, 0, r, Done(r, s))
  {
    var s := Spell(ts, pos, lhs);
    var t := ThenOne(ts, s, token);
    var u := Spell(ts, t.end, rhs);
    var mid := Inside(Done(r, s));
    ThenOneGoes(ts, pos, s, 0, r, Done(r, s), token, 0);
    assert TreeGoesFrom(ts, t.end, rhs, mid);
    ThenGoes(ts, pos, t, 0, r, mid, u, 0, Done(mid, u), 0);
    assert Done(mid, u) == Done(r, Then(t, u));
  }

  /** A group of one element without a comma. */
  lemma ClosedGoes(ts: seq<Token>, pos: nat, u: Spelling, r: Reader)
    requires var mid := Read(r, LParen); Goes(ts, pos + 1, u, 0, mid, Done(mid, u))
    ensures var s := ThenCloser(ts, Then(One(ts, pos, LParen), u)); Goes(ts, pos, s, 0, r, Done(r, s))
  {
    var s, mid := One(ts, pos, LParen), Read(r, LParen);
    OneGoes(ts, pos, LParen, r);
    ThenGoes(ts, pos, s, 1, r, mid, u, 0, Done(mid, u), 1);
    ThenCloserGoes(ts, pos, Then(s, u), r, Done(mid, u));
  }

  lemma ParenGoes(ts: seq<Token>, pos: nat, inner: Expr)
    requires TreeGoes(ts, pos + 1, inner)
    ensures TreeGoes(ts, pos, Paren(inner))
  {
    forall r: Reader | !r.operand
      ensures TreeGoesFrom(ts, pos, Paren(inner), r)
    {
      assert TreeGoesFrom(ts, pos + 1, inner, Read(r, LParen));
      ClosedGoes(ts, pos, Spell(ts, pos + 1, inner), r);
    }
  }

  lemma SingleGoes(ts: seq<Token>, pos: nat, s: Spelling, r: Reader, mid: Reader, u: Spelling)
    requires Goes(ts, pos, s, 1, r, ListDone(mid, u, 1)) && mid == Read(r, LParen) && !r.operand && s.commas == u.commas
    ensures var t := ThenCloser(ts, ThenOne(ts, s, Comma)); Goes(ts, pos, t, 0, r, Done(r, t))
  {
    var after := ListDone(mid, u, 1);
    ThenOneGoes(ts, pos, s, 1, r, after, Comma, 1);
    ThenCloserGoes(ts, pos, ThenOne(ts, s, Comma), r, Read(after, Comma));
  }

  /** A comma after the last of several elements is extra. */
  lemma ManyGo(ts: seq<Token>, pos: nat, s: Spelling, r: Reader, mid: Reader, u: Spelling, n: nat)
    requires Goes(ts, pos, s, 1, r, ListDone(mid, u, n)) && mid == Read(r, LParen) && n > 1 && s.commas == u.commas
    ensures var t := ThenCloser(ts, ThenComma(ts, s)); Goes(ts, pos, t, 0, r, Done(r, t))
  {
    var after := ListDone(mid, u, n);
    ThenCommaGoes(ts, pos, s, 1, r, after);
    ThenCloserGoes(ts, pos, ThenComma(ts, s), r, AfterComma(ts, s, after));
  }

  lemma TupleGoes(ts: seq<Token>, pos: nat, elements: seq<Expr>)
    requires ListGoes(ts, pos + 1, elements) && elements != []
    ensures TreeGoes(ts, pos, Tuple(elements))
  {
    forall r: Reader | !r.operand
      ensures TreeGoesFrom(ts, pos, Tuple(elements), r)
    {
      var s, u, mid := One(ts, pos, LParen), SpellList(ts, pos + 1, elements), Read(r, LParen);
      if pos < |ts| {
        assert ListGoesFrom(ts, pos + 1, elements, mid);
        OpenedGoes(ts, pos, u, |elements|, r);
        if |elements| == 1 { SingleGoes(ts, pos, Then(s, u), r, mid, u); } else { ManyGo(ts, pos, Then(s, u), r, mid, u, |elements|); }
      }
    }
  }

  lemma OpenedGoes(ts: seq<Token>, pos: nat, u: Spelling, n: nat, r: Reader)
    requires var mid := Read(r, LParen); Goes(ts, pos + 1, u, 0, mid, ListDone(mid, u, n))
    ensures Goes(ts, pos, Then(One(ts, pos, LParen), u), 1, r, ListDone(Read(r, LParen), u, n))
  {
    var mid := Read(r, LParen);
    OneGoes(ts, pos, LParen, r);
    ThenGoes(ts, pos, One(ts, pos, LParen), 1, r, mid, u, 0, ListDone(mid, u, n), 1);
  }

  /** What opens arguments, where no group can start, and what closes them. */
  predicate Brackets(open: Token, close: Token) {
    (open == LParen && close == RParen) || (open == LBracket && close == RBracket)
  }

  lemma NoArgsGo(ts: seq<Token>, pos: nat, s: Spelling, r: Reader, first: Reader, open: Token, close: Token)
    requires Goes(ts, pos, s, Opens(open), r, Read(first, open)) && Brackets(open, close)
    ensures Goes(ts, pos, ThenOne(ts, s, close), 0, r, Reader(first.levels, true, false, first.extra))
  {
    ThenOneGoes(ts, pos, s, Opens(open), r, Read(first, open), close, 0);
  }

  lemma SomeArgsGo(ts: seq<Token>, pos: nat, s: Spelling, r: Reader, first: Reader, open: Token, u: Spelling, n: nat, close: Token)
    requires Goes(ts, pos, s, Opens(open), r, ListDone(Read(first, open), u, n)) && n > 0
    requires first.operand && Brackets(open, close) && s.commas >= u.commas && (first.extra <==> r.extra || s.commas > u.commas)
    ensures var t := ThenOne(ts, ThenComma(ts, s), close);
            Goes(ts, pos, t, 0, r, Reader(first.levels, true, false, r.extra || t.commas > 0))
  {
    var after := ListDone(Read(first, open), u, n);
    ThenCommaGoes(ts, pos, s, Opens(open), r, after);
    ThenOneGoes(ts, pos, ThenComma(ts, s), Opens(open), r, AfterComma(ts, s, after), close, 0);
  }

  lemma ArgsGo(ts: seq<Token>, pos: nat, s: Spelling, open: Token, u: Spelling, args: seq<Expr>, close: Token, r: Reader)
    requires Goes(ts, pos, s, 0, r, Done(r, s)) && Brackets(open, close)
    requires Goes(ts, ThenOne(ts, s, open).end, u, 0, Read(Done(r, s), open), ListDone(Read(Done(r, s), open), u, |args|))
    requires args == [] ==> u.commas == 0
    ensures var t := EndList(ts, Then(ThenOne(ts, s, open), u), args, close); Goes(ts, pos, t, 0, r, Done(r, t))
  {
    var first, t := Done(r, s), ThenOne(ts, s, open);
    var mid := Read(first, open);
    ThenOneGoes(ts, pos, s, 0, r, first, open, Opens(open));
    ThenGoes(ts, pos, t, Opens(open), r, mid, u, 0, ListDone(mid, u, |args|), Opens(open));
    if args == [] {
      NoArgsGo(ts, pos, Then(t, u), r, first, open, close);
    } else {
      SomeArgsGo(ts, pos, Then(t, u), r, first, open, u, |args|, close);
    }
  }

  lemma ListNext(ts: seq<Token>, pos: nat, before: seq<Expr>, last: Expr, r: Reader)
    requires before != [] && ListGoesFrom(ts, pos, before, r) && TreeGoes(ts, ThenOne(ts, SpellList(ts, pos, before), Comma).end, last)
    ensures ListGoesFrom(ts, pos, before + [last], r)
  {
    var s, all := SpellList(ts, pos, before), before + [last];
    var t, first := ThenOne(ts, s, Comma), ListDone(r, s, |before|);
    var u, mid := Spell(ts, t.end, last), Read(first, Comma);
    assert all[..|all| - 1] == before && all[|all| - 1] == last;
    ThenOneGoes(ts, pos, s, 0, r, first, Comma, 0);
    assert TreeGoesFrom(ts, t.end, last, mid);
    ThenGoes(ts, pos, t, 0, r, mid, u, 0, Done(mid, u), 0);
    assert Done(mid, u) == ListDone(r, Then(t, u), |all|);
  }

  lemma InfixTreeGoes(ts: seq<Token>, pos: nat, lhs: Expr, token: Token, rhs: Expr, e: Expr)
    requires Infix(token) && Spell(ts, pos, e) == ThenTree(ts, Spell(ts, pos, lhs), token, rhs)
    requires TreeGoes(ts, pos, lhs) && TreeGoes(ts, ThenOne(ts, Spell(ts, pos, lhs), token).end, rhs)
    ensures TreeGoes(ts, pos, e)
  {
    forall r: Reader | !r.operand
      ensures TreeGoesFrom(ts, pos, e, r)
    {
      assert TreeGoesFrom(ts, pos, lhs, r);
      InfixGoes(ts, pos, lhs, token, rhs, r);
    }
  }

  lemma ArgsTreeGoes(ts: seq<Token>, pos: nat, callee: Expr, open: Token, args: seq<Expr>, close: Token, e: Expr)
    requires Brackets(open, close) && TreeGoes(ts, pos, callee) && ListGoes(ts, ThenOne(ts, Spell(ts, pos, callee), open).end, args)
    requires var s := ThenOne(ts, Spell(ts, pos, callee), open);
             Spell(ts, pos, e) == EndList(ts, Then(s, SpellList(ts, s.end, args)), args, close)
    ensures TreeGoes(ts, pos, e)
  {
    forall r: Reader | !r.operand
      ensures TreeGoesFrom(ts, pos, e, r)
    {
      var s := Spell(ts, pos, callee);
      var end := ThenOne(ts, s, open).end;
      assert TreeGoesFrom(ts, pos, callee, r);
      if end <= |ts| {
        assert ListGoesFrom(ts, end, args, Read(Done(r, s), open));
        ArgsGo(ts, pos, s, open, SpellList(ts, end, args), args, close, r);
      }
    }
  }

  lemma OperandGoes(ts: seq<Token>, pos: nat, kind: nat)
    ensures TreeGoes(ts, pos, Operand(kind))
  {
    forall r: Reader | !r.operand
      ensures TreeGoesFrom(ts, pos, Operand(kind), r)
    {
      OneGoes(ts, pos, Simple(kind), r);
    }
  }

  lemma {:induction false} SpellGoes(ts: seq<Token>, pos: nat, e: Expr)
    requires Rank(e) >= 0
    ensures TreeGoes(ts, pos, e)
    decreases e, 1
  {
    match e
    case Operand(kind) => OperandGoes(ts, pos, kind);
    case Paren(inner) =>
      SpellGoes(ts, pos + 1, inner);
      ParenGoes(ts, pos, inner);
    case Tuple(elements) =>
      SpellListGoes(ts, pos + 1, elements);
      TupleGoes(ts, pos, elements);
    case Unary(op, operand) =>
      SpellGoes(ts, Prefix(ts, pos, op).end, operand);
      UnaryGoes(ts, pos, op, operand);
    case Call(callee, args) =>
      SpellGoes(ts, pos, callee);
      SpellListGoes(ts, ThenOne(ts, Spell(ts, pos, callee), LParen).end, args);
      ArgsTreeGoes(ts, pos, callee, LParen, args, RParen, e);
    case Bracket(base, args) =>
      SpellGoes(ts, pos, base);
      SpellListGoes(ts, ThenOne(ts, Spell(ts, pos, base), LBracket).end, args);
      ArgsTreeGoes(ts, pos, base, LBracket, args, RBracket, e);
    case Binary(_, _, _) => SpellInfixGoes(ts, pos, e);
    case Member(_, _) => SpellInfixGoes(ts, pos, e);
    case ResultType(_, _) => SpellInfixGoes(ts, pos, e);
  }

  lemma {:induction false} SpellInfixGoes(ts: seq<Token>, pos: nat, e: Expr)
    requires (e.Binary? || e.Member? || e.ResultType?) && Rank(e) >= 0
    ensures TreeGoes(ts, pos, e)
    decreases e, 0
  {
    match e
    case Binary(op, lhs, rhs) =>
      SpellGoes(ts, pos, lhs);
      SpellGoes(ts, ThenOne(ts, Spell(ts, pos, lhs), TokenOf(op)).end, rhs);
      OperatorIsInfix(op);
      InfixTreeGoes(ts, pos, lhs, TokenOf(op), rhs, e);
    case Member(owner, member) =>
      SpellGoes(ts, pos, owner);
      SpellGoes(ts, ThenOne(ts, Spell(ts, pos, owner), Dot).end, member);
      InfixTreeGoes(ts, pos, owner, Dot, member, e);
    case ResultType(value, error) =>
      SpellGoes(ts, pos, value);
      SpellGoes(ts, ThenOne(ts, Spell(ts, pos, value), Except).end, error);
      InfixTreeGoes(ts, pos, value, Except, error, e);
  }

  lemma {:induction false} SpellListGoes(ts: seq<Token>, pos: nat, es: seq<Expr>)
    requires AllRanked(es)
    ensures ListGoes(ts, pos, es)
    decreases es, 2
  {
    if |es| == 1 {
      SpellGoes(ts, pos, es[0]);
    } else if es != [] {
      SpellListGoes(ts, pos, es[..|es| - 1]);
      SpellGoes(ts, ThenOne(ts, SpellList(ts, pos, es[..|es| - 1]), Comma).end, es[|es| - 1]);
    }
    forall r: Reader | !r.operand && pos <= |ts|
      ensures ListGoesFrom(ts, pos, es, r)
    {
      if |es| == 1 {
        assert TreeGoesFrom(ts, pos, es[0], r);
      } else if es != [] {
        assert ListGoesFrom(ts, pos, es[..|es| - 1], r);
        ListNext(ts, pos, es[..|es| - 1], es[|es| - 1], r);
        assert es == es[..|es| - 1] + [es[|es| - 1]];
      }
    }
  }

  /**
    What the parser accepts, from the tokens: they are those of the tree if and only if parentheses balance and no closer
    has a comma right before it, but for one with no other comma in a group.
   */
  lemma TokensDecide(ts: seq<Token>, pos: nat, level: nat, e: Expr, end: nat)
    requires ParseLevel(ts, pos, level) == Some((e, end)) && pos <= end <= |ts|
    ensures (Spell(ts, pos, e).closers == 0 <==> Parens(ts, pos, end) == 0) && Parens(ts, pos, end) >= 0
    ensures At(ts, pos, end, Yield(e)) <==> Parens(ts, pos, end) == 0 && !ExtraComma(ts, pos, end)
  {
    Soundness(ts, pos, level, e, end);
    SpellGoes(ts, pos, e);
    assert TreeGoesFrom(ts, pos, e, START);
  }
}
