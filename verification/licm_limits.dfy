/**
  A loop of the entry block with one other way in, from which the pass moves code to where it comes too late
  (src/banjo/passes/loop_analysis.cpp, src/banjo/passes/licm_pass.cpp).
 */
module LicmLimits {
  import opened RegAllocFunc
  import opened Graph
  import opened Dominance
  import opened LoopAnalysis
  import opened Ssa
  import opened Licm
  import opened LicmPasses

  function BranchFrom(g: Cfg, b: nat, operands: seq<Operand>): SsaInstr
    requires b < |g.nodes|
  {
    var next := g.nodes[b].successors;
    SsaInstr(CJmp(0), None, operands, seq(|next|, k requires 0 <= k < |next| => Target(next[k], [])))
  }

  function Constant(): SsaInstr {
    SsaInstr(Other(0), Some(0), [], [])
  }

  function BlockFor(g: Cfg, b: nat): SsaBlock
    requires b < |g.nodes|
  {
    if b == Entry(g) then SsaBlock([], [Constant(), BranchFrom(g, b, [Register(0)])])
    else SsaBlock([], [BranchFrom(g, b, [])])
  }

  /** Code for any graph: the entry computes a register and branches on it, all other blocks only branch. */
  function CodeFor(g: Cfg): SsaFunc {
    SsaFunc(seq(|g.nodes|, b requires 0 <= b < |g.nodes| => BlockFor(g, b)))
  }

  lemma CodeIsValid(g: Cfg)
    requires ValidCfg(g) && PostOrdered(g)
    ensures ValidSsa(g, CodeFor(g))
  {
    var f := CodeFor(g);
    forall b: nat | b < |f.blocks|
      ensures WellFormedBlock(g, f, b)
    {
      forall k | 0 <= k < |g.nodes[b].successors|
        ensures WellFormedTarget(g, f, b, Target(g.nodes[b].successors[k], []))
      {
        assert (b, g.nodes[b].successors[k]) in CfgEdges(g) && Linked(g, b, g.nodes[b].successors[k]);
      }
    }
    forall b: nat, i: nat | b < |f.blocks| && i < |f.blocks[b].instrs|
      ensures UsesInScope(g, f, b, i)
    {
      forall r | r in UsedRegs(f.blocks[b].instrs[i])
        ensures InScope(g, f, r, b, i)
      {
        assert r == 0 && b == Entry(g) && i == 1;
        assert ReachesUse(g, f, r, b, 1, b, i);
      }
    }
  }

  /** A machine that computes ones, goes to the first target on a one, and leaves otherwise. */
  function Ones(leave: nat): SsaMachine {
    SsaMachine((values, mem) => 0, (values, mem) => mem, (values, mem) => (0, mem), (op, values) => 1, (op, values, mem) => mem,
               (op, values, mem) => if values == [1] then 0 else leave)
  }

  /** Before the move, the entry branches on a one. */
  lemma StartsWithOne(g: Cfg, st: SsaState)
    requires |g.nodes| > 0 && g.nodes[Entry(g)].successors != [] && g.nodes[Entry(g)].successors[0] < |g.nodes|
    ensures RunFunc(Ones(|g.nodes[Entry(g)].successors|), CodeFor(g), Entry(g), st, 1).0.AtBlock?
  {
    var m, instrs := Ones(|g.nodes[Entry(g)].successors|), BlockFor(g, Entry(g)).instrs;
    assert ExecRange(m, instrs, 0, 0, st) == st;
    var now := ExecRange(m, instrs, 0, 1, st);
    assert now == Exec(m, Constant(), st) && Read(now.regs, 0) == 1;
    assert ValuesOf(now.regs, [Register(0)]) == [] + [1];
  }

  /** After it, the entry branches on whatever the register held at the start. */
  lemma StartsWithout(g: Cfg, e: nat)
    requires |g.nodes| > 0 && e < Entry(g)
    ensures RunFunc(Ones(|g.nodes[Entry(g)].successors|), Hoist(CodeFor(g), Entry(g), 0, e), Entry(g), SsaState(map[], map[]), 1).0
         == Returned([0])
  {
    var h := Hoist(CodeFor(g), Entry(g), 0, e);
    var m, st := Ones(|g.nodes[Entry(g)].successors|), SsaState(map[], map[]);
    var branch := BranchFrom(g, Entry(g), [Register(0)]);
    assert h.blocks[Entry(g)].instrs == [branch];
    assert ExecRange(m, h.blocks[Entry(g)].instrs, 0, 0, st) == st;
    assert ValuesOf(st.regs, branch.operands) == [] + [0] == [0];
    assert Branch(m, h, branch, st) == (Returned([0]), st);
  }

  /** The code once the constant has been moved. */
  function MovedFor(g: Cfg, e: nat): SsaFunc
    requires |g.nodes| > 0 && e < Entry(g)
  {
    Hoist(CodeFor(g), Entry(g), 0, e)
  }

  /** Nothing but the constant can be moved, and only out of a loop with the entry block in it. */
  lemma OnlyConstantMoves(g: Cfg, l: Loop, e: nat, b: nat, i: nat)
    requires |g.nodes| > 0 && IsMove(CodeFor(g), l, e, b, i)
    ensures b == Entry(g) && i == 0
  {
  }

  lemma NothingMovesThere(g: Cfg, e: nat, l: Loop, e': nat, b: nat, i: nat)
    requires |g.nodes| > 0 && e < Entry(g) && l.body == {Entry(g)}
    ensures !IsMove(MovedFor(g, e), l, e', b, i)
  {
    assert MovedFor(g, e).blocks[Entry(g)].instrs == [BranchFrom(g, Entry(g), [Register(0)])];
  }

  /** Loops that the entry block does not jump back from do not contain it. */
  lemma OtherLoopsAvoidEntry(g: Cfg, l: Loop)
    requires ValidCfg(g) && IsNaturalLoop(g, l) && IsReported(g, l.tail, l.header) && l.tail != Entry(g)
    ensures Entry(g) !in l.body
  {
    DominatesItself(g, l.header);
    OnlyEntryDominatesEntry(g, l.header);
    if Entry(g) in l.body { HeaderDominatesBody(g, l, Entry(g)); }
  }

  /** The others consist of it. */
  lemma EntryLoopIsItself(g: Cfg, l: Loop, e: nat)
    requires ValidCfg(g) && IsNaturalLoop(g, l) && IsReported(g, l.tail, l.header) && l.tail == Entry(g) && IsOtherWayIn(g, e)
    ensures l.body == {Entry(g)} && l.entries == {e}
  {
    if l.header != Entry(g) { OnlyEntryDominatesEntry(g, l.header); }
    forall n: nat
      ensures n in l.body <==> n == Entry(g)
    {
      NothingAvoidsItself(g, n, Entry(g));
    }
  }

  lemma OtherLoopsChangeNothing(g: Cfg, l: Loop, f': SsaFunc)
    requires |g.nodes| > 0 && Entry(g) !in l.body && LoopDone(l, CodeFor(g), f')
    ensures f' == CodeFor(g)
  {
    if |l.entries| == 1 {
      var e :| e in l.entries;
      var inv: SsaFunc -> bool := h => h == CodeFor(g);
      forall b: nat, i: nat
        ensures !IsMove(CodeFor(g), l, e, b, i)
      {
        if IsMove(CodeFor(g), l, e, b, i) { OnlyConstantMoves(g, l, e, b, i); }
      }
      assert Kept(inv, l, e) && inv(CodeFor(g));
    }
  }

  ghost predicate OneOfTwo(g: Cfg, e: nat, f: SsaFunc)
    requires |g.nodes| > 0 && e < Entry(g)
  {
    f == CodeFor(g) || f == MovedFor(g, e)
  }

  lemma MoveLeadsToOne(g: Cfg, l: Loop, e: nat, h: SsaFunc, b: nat, i: nat)
    requires |g.nodes| > 0 && e < Entry(g) && l.body == {Entry(g)} && OneOfTwo(g, e, h) && IsMove(h, l, e, b, i)
    ensures OneOfTwo(g, e, Hoist(h, b, i, e))
  {
    if h == CodeFor(g) { OnlyConstantMoves(g, l, e, b, i); } else { NothingMovesThere(g, e, l, e, b, i); }
  }

  lemma LeadsToOne(g: Cfg, l: Loop, e: nat, f: SsaFunc, f': SsaFunc)
    requires |g.nodes| > 0 && e < Entry(g) && l.body == {Entry(g)} && OneOfTwo(g, e, f) && Leads(l, e, f, f')
    ensures OneOfTwo(g, e, f')
  {
    var inv: SsaFunc -> bool := h => OneOfTwo(g, e, h);
    forall h, b: nat, i: nat | inv(h) && Workable(h) && IsMove(h, l, e, b, i)
      ensures inv(Hoist(h, b, i, e))
    {
      MoveLeadsToOne(g, l, e, h, b, i);
    }
    assert Kept(inv, l, e) && inv(f);
  }

  lemma EntryLoopMovesConstant(g: Cfg, l: Loop, e: nat, f: SsaFunc, f': SsaFunc)
    requires |g.nodes| > 0 && e < Entry(g) && l.body == {Entry(g)} && l.entries == {e}
    requires f == CodeFor(g) || f == MovedFor(g, e)
    requires LoopDone(l, f, f')
    ensures f' == MovedFor(g, e)
  {
    assert e in l.entries && |l.entries| == 1;
    LeadsToOne(g, l, e, f, f');
    ConstantIsLeft(g, l.body);
  }

  /** Where the constant is still in the loop, there is something to move. */
  lemma ConstantIsLeft(g: Cfg, body: set<nat>)
    requires |g.nodes| > 0 && Entry(g) in body
    ensures !NothingToMoveIn(CodeFor(g), body, LoopDefs(CodeFor(g), body))
  {
    assert CodeFor(g).blocks[Entry(g)].instrs[0] == Constant();
    assert UsedRegs(Constant()) == {};
    assert Invariant(Constant(), LoopDefs(CodeFor(g), body));
  }

  ghost predicate EntryLoopAmong(g: Cfg, loops: seq<Loop>)
    requires |g.nodes| > 0
  {
    exists k :: 0 <= k < |loops| && loops[k].tail == Entry(g)
  }

  lemma EntryLoopNext(g: Cfg, loops: seq<Loop>)
    requires |g.nodes| > 0 && loops != []
    ensures var n := |loops| - 1; EntryLoopAmong(g, loops) <==> EntryLoopAmong(g, loops[..n]) || loops[n].tail == Entry(g)
  {
    var n := |loops| - 1;
    if EntryLoopAmong(g, loops[..n]) {
      var k :| 0 <= k < n && loops[..n][k].tail == Entry(g);
      assert loops[k].tail == Entry(g);
    }
    if EntryLoopAmong(g, loops) {
      var k :| 0 <= k < |loops| && loops[k].tail == Entry(g);
      if k < n { assert loops[..n][k].tail == Entry(g); }
    }
  }

  /** Tails are in order, so the loop of the entry block comes with the last ones. */
  lemma EntryLoopsComeLast(g: Cfg, loops: seq<Loop>)
    requires ValidCfg(g) && loops != [] && InOrderOfTails(loops) && AreNaturalLoops(g, loops)
    requires forall k | 0 <= k < |loops| :: IsReported(g, loops[k].tail, loops[k].header)
    ensures var n := |loops| - 1; loops[n].tail != Entry(g) ==> !EntryLoopAmong(g, loops[..n])
  {
    var n := |loops| - 1;
    if loops[n].tail != Entry(g) {
      assert IsReported(g, loops[n].tail, loops[n].header);
      EdgeIsPredecessor(g, loops[n].tail, loops[n].header);
      forall k | 0 <= k < n
        ensures loops[..n][k].tail != Entry(g)
      {
        assert loops[k].tail <= loops[n].tail;
      }
    }
  }

  lemma OneLoopMore(g: Cfg, e: nat, l: Loop, among: bool, h: SsaFunc, f': SsaFunc)
    requires ValidCfg(g) && IsOtherWayIn(g, e) && e < Entry(g) && IsNaturalLoop(g, l) && IsReported(g, l.tail, l.header)
    requires h == (if among then MovedFor(g, e) else CodeFor(g)) && LoopDone(l, h, f') && (l.tail != Entry(g) ==> !among)
    ensures f' == if among || l.tail == Entry(g) then MovedFor(g, e) else CodeFor(g)
  {
    EdgeIsPredecessor(g, l.tail, l.header);
    if l.tail == Entry(g) {
      EntryLoopIsItself(g, l, e);
      EntryLoopMovesConstant(g, l, e, h, f');
    } else {
      OtherLoopsAvoidEntry(g, l);
      OtherLoopsChangeNothing(g, l, f');
    }
  }

  /** The constant stays until the loop of the entry block is reached, and is not moved back. */
  lemma {:induction false} ConstantGoesThrough(g: Cfg, e: nat, loops: seq<Loop>, f': SsaFunc)
    requires ValidCfg(g) && IsOtherWayIn(g, e) && e < Entry(g) && InOrderOfTails(loops) && AreNaturalLoops(g, loops)
    requires forall k | 0 <= k < |loops| :: IsReported(g, loops[k].tail, loops[k].header)
    requires Through(loops, CodeFor(g), f')
    ensures f' == if EntryLoopAmong(g, loops) then MovedFor(g, e) else CodeFor(g)
  {
    if loops != [] {
      var n := |loops| - 1;
      var l := loops[n];
      var h :| Through(loops[..n], CodeFor(g), h) && LoopDone(l, h, f');
      ConstantGoesThrough(g, e, loops[..n], h);
      EntryLoopNext(g, loops);
      EntryLoopsComeLast(g, loops);
      OneLoopMore(g, e, l, EntryLoopAmong(g, loops[..n]), h, f');
    }
  }

  /**
    For every graph with such a loop there is valid code of which the pass makes code with another meaning. So the pass
    keeps the meaning of all code of a graph if and only if there is no such loop.
   */
  lemma EntryLoopIsSpoiled(g: Cfg, f': SsaFunc)
    requires ValidCfg(g) && PostOrdered(g) && EntryLoopHasOneWayIn(g)
    ensures ValidSsa(g, CodeFor(g))
    ensures PassResult(g, CodeFor(g), f') ==> !SameMeaning(CodeFor(g), f', Entry(g))
  {
    CodeIsValid(g);
    if PassResult(g, CodeFor(g), f') {
      var e: nat :| IsOtherWayIn(g, e);
      var loops: seq<Loop> :| AreReported(g, loops) && Through(loops, CodeFor(g), f');
      var h := Entry(g);
      EdgeIsPredecessor(g, e, h);
      EdgeIsPredecessor(g, h, h);
      forall k | 0 <= k < |loops|
        ensures IsReported(g, loops[k].tail, loops[k].header)
      {
        assert HasLoop(loops, loops[k].tail, loops[k].header);
      }
      assert IsReported(g, h, h) && HasLoop(loops, h, h);
      ConstantGoesThrough(g, e, loops, f');
      MovedDiffers(g, e);
    }
  }

  lemma MovedDiffers(g: Cfg, e: nat)
    requires ValidCfg(g) && e < Entry(g) && (Entry(g), Entry(g)) in CfgEdges(g)
    ensures !SameMeaning(CodeFor(g), MovedFor(g, e), Entry(g))
  {
    var h := Entry(g);
    var next := g.nodes[h].successors;
    assert next != [] && (h, next[0]) in CfgEdges(g) && Linked(g, h, next[0]);
    var st := SsaState(map[], map[]);
    StartsWithOne(g, st);
    StartsWithout(g, e);
    assert !SameRun(CodeFor(g), MovedFor(g, e), h, Ones(|next|), st, 1);
  }
}
