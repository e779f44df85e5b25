/** Block liveness by a backward fixpoint (src/banjo/codegen/liveness.cpp). */
module Liveness {
  import opened Graph
  import opened RegAllocFunc
  import opened LivenessSpec
  import opened LiveRanges
  import opened FuncRanges

  datatype BlockLiveness = BlockLiveness(defs: set<Reg>, uses: set<Reg>, ins: set<Reg>, outs: set<Reg>)

  /** The result the analysis has to produce: `ins` and `outs` are liveness along paths. */
  ghost predicate ExactBlockLiveness(f: Func, bl: seq<BlockLiveness>) {
    && |bl| == |f.blocks|
    && forall b :: 0 <= b < |f.blocks| ==>
         bl[b] == BlockLiveness(BlockDefs(f.blocks[b]), BlockUses(f.blocks[b]), LiveIns(f, b), LiveOuts(f, b))
  }

  ghost predicate NoDuplicates(s: seq<nat>) {
    forall j, k :: 0 <= j < k < |s| ==> s[j] != s[k]
  }

  /** `indices` lists each block reachable from block 0 exactly once. */
  ghost predicate ListsReachableOnce(f: Func, indices: seq<nat>) {
    NoDuplicates(indices) && forall b: nat :: b in indices <==> Reachable(f, b)
  }

  ghost function Indices(n: nat): (s: set<nat>)
    ensures forall b: nat :: b in s <==> b < n
  {
    if n == 0 then {} else Indices(n - 1) + {n - 1}
  }

  lemma SubsetOfSameSize<T>(a: set<T>, b: set<T>)
    requires a <= b
    ensures |a| <= |b|
    ensures |a| == |b| ==> a == b
  {
    assert b == a + (b - a);
  }

  /** What the depth-first search from block 0 leaves behind is the reachable part of the function, each block once. */
  lemma PostOrderIsReachable(f: Func, indices: seq<nat>, visited: set<nat>)
    requires NoDuplicates(indices)
    requires 0 in visited && forall b: nat :: b in visited <==> b in indices
    requires forall b :: b in indices ==> Reachable(f, b)
    requires Closed(FlowEdges(f), visited)
    ensures ListsReachableOnce(f, indices)
  {
    forall b: nat | Reachable(f, b)
      ensures b in indices
    {
      ClosedContainsReachable(FlowEdges(f), visited, 0, b);
    }
  }

  /** The number of facts found so far; the fixpoint loop makes it grow. */
  ghost function FactCount(bl: seq<BlockLiveness>): nat {
    if bl == [] then 0 else |bl[0].ins| + |bl[0].outs| + FactCount(bl[1..])
  }

  lemma {:induction false} FactCountUpdate(bl: seq<BlockLiveness>, b: nat, l: BlockLiveness)
    requires b < |bl|
    ensures FactCount(bl[b := l]) == FactCount(bl) - |bl[b].ins| - |bl[b].outs| + |l.ins| + |l.outs|
  {
    if b == 0 {
      assert bl[0 := l][1..] == bl[1..];
    } else {
      assert bl[b := l][1..] == bl[1..][b - 1 := l];
      FactCountUpdate(bl[1..], b - 1, l);
    }
  }

  lemma {:induction false} FactCountBound(bl: seq<BlockLiveness>, all: set<Reg>)
    requires forall b :: 0 <= b < |bl| ==> bl[b].ins <= all && bl[b].outs <= all
    ensures FactCount(bl) <= 2 * |all| * |bl|
  {
    if bl != [] {
      SubsetOfSameSize(bl[0].ins, all);
      SubsetOfSameSize(bl[0].outs, all);
      FactCountBound(bl[1..], all);
      assert 2 * |all| * |bl| == 2 * |all| + 2 * |all| * |bl[1..]|;
    }
  }

  /** What holds between any two block visits of the fixpoint loop: only true facts, and only in reachable blocks. */
  ghost predicate Sound(f: Func, bl: seq<BlockLiveness>) {
    && |bl| == |f.blocks|
    && forall b :: 0 <= b < |bl| ==> SoundBlock(f, b, bl[b])
  }

  ghost predicate SoundBlock(f: Func, b: nat, l: BlockLiveness)
    requires b < |f.blocks|
  {
    && l.defs == BlockDefs(f.blocks[b])
    && l.uses == BlockUses(f.blocks[b])
    && l.ins <= LiveIns(f, b)
    && l.outs <= LiveOuts(f, b)
  }

  /** The equations that one visit of block `b` establishes. */
  ghost predicate Settled(f: Func, bl: seq<BlockLiveness>, b: nat)
    requires |bl| == |f.blocks|
  {
    && b < |bl|
    && (forall k | 0 <= k < |f.blocks[b].succs| :: f.blocks[b].succs[k] < |bl| ==> bl[f.blocks[b].succs[k]].ins <= bl[b].outs)
    && bl[b].uses + (bl[b].outs - bl[b].defs) <= bl[b].ins
  }

  ghost function InsOf(bl: seq<BlockLiveness>, succs: seq<nat>): set<Reg> {
    set k, r | 0 <= k < |succs| && succs[k] < |bl| && r in bl[succs[k]].ins :: r
  }

  /** The state after one visit of block `b`. */
  ghost function Visit(f: Func, bl: seq<BlockLiveness>, b: nat): seq<BlockLiveness>
    requires |bl| == |f.blocks| && b < |bl|
  {
    var outs := bl[b].outs + InsOf(bl, f.blocks[b].succs);
    bl[b := bl[b].(ins := bl[b].ins + bl[b].uses + (outs - bl[b].defs), outs := outs)]
  }

  lemma VisitKeepsSound(f: Func, bl: seq<BlockLiveness>, b: nat)
    requires ValidFunc(f) && Reachable(f, b) && Sound(f, bl) && b < |bl|
    ensures Sound(f, Visit(f, bl, b))
  {
    LiveInsEquation(f, b);
    forall r | r in InsOf(bl, f.blocks[b].succs)
      ensures r in LiveOuts(f, b)
    {
      var k :| 0 <= k < |f.blocks[b].succs| && r in bl[f.blocks[b].succs[k]].ins;
      assert SoundBlock(f, f.blocks[b].succs[k], bl[f.blocks[b].succs[k]]);
      LiveIntoSuccessor(f, b, k, r);
    }
    assert SoundBlock(f, b, bl[b]);
    assert SoundBlock(f, b, Visit(f, bl, b)[b]);
  }

  /** The size test sees every change, and a visit without one has settled the block. */
  lemma VisitCounts(f: Func, bl: seq<BlockLiveness>, b: nat)
    requires |bl| == |f.blocks| && b < |bl|
    ensures var l, l' := bl[b], Visit(f, bl, b)[b];
            && (|l'.ins| != |l.ins| || |l'.outs| != |l.outs| <==> Visit(f, bl, b) != bl)
            && (Visit(f, bl, b) != bl ==> FactCount(Visit(f, bl, b)) > FactCount(bl))
            && (Visit(f, bl, b) == bl ==> Settled(f, bl, b))
  {
    var l, l' := bl[b], Visit(f, bl, b)[b];
    SubsetOfSameSize(l.ins, l'.ins);
    SubsetOfSameSize(l.outs, l'.outs);
    FactCountUpdate(bl, b, l');
    if Visit(f, bl, b) == bl {
      assert l.outs + InsOf(bl, f.blocks[b].succs) == l.outs;
      forall k, r | 0 <= k < |f.blocks[b].succs| && f.blocks[b].succs[k] < |bl| && r in bl[f.blocks[b].succs[k]].ins
        ensures r in bl[b].outs
      {
        assert r in InsOf(bl, f.blocks[b].succs);
      }
    }
  }

  ghost predicate SettledFrom(f: Func, bl: seq<BlockLiveness>, order: seq<nat>, i: nat)
    requires |bl| == |f.blocks|
  {
    forall k :: i <= k < |order| ==> Settled(f, bl, order[k])
  }

  lemma VisitInOrder(f: Func, bl: seq<BlockLiveness>, order: seq<nat>, i: nat)
    requires ValidFunc(f) && ListsReachableOnce(f, order) && Sound(f, bl) && i < |order|
    ensures order[i] < |bl| && Sound(f, Visit(f, bl, order[i]))
    ensures Visit(f, bl, order[i]) != bl ==> FactCount(Visit(f, bl, order[i])) > FactCount(bl)
    ensures Visit(f, bl, order[i]) == bl && SettledFrom(f, bl, order, i + 1) ==> SettledFrom(f, bl, order, i)
  {
    assert order[i] in order;
    ReachableIsBlock(f, order[i]);
    VisitKeepsSound(f, bl, order[i]);
    VisitCounts(f, bl, order[i]);
  }

  lemma InitiallySound(f: Func, bl: seq<BlockLiveness>)
    requires |bl| == |f.blocks|
    requires forall b :: 0 <= b < |f.blocks| ==>
      bl[b] == BlockLiveness(BlockDefs(f.blocks[b]), BlockUses(f.blocks[b]), {}, {})
    ensures Sound(f, bl)
  {
  }

  ghost function FactBound(f: Func): nat {
    2 * |AllRegs(f)| * |f.blocks|
  }

  lemma SoundIsBounded(f: Func, bl: seq<BlockLiveness>)
    requires Sound(f, bl)
    ensures FactCount(bl) <= FactBound(f)
  {
    forall b | 0 <= b < |bl|
      ensures bl[b].ins <= AllRegs(f) && bl[b].outs <= AllRegs(f)
    {
      assert SoundBlock(f, b, bl[b]);
    }
    FactCountBound(bl, AllRegs(f));
  }

  /** Once every reachable block is settled, a live path delivers its register to the block it starts from. */
  lemma {:induction false} SettledIsComplete(f: Func, bl: seq<BlockLiveness>, p: seq<nat>, r: Reg)
    requires ValidFunc(f) && Sound(f, bl)
    requires forall b: nat :: Reachable(f, b) ==> Settled(f, bl, b)
    requires LivePath(f, p, r) && Reachable(f, p[0])
    ensures r in bl[p[0]].ins
    decreases |p|
  {
    assert Settled(f, bl, p[0]);
    if |p| > 1 {
      assert (p[0], p[1]) in FlowEdges(f);
      var k :| 0 <= k < |f.blocks[p[0]].succs| && f.blocks[p[0]].succs[k] == p[1];
      SuccessorReachable(f, p[0], k);
      assert LivePath(f, p[1..], r) by {
        assert forall j :: 0 <= j < |p| - 1 ==> p[1..][j] == p[j + 1];
      }
      SettledIsComplete(f, bl, p[1..], r);
    }
  }

  /** A sound and settled state is the exact block liveness. */
  lemma FixpointIsPathLiveness(f: Func, bl: seq<BlockLiveness>, b: nat)
    requires ValidFunc(f) && Sound(f, bl) && b < |bl|
    requires forall c: nat :: Reachable(f, c) ==> Settled(f, bl, c)
    ensures bl[b].ins == LiveIns(f, b) && bl[b].outs == LiveOuts(f, b)
  {
    forall r | r in LiveIns(f, b)
      ensures r in bl[b].ins
    {
      var p :| LivePath(f, p, r) && p[0] == b;
      SettledIsComplete(f, bl, p, r);
    }
    forall r | r in LiveOuts(f, b)
      ensures r in bl[b].outs
    {
      var k :| 0 <= k < |f.blocks[b].succs| && PathLive(f, f.blocks[b].succs[k], r);
      var p :| LivePath(f, p, r) && p[0] == f.blocks[b].succs[k];
      SuccessorReachable(f, b, k);
      SettledIsComplete(f, bl, p, r);
      assert Settled(f, bl, b);
    }
  }

  lemma BeforeNext(i: nat, j: nat)
    ensures forall k: nat, l: nat :: Before(k, l, i, j + 1) <==> (Before(k, l, i, j) || (k == i && l == j))
  {
    forall k: nat, l: nat
      ensures Before(k, l, i, j + 1) <==> (Before(k, l, i, j) || (k == i && l == j))
    {
    }
  }

  lemma FixpointOverOrder(f: Func, bl: seq<BlockLiveness>, order: seq<nat>)
    requires ValidFunc(f) && ListsReachableOnce(f, order) && Sound(f, bl) && SettledFrom(f, bl, order, 0)
    ensures ExactBlockLiveness(f, bl)
  {
    forall b: nat | Reachable(f, b)
      ensures Settled(f, bl, b)
    {
      var k :| 0 <= k < |order| && order[k] == b;
    }
    forall b | 0 <= b < |f.blocks|
      ensures bl[b] == BlockLiveness(BlockDefs(f.blocks[b]), BlockUses(f.blocks[b]), LiveIns(f, b), LiveOuts(f, b))
    {
      assert SoundBlock(f, b, bl[b]);
      FixpointIsPathLiveness(f, bl, b);
    }
  }

  lemma KillIsPhysical(f: Func, b: nat, i: nat, k: nat)
    requires ValidFunc(f) && b < |f.blocks| && i < |f.blocks[b].instrs| && k < |f.blocks[b].instrs[i].regs|
    ensures var op := f.blocks[b].instrs[i].regs[k]; op.usage == Kill ==> op.reg.Physical?
  {
    assert KillsPhysicalOnly(f.blocks[b].instrs[i]);
  }

  /** The sets of registers a block defines, and uses before defining. */
  method CollectUsesAndDefs(block: Block) returns (liveness: BlockLiveness)
    ensures liveness == BlockLiveness(BlockDefs(block), BlockUses(block), {}, {})
  {
    var defs: set<Reg>, uses: set<Reg> := {}, {};
    for i := 0 to |block.instrs|
      invariant forall r :: r in defs <==> exists k: nat, l: nat :: Before(k, l, i, 0) && IsOp(block, r, Def, k, l)
      invariant forall r :: r in uses <==> exists k: nat, l: nat :: Before(k, l, i, 0) && ExposedUseAt(block, r, k, l)
    {
      var regs := block.instrs[i].regs;
      for j := 0 to |regs|
        invariant forall r :: r in defs <==> exists k: nat, l: nat :: Before(k, l, i, j) && IsOp(block, r, Def, k, l)
        invariant forall r :: r in uses <==> exists k: nat, l: nat :: Before(k, l, i, j) && ExposedUseAt(block, r, k, l)
      {
        var operand := regs[j];
        assert IsOp(block, operand.reg, operand.usage, i, j);
        ghost var wasDefs, wasUses := defs, uses;
        if operand.usage == Def {
          defs := defs + {operand.reg};
        } else if operand.usage == Use && operand.reg !in defs {
          assert ExposedUseAt(block, operand.reg, i, j);
          uses := uses + {operand.reg};
        }
        BeforeNext(i, j);
      }
      assert forall k: nat, l: nat, r, u :: IsOp(block, r, u, k, l) ==> (Before(k, l, i + 1, 0) <==> Before(k, l, i, |regs|));
    }
    assert forall k: nat, l: nat, r, u :: IsOp(block, r, u, k, l) ==> Before(k, l, |block.instrs|, 0);
    assert defs == BlockDefs(block) by {
      forall k: nat, l: nat, r | IsOp(block, r, Def, k, l)
        ensures r in BlockDefs(block)
      {
        assert block.instrs[k].regs[l].reg == r;
      }
      forall r | r in BlockDefs(block)
        ensures exists k: nat, l: nat :: IsOp(block, r, Def, k, l)
      {
        var k, l :| 0 <= k < |block.instrs| && 0 <= l < |block.instrs[k].regs|
          && block.instrs[k].regs[l].usage == Def && block.instrs[k].regs[l].reg == r;
        assert IsOp(block, r, Def, k, l);
      }
    }
    assert uses == BlockUses(block) by {
      forall r
        ensures r in uses <==> r in BlockUses(block)
      {
        ExposedUseIsBlockUse(block, r);
      }
    }
    liveness := BlockLiveness(defs, uses, {}, {});
  }

  method CollectAllUsesAndDefs(f: Func) returns (bl: seq<BlockLiveness>)
    ensures |bl| == |f.blocks|
    ensures forall b :: 0 <= b < |f.blocks| ==>
      bl[b] == BlockLiveness(BlockDefs(f.blocks[b]), BlockUses(f.blocks[b]), {}, {})
  {
    bl := [];
    for i := 0 to |f.blocks|
      invariant |bl| == i
      invariant forall b :: 0 <= b < i ==> bl[b] == BlockLiveness(BlockDefs(f.blocks[b]), BlockUses(f.blocks[b]), {}, {})
    {
      var liveness := CollectUsesAndDefs(f.blocks[i]);
      bl := bl + [liveness];
    }
  }

  class LivenessAnalysis {
    const func: Func
    var blockLiveness: seq<BlockLiveness>
    var regRanges: map<Reg, seq<LiveRange>>
    var killPoints: seq<KillPoint>

    constructor (func: Func)
      ensures this.func == func && blockLiveness == [] && regRanges == map[] && killPoints == []
    {
      this.func := func;
      blockLiveness, regRanges, killPoints := [], map[], [];
    }

    /** The whole analysis: block liveness first, then ranges. */
    method Compute()
      requires ValidFunc(func) && regRanges == map[] && killPoints == []
      modifies this
      ensures ExactBlockLiveness(func, blockLiveness)
      ensures RangesFound(func, |func.blocks|, regRanges)
      ensures killPoints == KillsUpTo(func, |func.blocks|)
    {
      blockLiveness := CollectAllUsesAndDefs(func);
      ComputeInsAndOuts();
      ComputePreciseLiveRanges();
    }

    /** Depth-first search; `{blockIndex, 0}` is the initializer list the source inserts. */
    method CollectBlocksPostOrder(blockIndex: nat, indices: seq<nat>, blocksVisited: set<nat>)
      returns (indices': seq<nat>, blocksVisited': set<nat>)
      requires ValidFunc(func) && blockIndex < |func.blocks| && blockIndex !in blocksVisited
      requires blockIndex == 0 || 0 in blocksVisited
      requires NoDuplicates(indices) && forall b :: b in indices ==> b in blocksVisited
      ensures indices <= indices' && blocksVisited <= blocksVisited' && blockIndex in blocksVisited'
      ensures NoDuplicates(indices')
      ensures forall b :: b in blocksVisited' <==> b in blocksVisited || b in indices'
      ensures forall b :: b in indices' && b !in indices ==> b !in blocksVisited && Reaches(FlowEdges(func), blockIndex, b)
      ensures forall a, b :: (a, b) in FlowEdges(func) && a in blocksVisited' && a !in blocksVisited ==> b in blocksVisited'
      decreases Indices(|func.blocks|) - blocksVisited
    {
      blocksVisited' := blocksVisited + {blockIndex, 0};
      indices' := indices;
      var succs := func.blocks[blockIndex].succs;

      for k := 0 to |succs|
        invariant indices <= indices' && blocksVisited + {blockIndex} <= blocksVisited'
        invariant NoDuplicates(indices')
        invariant forall b :: b in blocksVisited' <==> b in blocksVisited || b in indices' || b == blockIndex
        invariant blockIndex !in indices'
        invariant forall b :: b in indices' && b !in indices ==> b !in blocksVisited && Reaches(FlowEdges(func), blockIndex, b)
        invariant forall a, b :: (a, b) in FlowEdges(func) && a in blocksVisited' && a !in blocksVisited && a != blockIndex
                    ==> b in blocksVisited'
        invariant forall j :: 0 <= j < k ==> succs[j] in blocksVisited'
      {
        if succs[k] !in blocksVisited' {
          ghost var before := indices';
          ghost var visitedBefore := blocksVisited';
          indices', blocksVisited' := CollectBlocksPostOrder(succs[k], indices', blocksVisited');
          assert (blockIndex, succs[k]) in FlowEdges(func);
          forall b | b in indices' && b !in before
            ensures Reaches(FlowEdges(func), blockIndex, b)
          {
            ReachesVia(FlowEdges(func), blockIndex, succs[k], b);
          }
        }
      }

      ReachesSelf(FlowEdges(func), blockIndex);
      indices' := indices' + [blockIndex];
    }

    /** Runs the dataflow equations to a fixpoint, visiting the reachable blocks in reverse post-order. */
    method ComputeInsAndOuts()
      requires ValidFunc(func)
      requires |blockLiveness| == |func.blocks|
      requires forall b :: 0 <= b < |func.blocks| ==>
        blockLiveness[b] == BlockLiveness(BlockDefs(func.blocks[b]), BlockUses(func.blocks[b]), {}, {})
      modifies this`blockLiveness
      ensures ExactBlockLiveness(func, blockLiveness)
    {
      var postOrder, visited := CollectBlocksPostOrder(0, [], {});
      assert ListsReachableOnce(func, postOrder) by { PostOrderIsReachable(func, postOrder, visited); }

      InitiallySound(func, blockLiveness);
      SoundIsBounded(func, blockLiveness);
      ghost var bound := FactBound(func);
      var changes := true;
      while changes
        invariant Sound(func, blockLiveness) && FactCount(blockLiveness) <= bound == FactBound(func)
        invariant !changes ==> SettledFrom(func, blockLiveness, postOrder, 0)
        decreases bound - FactCount(blockLiveness) + if changes then 1 else 0
      {
        changes := Sweep(postOrder);
      }
      FixpointOverOrder(func, blockLiveness, postOrder);
    }

    /** One round over all reachable blocks, last block of the post-order first. */
    method Sweep(postOrder: seq<nat>) returns (changes: bool)
      requires ValidFunc(func) && ListsReachableOnce(func, postOrder)
      requires Sound(func, blockLiveness)
      modifies this`blockLiveness
      ensures Sound(func, blockLiveness)
      ensures FactCount(blockLiveness) <= FactBound(func)
      ensures changes ==> FactCount(old(blockLiveness)) < FactCount(blockLiveness)
      ensures !changes ==> blockLiveness == old(blockLiveness) && SettledFrom(func, blockLiveness, postOrder, 0)
    {
      changes := false;
      var i := |postOrder|;
      while i > 0
        invariant 0 <= i <= |postOrder|
        invariant Sound(func, blockLiveness)
        invariant if changes then FactCount(blockLiveness) > FactCount(old(blockLiveness))
                  else blockLiveness == old(blockLiveness) && SettledFrom(func, blockLiveness, postOrder, i)
      {
        i := i - 1;
        VisitInOrder(func, blockLiveness, postOrder, i);
        var changed := VisitBlock(postOrder[i]);
        changes := changes || changed;
      }
      SoundIsBounded(func, blockLiveness);
    }

    /** One visit of the loop body; reports whether the sizes of the block's sets changed. */
    method VisitBlock(blockIndex: nat) returns (changed: bool)
      requires |blockLiveness| == |func.blocks| && blockIndex < |func.blocks|
      requires ValidFunc(func)
      modifies this`blockLiveness
      ensures blockLiveness == Visit(func, old(blockLiveness), blockIndex)
      ensures changed <==> blockLiveness != old(blockLiveness)
    {
      var block := func.blocks[blockIndex];
      var liveness := blockLiveness[blockIndex];
      var outs := UnionWithIns(blockLiveness, liveness.outs, block.succs);
      var ins := liveness.ins + liveness.uses + (outs - liveness.defs);
      changed := |ins| != |liveness.ins| || |outs| != |liveness.outs|;

      VisitCounts(func, blockLiveness, blockIndex);
      blockLiveness := blockLiveness[blockIndex := liveness.(ins := ins, outs := outs)];
    }

    /** Turns block liveness into half-instruction ranges and kill points. */
    method ComputePreciseLiveRanges()
      requires ValidFunc(func) && ExactBlockLiveness(func, blockLiveness)
      requires regRanges == map[] && killPoints == []
      modifies this`regRanges, this`killPoints
      ensures RangesFound(func, |func.blocks|, regRanges)
      ensures killPoints == KillsUpTo(func, |func.blocks|)
    {
      NothingFoundYet(func);
      for b := 0 to |func.blocks|
        invariant RangesFound(func, b, regRanges)
        invariant killPoints == KillsUpTo(func, b)
      {
        if func.blocks[b].instrs != [] {
          ScanBlock(b);
        } else {
          EmptyBlockAddsNothing(func, b, regRanges);
        }
      }
    }

    method ScanBlock(b: nat)
      requires ValidFunc(func) && ExactBlockLiveness(func, blockLiveness)
      requires b < |func.blocks| && func.blocks[b].instrs != []
      requires RangesFound(func, b, regRanges)
      modifies this`regRanges, this`killPoints
      ensures RangesFound(func, b + 1, regRanges)
      ensures killPoints == old(killPoints) + KillsOfInstrs(b, func.blocks[b].instrs, 0)
    {
      ghost var before := regRanges;
      var range := LiveRange(b, Point(0, 0), Point(|func.blocks[b].instrs| - 1, 1));
      regRanges := OpenAll(regRanges, blockLiveness[b].outs, range);
      var liveRegs := blockLiveness[b].outs;
      ScanStarts(func, b, before, regRanges);

      var i := |func.blocks[b].instrs|;
      while i > 0
        invariant 0 <= i <= |func.blocks[b].instrs|
        invariant ScannedDownTo(func, b, regRanges, liveRegs, i)
        invariant killPoints == old(killPoints) + KillsOfInstrs(b, func.blocks[b].instrs, i)
      {
        i := i - 1;
        liveRegs := ScanInstr(b, i, liveRegs);
      }

      ghost var scanned := regRanges;
      LiveInsHaveRanges(func, b, regRanges, liveRegs);
      regRanges := StartAll(regRanges, blockLiveness[b].ins, Point(0, 0));
      ScanFinishes(func, b, scanned, liveRegs, regRanges);
    }

    method ScanInstr(b: nat, i: nat, live: set<Reg>) returns (liveRegs: set<Reg>)
      requires ValidFunc(func) && b < |func.blocks| && i < |func.blocks[b].instrs|
      requires ScannedDownTo(func, b, regRanges, live, i + 1)
      modifies this`regRanges, this`killPoints
      ensures ScannedDownTo(func, b, regRanges, liveRegs, i)
      ensures killPoints == old(killPoints) + KillsOfOps(b, i, func.blocks[b].instrs[i].regs, |func.blocks[b].instrs[i].regs|)
    {
      var regs := func.blocks[b].instrs[i].regs;
      liveRegs := live;
      ScanEntersInstr(func, b, regRanges, liveRegs, i);
      for k := 0 to |regs|
        invariant ScansBlock(func, b, regRanges, liveRegs, i, k)
        invariant killPoints == old(killPoints) + KillsOfOps(b, i, regs, k)
      {
        ApplyOpKeepsStep(func, b, regRanges, liveRegs, i, k);
        KillIsPhysical(func, b, i, k);
        liveRegs := ScanOperand(b, i, regs[k], liveRegs);
      }
      ScanLeavesInstr(func, b, regRanges, liveRegs, i);
    }

    method ScanOperand(b: nat, i: nat, reg: RegOp, live: set<Reg>) returns (liveRegs: set<Reg>)
      requires reg.usage == Kill ==> reg.reg.Physical?
      requires reg.usage == Def && reg.reg in live ==> RangesIn(regRanges, reg.reg) != []
      modifies this`regRanges, this`killPoints
      ensures (regRanges, liveRegs) == ApplyOp(old(regRanges), live, b, i, reg)
      ensures killPoints == old(killPoints) + if reg.usage == Kill then [KillPoint(reg.reg.p, b, i)] else []
    {
      liveRegs := live;
      if reg.usage == Use {
        if reg.reg !in live {
          regRanges := Push(regRanges, reg.reg, LiveRange(b, Point(i, 0), Point(i, 0)));
          liveRegs := live + {reg.reg};
        }
      } else if reg.usage == Def {
        if reg.reg in live {
          var ranges := regRanges[reg.reg];
          regRanges := regRanges[reg.reg := ranges[|ranges| - 1 := ranges[|ranges| - 1].(start := Point(i, 1))]];
          liveRegs := live - {reg.reg};
        } else {
          regRanges := Push(regRanges, reg.reg, LiveRange(b, Point(i, 1), Point(i, 1)));
        }
      } else if reg.usage == UseDef {
        if reg.reg !in live {
          regRanges := Push(regRanges, reg.reg, LiveRange(b, Point(i, 0), Point(i, 1)));
          liveRegs := live + {reg.reg};
        }
      } else if reg.usage == Kill {
        killPoints := killPoints + [KillPoint(reg.reg.p, b, i)];
        liveRegs := live - {reg.reg};
      }
    }
  }

  /** Pushes the same range for every register of a set. */
  method OpenAll(regRanges: map<Reg, seq<LiveRange>>, regs: set<Reg>, range: LiveRange)
    returns (regRanges': map<Reg, seq<LiveRange>>)
    ensures forall r :: RangesIn(regRanges', r) == RangesIn(regRanges, r) + if r in regs then [range] else []
  {
    regRanges' := regRanges;
    var todo := regs;
    while todo != {}
      invariant todo <= regs
      invariant forall r :: RangesIn(regRanges', r) == RangesIn(regRanges, r) + if r in regs && r !in todo then [range] else []
      decreases todo
    {
      var reg :| reg in todo;
      regRanges' := Push(regRanges', reg, range);
      todo := todo - {reg};
    }
  }

  /** `ranges.back().start = p` for every register of a set. */
  method StartAll(regRanges: map<Reg, seq<LiveRange>>, regs: set<Reg>, p: Point)
    returns (regRanges': map<Reg, seq<LiveRange>>)
    requires forall r :: r in regs ==> RangesIn(regRanges, r) != []
    ensures forall r :: RangesIn(regRanges', r) ==
                        if r in regs then SetLastStart(RangesIn(regRanges, r), p) else RangesIn(regRanges, r)
  {
    regRanges' := regRanges;
    var todo := regs;
    while todo != {}
      invariant todo <= regs
      invariant forall r :: RangesIn(regRanges', r) ==
                            if r in regs && r !in todo then SetLastStart(RangesIn(regRanges, r), p) else RangesIn(regRanges, r)
      decreases todo
    {
      var reg :| reg in todo;
      var ranges := regRanges'[reg];
      regRanges' := regRanges'[reg := ranges[|ranges| - 1 := ranges[|ranges| - 1].(start := p)]];
      todo := todo - {reg};
    }
  }

  method UnionWithIns(bl: seq<BlockLiveness>, outs: set<Reg>, succs: seq<nat>) returns (outs': set<Reg>)
    requires forall k :: 0 <= k < |succs| ==> succs[k] < |bl|
    ensures outs' == outs + InsOf(bl, succs)
  {
    outs' := outs;
    for k := 0 to |succs|
      invariant outs' == outs + InsOf(bl, succs[..k])
    {
      assert succs[..k + 1] == succs[..k] + [succs[k]];
      outs' := outs' + bl[succs[k]].ins;
    }
    assert succs[..|succs|] == succs;
  }
}