/** What liveness means: a register is live where some path leads to a read before any redefinition. */
module LivenessSpec {
  import opened Graph
  import opened RegAllocFunc

  function BlockDefs(block: Block): set<Reg> {
    set i, j | 0 <= i < |block.instrs| && 0 <= j < |block.instrs[i].regs| && block.instrs[i].regs[j].usage == Def
      :: block.instrs[i].regs[j].reg
  }

  /** Operand `j` of instruction `i` comes before operand `l` of instruction `k`. */
  predicate Before(i: nat, j: nat, k: nat, l: nat) {
    i < k || (i == k && j < l)
  }

  predicate IsOp(block: Block, r: Reg, u: Usage, i: nat, j: nat) {
    i < |block.instrs| && j < |block.instrs[i].regs| && block.instrs[i].regs[j] == RegOp(r, u)
  }

  /** Operand `(i, j)` uses `r` and no operand before it defines `r`. */
  ghost predicate ExposedUseAt(block: Block, r: Reg, i: nat, j: nat) {
    && IsOp(block, r, Use, i, j)
    && forall k: nat, l: nat :: Before(k, l, i, j) ==> !IsOp(block, r, Def, k, l)
  }

  ghost predicate ExposedUse(block: Block, r: Reg) {
    exists i: nat, j: nat :: ExposedUseAt(block, r, i, j)
  }

  ghost function BlockUses(block: Block): set<Reg> {
    set r | r in InstrsRegs(block.instrs) && ExposedUse(block, r)
  }

  lemma ExposedUseIsBlockUse(block: Block, r: Reg)
    ensures r in BlockUses(block) <==> ExposedUse(block, r)
  {
    if ExposedUse(block, r) {
      var i: nat, j: nat :| ExposedUseAt(block, r, i, j);
      assert block.instrs[i].regs[j].reg == r;
    }
  }

  function FlowEdges(f: Func): Edges {
    set b, k | 0 <= b < |f.blocks| && 0 <= k < |f.blocks[b].succs| :: (b, f.blocks[b].succs[k])
  }

  ghost predicate Reachable(f: Func, b: nat) {
    Reaches(FlowEdges(f), 0, b)
  }

  /** `p` leads from its first block to one that uses `r`, and no earlier block on it defines `r`. */
  ghost predicate LivePath(f: Func, p: seq<nat>, r: Reg) {
    && IsPath(FlowEdges(f), p)
    && (forall k :: 0 <= k < |p| ==> p[k] < |f.blocks|)
    && r in BlockUses(f.blocks[p[|p| - 1]])
    && forall k :: 0 <= k < |p| - 1 ==> r !in BlockDefs(f.blocks[p[k]])
  }

  ghost predicate PathLive(f: Func, b: nat, r: Reg) {
    exists p :: LivePath(f, p, r) && p[0] == b
  }

  ghost predicate LiveAfterBlock(f: Func, b: nat, r: Reg)
    requires b < |f.blocks|
  {
    exists k :: 0 <= k < |f.blocks[b].succs| && PathLive(f, f.blocks[b].succs[k], r)
  }

  /** The block liveness the analysis must find; blocks not reachable from block 0 are never visited. */
  ghost function LiveIns(f: Func, b: nat): set<Reg> {
    if Reachable(f, b) then set r | r in AllRegs(f) && PathLive(f, b, r) else {}
  }

  ghost function LiveOuts(f: Func, b: nat): set<Reg>
    requires b < |f.blocks|
  {
    if Reachable(f, b) then set r | r in AllRegs(f) && LiveAfterBlock(f, b, r) else {}
  }

  lemma PathLiveIsKnownReg(f: Func, b: nat, r: Reg)
    requires PathLive(f, b, r)
    ensures b < |f.blocks| && r in AllRegs(f)
  {
    var p :| LivePath(f, p, r) && p[0] == b;
    assert r in InstrsRegs(f.blocks[p[|p| - 1]].instrs);
  }

  lemma ReachableIsBlock(f: Func, b: nat)
    requires ValidFunc(f) && Reachable(f, b)
    ensures b < |f.blocks|
  {
    var p :| IsPathFromTo(FlowEdges(f), p, 0, b);
    if |p| > 1 {
      assert (p[|p| - 2], p[|p| - 1]) in FlowEdges(f);
    }
  }

  lemma SuccessorReachable(f: Func, b: nat, k: nat)
    requires Reachable(f, b) && b < |f.blocks| && k < |f.blocks[b].succs|
    ensures Reachable(f, f.blocks[b].succs[k])
  {
    assert (b, f.blocks[b].succs[k]) in FlowEdges(f);
    ReachesStep(FlowEdges(f), 0, b, f.blocks[b].succs[k]);
  }

  /** A live path can be extended backwards over a block that does not define the register. */
  lemma LivePathExtend(f: Func, b: nat, k: nat, r: Reg)
    requires b < |f.blocks| && k < |f.blocks[b].succs| && r !in BlockDefs(f.blocks[b])
    requires PathLive(f, f.blocks[b].succs[k], r)
    ensures PathLive(f, b, r)
  {
    var p :| LivePath(f, p, r) && p[0] == f.blocks[b].succs[k];
    var q := [b] + p;
    assert (b, p[0]) in FlowEdges(f);
    forall j | 0 <= j < |q| - 1
      ensures (q[j], q[j + 1]) in FlowEdges(f) && r !in BlockDefs(f.blocks[q[j]])
    {
      if j > 0 { assert q[j] == p[j - 1] && q[j + 1] == p[j]; }
    }
    assert LivePath(f, q, r) && q[0] == b;
  }

  /** A live path that does not end at once goes on from a successor. */
  lemma LivePathTail(f: Func, p: seq<nat>, r: Reg)
    requires LivePath(f, p, r) && r !in BlockUses(f.blocks[p[0]])
    ensures LiveAfterBlock(f, p[0], r) && r !in BlockDefs(f.blocks[p[0]])
  {
    var q := p[1..];
    assert (p[0], p[1]) in FlowEdges(f);
    forall j | 0 <= j < |q| - 1
      ensures (q[j], q[j + 1]) in FlowEdges(f) && r !in BlockDefs(f.blocks[q[j]])
    {
      assert q[j] == p[j + 1] && q[j + 1] == p[j + 2];
    }
    assert LivePath(f, q, r) && q[0] == p[1];
    var k :| 0 <= k < |f.blocks[p[0]].succs| && f.blocks[p[0]].succs[k] == p[1];
  }

  /** Liveness flows backwards over one block. */
  lemma PathLiveUnfold(f: Func, b: nat, r: Reg)
    requires b < |f.blocks|
    ensures PathLive(f, b, r) <==>
            r in BlockUses(f.blocks[b]) || (LiveAfterBlock(f, b, r) && r !in BlockDefs(f.blocks[b]))
  {
    if r in BlockUses(f.blocks[b]) {
      assert LivePath(f, [b], r) && [b][0] == b;
    } else if LiveAfterBlock(f, b, r) && r !in BlockDefs(f.blocks[b]) {
      var k :| 0 <= k < |f.blocks[b].succs| && PathLive(f, f.blocks[b].succs[k], r);
      LivePathExtend(f, b, k, r);
    }
    if PathLive(f, b, r) && r !in BlockUses(f.blocks[b]) {
      var p :| LivePath(f, p, r) && p[0] == b;
      LivePathTail(f, p, r);
    }
  }

  /** The dataflow equation of a reachable block. */
  lemma LiveInsEquation(f: Func, b: nat)
    requires ValidFunc(f) && Reachable(f, b) && b < |f.blocks|
    ensures LiveIns(f, b) == BlockUses(f.blocks[b]) + (LiveOuts(f, b) - BlockDefs(f.blocks[b]))
  {
    forall r
      ensures r in LiveIns(f, b) <==>
              r in BlockUses(f.blocks[b]) || (r in LiveOuts(f, b) && r !in BlockDefs(f.blocks[b]))
    {
      LiveInsEquationAt(f, b, r);
    }
  }

  lemma LiveIntoSuccessor(f: Func, b: nat, k: nat, r: Reg)
    requires Reachable(f, b) && b < |f.blocks| && k < |f.blocks[b].succs|
    requires r in LiveIns(f, f.blocks[b].succs[k])
    ensures r in LiveOuts(f, b)
  {
  }

  lemma LiveInsEquationAt(f: Func, b: nat, r: Reg)
    requires Reachable(f, b) && b < |f.blocks|
    ensures r in LiveIns(f, b) <==>
            r in BlockUses(f.blocks[b]) || (r in LiveOuts(f, b) && r !in BlockDefs(f.blocks[b]))
  {
    PathLiveUnfold(f, b, r);
    if PathLive(f, b, r) { PathLiveIsKnownReg(f, b, r); }
  }
}
