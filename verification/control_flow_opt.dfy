/** The pass that bypasses blocks which only branch (src/banjo/passes/control_flow_opt_pass.cpp). */
module ControlFlowOpt {
  import opened Graph
  import opened RegAllocFunc
  import opened Dominance
  import opened DominatorTrees
  import opened Ssa
  import opened JumpThreading

  // ---- Which registers may be named where ----

  /** Some definition of `r` dominates block `a`. */
  ghost predicate Known(g: Cfg, f: SsaFunc, r: VReg, a: nat)
    requires |g.nodes| > 0
  {
    exists d: nat, k: nat :: KnownFrom(g, f, r, d, k, a)
  }

  ghost predicate KnownFrom(g: Cfg, f: SsaFunc, r: VReg, d: nat, k: nat, a: nat)
    requires |g.nodes| > 0
  {
    DefinedAt(f, r, d, k) && Dominates(g, d, a)
  }

  /** A parameter can be replaced by its argument; any other register must be known in `a`. */
  ghost predicate Replaceable(g: Cfg, f: SsaFunc, params: seq<VReg>, operand: Operand, a: nat)
    requires |g.nodes| > 0
  {
    operand.Register? ==> operand.r in params || Known(g, f, operand.r, a)
  }

  ghost predicate AllReplaceable(g: Cfg, f: SsaFunc, params: seq<VReg>, operands: seq<Operand>, a: nat)
    requires |g.nodes| > 0
  {
    forall k | 0 <= k < |operands| :: Replaceable(g, f, params, operands[k], a)
  }

  ghost predicate BranchReplaceable(g: Cfg, f: SsaFunc, params: seq<VReg>, branch: SsaInstr, a: nat)
    requires |g.nodes| > 0
  {
    && AllReplaceable(g, f, params, branch.operands, a)
    && forall k | 0 <= k < |branch.targets| :: AllReplaceable(g, f, params, branch.targets[k].args, a)
  }

  /** What every step relies on: scoped code whose branches and parameter lists are well formed. */
  ghost predicate Ready(g: Cfg, f: SsaFunc) {
    && WellScoped(g, f) && ArgsFit(f)
    && forall b: nat {:trigger BlockReady(f, b)} | b < |f.blocks| :: BlockReady(f, b)
  }

  ghost predicate BlockReady(f: SsaFunc, b: nat)
    requires b < |f.blocks|
  {
    |f.blocks[b].instrs| > 0 && BranchShape(Last(f, b)) && Distinct(f.blocks[b].params)
  }

  /** Blocks outside the set do not let their parameters escape; the set may hold more than it has to. */
  ghost predicate EscapingCover(f: SsaFunc, escaping: set<nat>) {
    forall t: nat | t < |f.blocks| && t !in escaping :: NoEscape(f, t)
  }

  ghost predicate EscapingAre(f: SsaFunc, escaping: set<nat>) {
    forall t: nat | t < |f.blocks| :: t in escaping <==> !NoEscape(f, t)
  }

  /** When the pass replaces the jump at the end of `a`. */
  ghost predicate JumpApplies(g: Cfg, f: SsaFunc, escaping: set<nat>, a: nat)
    requires |g.nodes| > 0 && a < |f.blocks| && BlockReady(f, a) && Last(f, a).opcode == Jmp
  {
    var t := Last(f, a).targets[0].block;
    t < |f.blocks| && |f.blocks[t].instrs| == 1 && t !in escaping
    && (Last(f, t).opcode == Jmp || IsCondBranch(Last(f, t).opcode))
    && BranchReplaceable(g, f, f.blocks[t].params, Last(f, t), a)
  }

  /** The arm the block `x` leads to is known to take, once the parameters are replaced. */
  function ArmOf(compare: (nat, Value, Value) -> bool, f: SsaFunc, x: Target): Option<nat>
    requires x.block < |f.blocks| && BlockReady(f, x.block)
    ensures var arm := ArmOf(compare, f, x); arm.Some? ==> arm.value < |Last(f, x.block).targets|
  {
    DecidedArm(compare, SubstBranch(f.blocks[x.block].params, x.args, Last(f, x.block)))
  }

  /** When the pass replaces arm `k` of the conditional branch at the end of `a`. */
  ghost predicate ArmApplies(g: Cfg, compare: (nat, Value, Value) -> bool, f: SsaFunc, escaping: set<nat>, a: nat, k: nat)
    requires |g.nodes| > 0 && a < |f.blocks| && BlockReady(f, a) && k < |Last(f, a).targets|
  {
    var x := Last(f, a).targets[k];
    x.block < |f.blocks| && BlockReady(f, x.block) && |f.blocks[x.block].instrs| == 1 && x.block !in escaping
    && ArmOf(compare, f, x).Some?
    && AllReplaceable(g, f, f.blocks[x.block].params, Last(f, x.block).targets[ArmOf(compare, f, x).value].args, a)
  }

  /** The branch that replaces it. */
  function ArmBranch(compare: (nat, Value, Value) -> bool, f: SsaFunc, a: nat, k: nat): SsaInstr
    requires a < |f.blocks| && BlockReady(f, a) && k < |Last(f, a).targets|
    requires Last(f, a).targets[k].block < |f.blocks| && BlockReady(f, Last(f, a).targets[k].block)
    requires ArmOf(compare, f, Last(f, a).targets[k]).Some?
  {
    var x := Last(f, a).targets[k];
    Last(f, a).(targets := Last(f, a).targets[k := ThroughArm(f, x.block, ArmOf(compare, f, x).value, x)])
  }

  // ---- A step keeps every use in scope ----

  /** The graph after the step: what leads from `a` to `t` may now lead to successors of `t`. */
  ghost predicate Rewired(g: Cfg, h: Cfg, a: nat, t: nat) {
    && |h.nodes| == |g.nodes|
    && forall x: nat, y: nat :: (x, y) in CfgEdges(h) ==> (x, y) in CfgEdges(g) || (x == a && (t, y) in CfgEdges(g))
  }

  /** A path of the new graph is a path of the old one with some visits of `t` left out. */
  lemma {:induction false} OldPath(g: Cfg, h: Cfg, a: nat, t: nat, p: seq<nat>, b: nat) returns (q: seq<nat>)
    requires |g.nodes| > 0 && Rewired(g, h, a, t) && (a, t) in CfgEdges(g) && PathTo(h, p, b)
    ensures PathTo(g, q, b) && forall x :: x in q ==> x in p || x == t
    decreases |p|
  {
    if |p| == 1 {
      q := p;
    } else {
      var n := |p| - 1;
      var c := p[n - 1];
      assert (p[n - 1], p[n - 1 + 1]) in CfgEdges(h);
      PrefixPath(h, p, b, n - 1);
      assert p[..n] == p[..n - 1 + 1];
      q := OldPath(g, h, a, t, p[..n], c);
      assert forall x :: x in p[..n] ==> x in p;
      if (c, b) in CfgEdges(g) {
        ExtendPath(g, q, c, b);
        q := q + [b];
      } else {
        ExtendPath(g, q, a, t);
        ExtendPath(g, q + [t], t, b);
        q := q + [t] + [b];
      }
    }
  }

  lemma DominanceKept(g: Cfg, h: Cfg, a: nat, t: nat, d: nat, b: nat)
    requires |g.nodes| > 0 && Rewired(g, h, a, t) && (a, t) in CfgEdges(g) && Dominates(g, d, b) && d != t
    ensures Dominates(h, d, b)
  {
    forall p | PathTo(h, p, b)
      ensures d in p
    {
      var q := OldPath(g, h, a, t, p, b);
      assert d in q;
    }
  }

  /** The operands of the new branch are operands of the old one, or known in `a`. */
  ghost predicate BranchKnown(g: Cfg, f: SsaFunc, a: nat, t: nat, branch: SsaInstr)
    requires |g.nodes| > 0 && a < |f.blocks| && t < |f.blocks| && |f.blocks[a].instrs| > 0
  {
    forall r | r in UsedRegs(branch) :: r in UsedRegs(Last(f, a)) || (r !in f.blocks[t].params && Known(g, f, r, a))
  }

  lemma SamePlaces(f: SsaFunc, a: nat, branch: SsaInstr, r: VReg, d: nat, k: nat)
    requires a < |f.blocks| && |f.blocks[a].instrs| > 0 && Last(f, a).dest.None? && branch.dest.None?
    ensures DefinedAt(f, r, d, k) <==> DefinedAt(Threaded(f, a, branch), r, d, k)
    ensures DefinedAt(f, r, a, k) ==> k <= |f.blocks[a].instrs| - 1
  {
  }

  lemma OnlyParamsDefined(f: SsaFunc, t: nat, r: VReg, k: nat)
    requires Bypassable(f, t)
    ensures DefinedAt(f, r, t, k) ==> r in f.blocks[t].params
  {
    assert f.blocks[t].instrs[0] == Last(f, t);
  }

  lemma OldUseStaysInScope(g: Cfg, h: Cfg, f: SsaFunc, a: nat, t: nat, branch: SsaInstr, r: VReg, b: nat, i: nat)
    requires |g.nodes| > 0 && Rewired(g, h, a, t) && (a, t) in CfgEdges(g) && Bypassable(f, t)
    requires a < |f.blocks| && |f.blocks[a].instrs| > 0 && Last(f, a).dest.None? && branch.dest.None?
    requires InScope(g, f, r, b, i) && (b != t ==> r !in f.blocks[t].params)
    ensures InScope(h, Threaded(f, a, branch), r, b, i)
  {
    var d: nat, k: nat :| ReachesUse(g, f, r, d, k, b, i);
    SamePlaces(f, a, branch, r, d, k);
    if d != b {
      OnlyParamsDefined(f, t, r, k);
      DominanceKept(g, h, a, t, d, b);
    }
    assert ReachesUse(h, Threaded(f, a, branch), r, d, k, b, i);
  }

  lemma NewUseIsInScope(g: Cfg, h: Cfg, f: SsaFunc, a: nat, t: nat, branch: SsaInstr, r: VReg)
    requires |g.nodes| > 0 && Rewired(g, h, a, t) && (a, t) in CfgEdges(g) && Bypassable(f, t)
    requires a < |f.blocks| && |f.blocks[a].instrs| > 0 && Last(f, a).dest.None? && branch.dest.None?
    requires r !in f.blocks[t].params && Known(g, f, r, a)
    ensures InScope(h, Threaded(f, a, branch), r, a, |f.blocks[a].instrs| - 1)
  {
    var d: nat, k: nat :| KnownFrom(g, f, r, d, k, a);
    SamePlaces(f, a, branch, r, d, k);
    OnlyParamsDefined(f, t, r, k);
    if d != a { DominanceKept(g, h, a, t, d, a); }
    assert ReachesUse(h, Threaded(f, a, branch), r, d, k, a, |f.blocks[a].instrs| - 1);
  }

  lemma UseIsNoParam(f: SsaFunc, t: nat, b: nat, i: nat, r: VReg)
    requires Bypassable(f, t) && b < |f.blocks| && i < |f.blocks[b].instrs| && b != t && r in UsedRegs(f.blocks[b].instrs[i])
    ensures r !in f.blocks[t].params
  {
  }

  /** Every use is still reached by its definition, in the graph the step leaves behind. */
  lemma ThreadKeepsScope(g: Cfg, h: Cfg, f: SsaFunc, a: nat, t: nat, branch: SsaInstr, b: nat, i: nat)
    requires Ready(g, f) && Rewired(g, h, a, t) && (a, t) in CfgEdges(g) && Bypassable(f, t)
    requires a < |f.blocks| && branch.dest.None? && BranchKnown(g, f, a, t, branch)
    requires b < |f.blocks| && i < |Threaded(f, a, branch).blocks[b].instrs|
    ensures UsesInScope(h, Threaded(f, a, branch), b, i)
  {
    var f', n := Threaded(f, a, branch), |f.blocks[a].instrs| - 1;
    assert BlockReady(f, a) && UsesInScope(g, f, b, i);
    forall r | r in UsedRegs(f'.blocks[b].instrs[i])
      ensures InScope(h, f', r, b, i)
    {
      if b == a && i == n && r !in UsedRegs(Last(f, a)) {
        NewUseIsInScope(g, h, f, a, t, branch, r);
      } else {
        assert r in UsedRegs(f.blocks[b].instrs[i]);
        if b != t { UseIsNoParam(f, t, b, i, r); }
        OldUseStaysInScope(g, h, f, a, t, branch, r, b, i);
      }
    }
  }

  // ---- What the new branch names ----

  /** A register of the new branch comes from the old one, or from the branch of `t` and is no parameter there. */
  ghost predicate NamesOf(f: SsaFunc, a: nat, t: nat, r: VReg)
    requires a < |f.blocks| && t < |f.blocks| && |f.blocks[a].instrs| > 0 && |f.blocks[t].instrs| > 0
  {
    r in UsedRegs(Last(f, a)) || (r !in f.blocks[t].params && r in UsedRegs(Last(f, t)))
  }

  lemma SubstNames(f: SsaFunc, a: nat, t: nat, x: Target, operands: seq<Operand>, r: VReg)
    requires a < |f.blocks| && t < |f.blocks| && |f.blocks[a].instrs| > 0 && |f.blocks[t].instrs| > 0
    requires x in Last(f, a).targets && |x.args| == |f.blocks[t].params| && OperandRegs(operands) <= UsedRegs(Last(f, t))
    requires r in OperandRegs(SubstAll(f.blocks[t].params, x.args, operands))
    ensures NamesOf(f, a, t, r)
  {
    SubstRegs(f.blocks[t].params, x.args, operands, r);
    TargetRegsUsed(Last(f, a), x, r);
  }

  lemma TargetRegsUsed(branch: SsaInstr, x: Target, r: VReg)
    requires x in branch.targets
    ensures r in OperandRegs(x.args) ==> r in UsedRegs(branch)
  {
    var k :| 0 <= k < |branch.targets| && branch.targets[k] == x;
    if r in OperandRegs(x.args) { assert r in OperandRegs(branch.targets[k].args); }
  }

  lemma JumpNames(f: SsaFunc, a: nat, t: nat, r: VReg)
    requires a < |f.blocks| && t < |f.blocks| && |f.blocks[a].instrs| > 0 && |f.blocks[t].instrs| > 0
    requires |Last(f, a).targets| == 1 && |Last(f, a).targets[0].args| == |f.blocks[t].params|
    requires r in UsedRegs(ThroughJump(f, t, Last(f, a)))
    ensures NamesOf(f, a, t, r)
  {
    var x, params, branch := Last(f, a).targets[0], f.blocks[t].params, ThroughJump(f, t, Last(f, a));
    if r in OperandRegs(branch.operands) {
      SubstNames(f, a, t, x, Last(f, t).operands, r);
    } else {
      var k :| 0 <= k < |branch.targets| && r in OperandRegs(branch.targets[k].args);
      TargetWithinUsed(Last(f, t), k);
      SubstNames(f, a, t, x, Last(f, t).targets[k].args, r);
    }
  }

  lemma TargetWithinUsed(branch: SsaInstr, k: nat)
    requires k < |branch.targets|
    ensures OperandRegs(branch.targets[k].args) <= UsedRegs(branch)
  {
    forall r | r in OperandRegs(branch.targets[k].args)
      ensures r in UsedRegs(branch)
    {
      TargetRegsUsed(branch, branch.targets[k], r);
    }
  }

  lemma ArmNames(compare: (nat, Value, Value) -> bool, f: SsaFunc, a: nat, k: nat, r: VReg)
    requires a < |f.blocks| && BlockReady(f, a) && k < |Last(f, a).targets| && Last(f, a).targets[k].block < |f.blocks|
    requires BlockReady(f, Last(f, a).targets[k].block) && ArmOf(compare, f, Last(f, a).targets[k]).Some?
    requires |Last(f, a).targets[k].args| == |f.blocks[Last(f, a).targets[k].block].params|
    requires r in UsedRegs(ArmBranch(compare, f, a, k))
    ensures NamesOf(f, a, Last(f, a).targets[k].block, r)
  {
    var x, branch := Last(f, a).targets[k], ArmBranch(compare, f, a, k);
    if r !in OperandRegs(branch.operands) {
      var j :| 0 <= j < |branch.targets| && r in OperandRegs(branch.targets[j].args);
      if j == k {
        var arm := ArmOf(compare, f, x).value;
        TargetWithinUsed(Last(f, x.block), arm);
        SubstNames(f, a, x.block, x, Last(f, x.block).targets[arm].args, r);
      } else {
        TargetRegsUsed(Last(f, a), Last(f, a).targets[j], r);
      }
    }
  }

  /** After a step the set of blocks with escaping parameters is still large enough. */
  lemma StepKeepsCover(f: SsaFunc, escaping: set<nat>, a: nat, t: nat, branch: SsaInstr)
    requires EscapingCover(f, escaping) && a < |f.blocks| && t < |f.blocks| && |f.blocks[a].instrs| > 0 && |f.blocks[t].instrs| > 0
    requires forall r | r in UsedRegs(branch) :: NamesOf(f, a, t, r)
    ensures EscapingCover(Threaded(f, a, branch), escaping)
  {
    var f' := Threaded(f, a, branch);
    forall u: nat | u < |f'.blocks| && u !in escaping
      ensures NoEscape(f', u)
    {
      forall b: nat, i: nat | b < |f'.blocks| && b != u && i < |f'.blocks[b].instrs|
        ensures forall r :: r in UsedRegs(f'.blocks[b].instrs[i]) ==> r !in f'.blocks[u].params
      {
        CoverAt(f, a, t, branch, u, b, i);
      }
    }
  }

  lemma CoverAt(f: SsaFunc, a: nat, t: nat, branch: SsaInstr, u: nat, b: nat, i: nat)
    requires a < |f.blocks| && t < |f.blocks| && |f.blocks[a].instrs| > 0 && |f.blocks[t].instrs| > 0
    requires u < |f.blocks| && NoEscape(f, u) && forall r | r in UsedRegs(branch) :: NamesOf(f, a, t, r)
    requires b < |f.blocks| && b != u && i < |Threaded(f, a, branch).blocks[b].instrs|
    ensures forall r :: r in UsedRegs(Threaded(f, a, branch).blocks[b].instrs[i]) ==> r !in f.blocks[u].params
  {
    var instr := Threaded(f, a, branch).blocks[b].instrs[i];
    assert f.blocks[t].instrs[|f.blocks[t].instrs| - 1] == Last(f, t);
    forall r | r in UsedRegs(instr)
      ensures r !in f.blocks[u].params
    {
      assert instr == f.blocks[b].instrs[i] || (b == a && NamesOf(f, a, t, r));
      if b == a && i == |f.blocks[a].instrs| - 1 { assert f.blocks[a].instrs[i] == Last(f, a); }
    }
  }

  /** What the pass checks before a step makes every register of the new branch known in `a`. */
  lemma NamesAreKnown(g: Cfg, f: SsaFunc, a: nat, t: nat, operands: seq<Operand>, r: VReg)
    requires |g.nodes| > 0 && t < |f.blocks| && AllReplaceable(g, f, f.blocks[t].params, operands, a)
    requires r in OperandRegs(operands) && r !in f.blocks[t].params
    ensures Known(g, f, r, a)
  {
    var k :| 0 <= k < |operands| && operands[k].Register? && operands[k].r == r;
    assert Replaceable(g, f, f.blocks[t].params, operands[k], a);
  }

  // ---- Steps with a dominator tree that is out of date ----

  ghost function PredsOf(f: SsaFunc, b: nat, n: nat): seq<nat>
    requires n <= |f.blocks|
  {
    if n == 0 then []
    else PredsOf(f, b, n - 1) + if BranchesTo(f, n - 1, b) then [n - 1] else []
  }

  predicate BranchesTo(f: SsaFunc, a: nat, b: nat) {
    a < |f.blocks| && |f.blocks[a].instrs| > 0 && exists k | 0 <= k < |Last(f, a).targets| :: Last(f, a).targets[k].block == b
  }

  function SuccsOf(f: SsaFunc, a: nat): seq<nat>
    requires a < |f.blocks|
  {
    if |f.blocks[a].instrs| == 0 then []
    else
      var targets := Last(f, a).targets;
      seq(|targets|, k requires 0 <= k < |targets| => targets[k].block)
  }

  /** The control-flow graph of the function as it is now. */
  ghost function GraphOf(f: SsaFunc): (g: Cfg)
    ensures |g.nodes| == |f.blocks|
  {
    Cfg(seq(|f.blocks|, b requires 0 <= b < |f.blocks| => Node(PredsOf(f, b, |f.blocks|), SuccsOf(f, b))))
  }

  lemma {:induction false} PredsAre(f: SsaFunc, b: nat, n: nat, a: nat)
    requires n <= |f.blocks|
    ensures a in PredsOf(f, b, n) <==> a < n && BranchesTo(f, a, b)
  {
    if n > 0 { PredsAre(f, b, n - 1, a); }
  }

  lemma EdgesAre(f: SsaFunc, a: nat, b: nat)
    ensures (a, b) in CfgEdges(GraphOf(f)) <==> BranchesTo(f, a, b)
  {
    if BranchesTo(f, a, b) {
      var k :| 0 <= k < |Last(f, a).targets| && Last(f, a).targets[k].block == b;
      assert GraphOf(f).nodes[a].successors[k] == b;
    }
  }

  lemma GraphIsValid(f: SsaFunc)
    requires |f.blocks| > 0 && ArgsFit(f)
    ensures ValidCfg(GraphOf(f))
  {
    forall a: nat, b: nat
      ensures Linked(GraphOf(f), a, b)
    {
      EdgesAre(f, a, b);
      PredsAre(f, b, |f.blocks|, a);
      if BranchesTo(f, a, b) {
        var k :| 0 <= k < |Last(f, a).targets| && Last(f, a).targets[k].block == b;
        assert BranchFits(f, a) && Last(f, a).targets[k] in Last(f, a).targets;
      }
    }
  }

  /** Dominance that the old graph promises still holds, unless the dominating block has been bypassed. */
  ghost predicate StillDominates(g: Cfg, h: Cfg, bypassed: set<nat>) {
    && |g.nodes| == |h.nodes| > 0
    && forall d: nat, b: nat {:trigger Dominates(g, d, b)} :: d !in bypassed && Dominates(g, d, b) ==> Dominates(h, d, b)
  }

  /** Blocks that have been bypassed only branch, and their parameters do not escape. */
  ghost predicate OnlyBranch(f: SsaFunc, escaping: set<nat>, bypassed: set<nat>) {
    forall d: nat | d in bypassed :: d < |f.blocks| && |f.blocks[d].instrs| == 1 && d !in escaping
  }

  /** Everything an iteration keeps, while `g` stays the graph its dominator tree was built for. */
  ghost predicate Consistent(g: Cfg, f: SsaFunc, escaping: set<nat>, bypassed: set<nat>) {
    && Ready(GraphOf(f), f) && EscapingCover(f, escaping)
    && StillDominates(g, GraphOf(f), bypassed) && OnlyBranch(f, escaping, bypassed)
  }

  /** A block whose parameters do not escape, and which only branches, defines nothing that the branch of `t` takes from outside. */
  lemma DefinesElsewhere(f: SsaFunc, d: nat, t: nat, r: VReg, k: nat)
    requires d < |f.blocks| && t < |f.blocks| && |f.blocks[t].instrs| > 0 && r in UsedRegs(Last(f, t)) && r !in f.blocks[t].params
    requires NoEscape(f, d) && |f.blocks[d].instrs| == 1 && Last(f, d).dest.None?
    ensures !DefinedAt(f, r, d, k)
  {
    assert f.blocks[t].instrs[|f.blocks[t].instrs| - 1] == Last(f, t);
    assert f.blocks[d].instrs[0] == Last(f, d);
  }

  /** A use of a register that the old graph knows is in scope in the graph as it is now. */
  lemma StillKnown(g: Cfg, f: SsaFunc, escaping: set<nat>, bypassed: set<nat>, t: nat, r: VReg, a: nat)
    requires Consistent(g, f, escaping, bypassed) && t < |f.blocks| && |f.blocks[t].instrs| > 0
    requires r in UsedRegs(Last(f, t)) && r !in f.blocks[t].params && Known(g, f, r, a)
    ensures Known(GraphOf(f), f, r, a)
  {
    var d: nat, k: nat :| KnownFrom(g, f, r, d, k, a);
    assert BlockReady(f, d);
    if |f.blocks[d].instrs| == 1 && d !in escaping { DefinesElsewhere(f, d, t, r, k); }
    assert d !in bypassed;
    assert KnownFrom(GraphOf(f), f, r, d, k, a);
  }

  /** What a branch put in place of that of `a` may look like: it leads where the old one or the branch of `t` leads. */
  ghost predicate LeadsOn(f: SsaFunc, a: nat, t: nat, branch: SsaInstr)
    requires a < |f.blocks| && t < |f.blocks| && |f.blocks[a].instrs| > 0 && |f.blocks[t].instrs| > 0
  {
    && BranchShape(branch)
    && forall x {:trigger TargetFits(f, x)} :: x in branch.targets ==>
         TargetFits(f, x) && (BranchesTo(f, a, x.block) || BranchesTo(f, t, x.block))
  }

  /** A branch of the new names that the pass has checked. */
  ghost predicate Checked(g: Cfg, f: SsaFunc, a: nat, t: nat, branch: SsaInstr)
    requires |g.nodes| > 0 && a < |f.blocks| && t < |f.blocks| && |f.blocks[a].instrs| > 0 && |f.blocks[t].instrs| > 0
  {
    forall r | r in UsedRegs(branch) ::
      r in UsedRegs(Last(f, a)) || (r !in f.blocks[t].params && r in UsedRegs(Last(f, t)) && Known(g, f, r, a))
  }

  lemma ThreadedEdges(f: SsaFunc, a: nat, t: nat, branch: SsaInstr)
    requires a < |f.blocks| && t < |f.blocks| && |f.blocks[a].instrs| > 0 && |f.blocks[t].instrs| > 0 && LeadsOn(f, a, t, branch)
    ensures Rewired(GraphOf(f), GraphOf(Threaded(f, a, branch)), a, t)
  {
    var f' := Threaded(f, a, branch);
    forall x: nat, y: nat | (x, y) in CfgEdges(GraphOf(f'))
      ensures (x, y) in CfgEdges(GraphOf(f)) || (x == a && (t, y) in CfgEdges(GraphOf(f)))
    {
      EdgesAre(f', x, y);
      EdgesAre(f, x, y);
      EdgesAre(f, t, y);
      if x == a {
        var k :| 0 <= k < |Last(f', a).targets| && Last(f', a).targets[k].block == y;
        assert branch.targets[k] in branch.targets && TargetFits(f, branch.targets[k]);
      } else if BranchesTo(f', x, y) {
        assert Last(f', x) == Last(f, x);
      }
    }
  }

  lemma ThreadedShape(f: SsaFunc, a: nat, t: nat, branch: SsaInstr)
    requires Ready(GraphOf(f), f) && a < |f.blocks| && t < |f.blocks| && |f.blocks[a].instrs| > 0 && |f.blocks[t].instrs| > 0
    requires LeadsOn(f, a, t, branch)
    ensures ArgsFit(Threaded(f, a, branch)) && UniqueDefs(Threaded(f, a, branch))
    ensures forall b: nat {:trigger BlockReady(Threaded(f, a, branch), b)} | b < |f.blocks| :: BlockReady(Threaded(f, a, branch), b)
  {
    var f' := Threaded(f, a, branch);
    assert BlockReady(f, a) && Last(f', a) == branch;
    forall b: nat
      ensures BranchFits(f', b)
      ensures b < |f.blocks| ==> BlockReady(f', b)
    {
      assert BranchFits(f, b) && (b < |f.blocks| ==> BlockReady(f, b));
      if b == a {
        forall x | x in branch.targets
          ensures TargetFits(f', x)
        {
          assert TargetFits(f, x);
        }
      } else if b < |f.blocks| && |f.blocks[b].instrs| > 0 {
        forall x | x in Last(f, b).targets
          ensures TargetFits(f', x)
        {
          assert TargetFits(f, x);
        }
      }
    }
    forall r, b: nat, k: nat, c: nat, l: nat | DefinedAt(f', r, b, k) && DefinedAt(f', r, c, l)
      ensures b == c && k == l
    {
      SamePlaces(f, a, branch, r, b, k);
      SamePlaces(f, a, branch, r, c, l);
    }
  }

  lemma BlocksAreWellFormed(f: SsaFunc, b: nat)
    requires ArgsFit(f) && b < |f.blocks| && BlockReady(f, b)
    ensures WellFormedBlock(GraphOf(f), f, b)
  {
    var last := Last(f, b);
    forall x | x in last.targets
      ensures WellFormedTarget(GraphOf(f), f, b, x)
    {
      assert BranchFits(f, b) && TargetFits(f, x);
      EdgesAre(f, b, x.block);
    }
  }

  /** A step keeps what an iteration relies on, though the dominator tree is that of the graph the iteration started from. */
  lemma StepIsConsistent(g: Cfg, f: SsaFunc, escaping: set<nat>, bypassed: set<nat>, a: nat, t: nat, branch: SsaInstr)
    requires Consistent(g, f, escaping, bypassed) && a < |f.blocks| && |f.blocks[a].instrs| > 0 && BranchesTo(f, a, t)
    requires Bypassable(f, t) && t !in escaping && LeadsOn(f, a, t, branch) && Checked(g, f, a, t, branch)
    requires forall r | r in UsedRegs(branch) :: NamesOf(f, a, t, r)
    ensures Consistent(g, Threaded(f, a, branch), escaping, bypassed + {t})
  {
    var f', h, h' := Threaded(f, a, branch), GraphOf(f), GraphOf(Threaded(f, a, branch));
    ThreadedEdges(f, a, t, branch);
    ThreadedShape(f, a, t, branch);
    GraphIsValid(f');
    EdgesAre(f, a, t);
    StepKeepsCover(f, escaping, a, t, branch);
    forall r | r in UsedRegs(branch)
      ensures r in UsedRegs(Last(f, a)) || (r !in f.blocks[t].params && Known(h, f, r, a))
    {
      if r !in UsedRegs(Last(f, a)) { StillKnown(g, f, escaping, bypassed, t, r, a); }
    }
    forall b: nat | b < |f'.blocks|
      ensures WellFormedBlock(h', f', b)
    {
      BlocksAreWellFormed(f', b);
    }
    forall b: nat, i: nat | b < |f'.blocks| && i < |f'.blocks[b].instrs|
      ensures UsesInScope(h', f', b, i)
    {
      ThreadKeepsScope(h, h', f, a, t, branch, b, i);
    }
    forall d: nat, b: nat | d !in bypassed + {t} && Dominates(g, d, b)
      ensures Dominates(h', d, b)
    {
      DominanceKept(h, h', a, t, d, b);
    }
  }

  /** The graph the tree is built for has all edges of the function, so the first step may rely on it. */
  lemma StartIsConsistent(g: Cfg, f: SsaFunc, escaping: set<nat>)
    requires Ready(g, f) && EscapingCover(f, escaping)
    ensures Consistent(g, f, escaping, {})
  {
    var h := GraphOf(f);
    GraphIsValid(f);
    forall x: nat, y: nat | (x, y) in CfgEdges(h)
      ensures (x, y) in CfgEdges(g)
    {
      EdgesAre(f, x, y);
      var k :| 0 <= k < |Last(f, x).targets| && Last(f, x).targets[k].block == y;
      assert WellFormedBlock(g, f, x) && WellFormedTarget(g, f, x, Last(f, x).targets[k]);
    }
    forall d: nat, b: nat | Dominates(g, d, b)
      ensures Dominates(h, d, b)
    {
      forall p | PathTo(h, p, b)
        ensures d in p
      {
        assert PathTo(g, p, b);
      }
    }
    forall b: nat | b < |f.blocks|
      ensures WellFormedBlock(h, f, b)
    {
      assert BlockReady(f, b);
      BlocksAreWellFormed(f, b);
    }
    forall b: nat, i: nat | b < |f.blocks| && i < |f.blocks[b].instrs|
      ensures UsesInScope(h, f, b, i)
    {
      assert UsesInScope(g, f, b, i);
      forall r | r in UsedRegs(f.blocks[b].instrs[i])
        ensures InScope(h, f, r, b, i)
      {
        var d: nat, k: nat :| ReachesUse(g, f, r, d, k, b, i);
        assert ReachesUse(h, f, r, d, k, b, i);
      }
    }
  }

  // ---- What the two kinds of steps put in place ----

  lemma SubstTargetFits(f: SsaFunc, params: seq<VReg>, args: seq<Operand>, t: nat, k: nat)
    requires ArgsFit(f) && t < |f.blocks| && |f.blocks[t].instrs| > 0 && k < |Last(f, t).targets|
    ensures TargetFits(f, SubstTarget(params, args, Last(f, t).targets[k]))
    ensures BranchesTo(f, t, Last(f, t).targets[k].block)
  {
    assert BranchFits(f, t) && Last(f, t).targets[k] in Last(f, t).targets;
    assert TargetFits(f, Last(f, t).targets[k]);
  }

  lemma JumpLeadsOn(f: SsaFunc, a: nat, t: nat)
    requires ArgsFit(f) && a < |f.blocks| && t < |f.blocks| && |f.blocks[a].instrs| > 0 && BlockReady(f, t)
    requires |Last(f, a).targets| == 1
    ensures LeadsOn(f, a, t, ThroughJump(f, t, Last(f, a)))
  {
    var params, args, branch := f.blocks[t].params, Last(f, a).targets[0].args, ThroughJump(f, t, Last(f, a));
    forall x | x in branch.targets
      ensures TargetFits(f, x) && (BranchesTo(f, a, x.block) || BranchesTo(f, t, x.block))
    {
      var k :| 0 <= k < |branch.targets| && branch.targets[k] == x;
      SubstTargetFits(f, params, args, t, k);
    }
  }

  lemma ArmLeadsOn(compare: (nat, Value, Value) -> bool, f: SsaFunc, a: nat, k: nat)
    requires ArgsFit(f) && a < |f.blocks| && BlockReady(f, a) && k < |Last(f, a).targets|
    requires TargetFits(f, Last(f, a).targets[k]) && BlockReady(f, Last(f, a).targets[k].block)
    requires ArmOf(compare, f, Last(f, a).targets[k]).Some?
    ensures LeadsOn(f, a, Last(f, a).targets[k].block, ArmBranch(compare, f, a, k))
  {
    var x, branch := Last(f, a).targets[k], ArmBranch(compare, f, a, k);
    forall y | y in branch.targets
      ensures TargetFits(f, y) && (BranchesTo(f, a, y.block) || BranchesTo(f, x.block, y.block))
    {
      var j :| 0 <= j < |branch.targets| && branch.targets[j] == y;
      if j == k {
        SubstTargetFits(f, f.blocks[x.block].params, x.args, x.block, ArmOf(compare, f, x).value);
      } else {
        assert BranchFits(f, a) && y == Last(f, a).targets[j] && TargetFits(f, y);
      }
    }
  }

  /** Every register that the replaced jump names was checked by the pass. */
  lemma JumpIsChecked(g: Cfg, f: SsaFunc, escaping: set<nat>, a: nat)
    requires |g.nodes| > 0 && ArgsFit(f) && a < |f.blocks| && BlockReady(f, a) && Last(f, a).opcode == Jmp
    requires JumpApplies(g, f, escaping, a)
    ensures var t := Last(f, a).targets[0].block;
            Checked(g, f, a, t, ThroughJump(f, t, Last(f, a)))
  {
    var x := Last(f, a).targets[0];
    var t, branch := x.block, ThroughJump(f, x.block, Last(f, a));
    assert BranchFits(f, a) && x in Last(f, a).targets && TargetFits(f, x);
    forall r | r in UsedRegs(branch)
      ensures r in UsedRegs(Last(f, a)) || (r !in f.blocks[t].params && r in UsedRegs(Last(f, t)) && Known(g, f, r, a))
    {
      JumpNames(f, a, t, r);
      if r !in UsedRegs(Last(f, a)) {
        if r in OperandRegs(Last(f, t).operands) {
          NamesAreKnown(g, f, a, t, Last(f, t).operands, r);
        } else {
          var k :| 0 <= k < |Last(f, t).targets| && r in OperandRegs(Last(f, t).targets[k].args);
          NamesAreKnown(g, f, a, t, Last(f, t).targets[k].args, r);
        }
      }
    }
  }

  /** So was every register that the replaced arm names, although the arm's comparison is left behind. */
  lemma ArmIsChecked(g: Cfg, compare: (nat, Value, Value) -> bool, f: SsaFunc, escaping: set<nat>, a: nat, k: nat)
    requires |g.nodes| > 0 && ArgsFit(f) && a < |f.blocks| && BlockReady(f, a) && k < |Last(f, a).targets|
    requires ArmApplies(g, compare, f, escaping, a, k)
    ensures Checked(g, f, a, Last(f, a).targets[k].block, ArmBranch(compare, f, a, k))
  {
    var x, branch := Last(f, a).targets[k], ArmBranch(compare, f, a, k);
    var t, arm := x.block, ArmOf(compare, f, x).value;
    assert BranchFits(f, a) && x in Last(f, a).targets && TargetFits(f, x);
    forall r | r in UsedRegs(branch)
      ensures r in UsedRegs(Last(f, a)) || (r !in f.blocks[t].params && r in UsedRegs(Last(f, t)) && Known(g, f, r, a))
    {
      ArmNames(compare, f, a, k, r);
      if r !in UsedRegs(Last(f, a)) {
        NewArmNames(compare, f, a, k, r);
        NamesAreKnown(g, f, a, t, Last(f, t).targets[arm].args, r);
      }
    }
  }

  lemma NewArmNames(compare: (nat, Value, Value) -> bool, f: SsaFunc, a: nat, k: nat, r: VReg)
    requires a < |f.blocks| && BlockReady(f, a) && k < |Last(f, a).targets| && TargetFits(f, Last(f, a).targets[k])
    requires BlockReady(f, Last(f, a).targets[k].block) && ArmOf(compare, f, Last(f, a).targets[k]).Some?
    requires r in UsedRegs(ArmBranch(compare, f, a, k)) && r !in UsedRegs(Last(f, a))
    ensures var x := Last(f, a).targets[k]; r in OperandRegs(Last(f, x.block).targets[ArmOf(compare, f, x).value].args)
  {
    var x, branch := Last(f, a).targets[k], ArmBranch(compare, f, a, k);
    var arm := ArmOf(compare, f, x).value;
    var j :| 0 <= j < |branch.targets| && r in OperandRegs(branch.targets[j].args);
    TargetRegsUsed(Last(f, a), Last(f, a).targets[j], r);
    TargetRegsUsed(Last(f, a), x, r);
    assert j == k;
    SubstRegs(f.blocks[x.block].params, x.args, Last(f, x.block).targets[arm].args, r);
  }

  /** Replacing a jump keeps what the iteration relies on. */
  lemma JumpIsConsistent(g: Cfg, compare: (nat, Value, Value) -> bool, f: SsaFunc, escaping: set<nat>, bypassed: set<nat>, a: nat)
    requires Consistent(g, f, escaping, bypassed) && a < |f.blocks| && BlockReady(f, a) && Last(f, a).opcode == Jmp
    requires JumpApplies(g, f, escaping, a)
    ensures var t := Last(f, a).targets[0].block;
            Consistent(g, Threaded(f, a, ThroughJump(f, t, Last(f, a))), escaping, bypassed + {t})
  {
    var x := Last(f, a).targets[0];
    var t, branch := x.block, ThroughJump(f, x.block, Last(f, a));
    assert BranchFits(f, a) && x in Last(f, a).targets && BlockReady(f, t);
    StepIsReplacement(compare, f, escaping, a, g);
    JumpLeadsOn(f, a, t);
    JumpIsChecked(g, f, escaping, a);
    forall r | r in UsedRegs(branch)
      ensures NamesOf(f, a, t, r)
    {
      JumpNames(f, a, t, r);
    }
    StepIsConsistent(g, f, escaping, bypassed, a, t, branch);
  }

  /** Replacing an arm does, too. */
  lemma ArmIsConsistent(g: Cfg, compare: (nat, Value, Value) -> bool, f: SsaFunc, escaping: set<nat>, bypassed: set<nat>, a: nat, k: nat)
    requires Consistent(g, f, escaping, bypassed) && a < |f.blocks| && BlockReady(f, a) && IsCondBranch(Last(f, a).opcode)
    requires k < |Last(f, a).targets| && ArmApplies(g, compare, f, escaping, a, k)
    ensures Consistent(g, Threaded(f, a, ArmBranch(compare, f, a, k)), escaping, bypassed + {Last(f, a).targets[k].block})
  {
    var x, branch := Last(f, a).targets[k], ArmBranch(compare, f, a, k);
    assert BranchFits(f, a) && x in Last(f, a).targets;
    ArmStepIsReplacement(compare, f, escaping, a, k, g);
    ArmLeadsOn(compare, f, a, k);
    ArmIsChecked(g, compare, f, escaping, a, k);
    forall r | r in UsedRegs(branch)
      ensures NamesOf(f, a, x.block, r)
    {
      ArmNames(compare, f, a, k, r);
    }
    StepIsConsistent(g, f, escaping, bypassed, a, x.block, branch);
  }

  // ---- Escaping parameters ----

  /** The block each parameter belongs to. */
  ghost predicate ArgBlocksAre(f: SsaFunc, n: nat, argBlocks: map<VReg, nat>) {
    && (forall r :: r in argBlocks ==> argBlocks[r] < n && argBlocks[r] < |f.blocks| && r in f.blocks[argBlocks[r]].params)
    && forall b: nat, r {:trigger r in f.blocks[b].params} :: b < n && b < |f.blocks| && r in f.blocks[b].params ==> r in argBlocks
  }

  lemma ParamHasOneBlock(f: SsaFunc, r: VReg, b: nat, c: nat)
    requires UniqueDefs(f) && b < |f.blocks| && c < |f.blocks| && r in f.blocks[b].params && r in f.blocks[c].params
    ensures b == c
  {
    assert DefinedAt(f, r, b, 0) && DefinedAt(f, r, c, 0);
  }

  /** Some instruction before place `i` of block `b` reads a parameter of the other block `t`. */
  ghost predicate EscapesBefore(f: SsaFunc, t: nat, b: nat, i: nat)
    requires t < |f.blocks|
  {
    exists c: nat, j: nat, r :: EscapesAt(f, t, c, j, r) && (c < b || (c == b && j < i))
  }

  ghost predicate EscapesAt(f: SsaFunc, t: nat, c: nat, j: nat, r: VReg)
    requires t < |f.blocks|
  {
    c < |f.blocks| && j < |f.blocks[c].instrs| && c != t && r in UsedRegs(f.blocks[c].instrs[j]) && r in f.blocks[t].params
  }

  ghost predicate EscapingBefore(f: SsaFunc, escaping: set<nat>, b: nat, i: nat) {
    forall t: nat | t < |f.blocks| :: t in escaping <==> EscapesBefore(f, t, b, i)
  }

  method CollectArgBlocks(f: SsaFunc) returns (argBlocks: map<VReg, nat>)
    ensures ArgBlocksAre(f, |f.blocks|, argBlocks)
  {
    argBlocks := map[];
    for b := 0 to |f.blocks|
      invariant ArgBlocksAre(f, b, argBlocks)
    {
      var params := f.blocks[b].params;
      for k := 0 to |params|
        invariant forall r :: r in argBlocks ==> argBlocks[r] <= b && r in f.blocks[argBlocks[r]].params
        invariant forall c: nat, r {:trigger r in f.blocks[c].params} :: c < b && r in f.blocks[c].params ==> r in argBlocks
        invariant forall j :: 0 <= j < k ==> params[j] in argBlocks
      {
        if params[k] !in argBlocks {
          argBlocks := argBlocks[params[k] := b];
        }
      }
    }
  }

  /** The blocks that own the given registers, other than block `b` itself. */
  method OwnersOf(f: SsaFunc, argBlocks: map<VReg, nat>, b: nat, regs: set<VReg>) returns (owners: set<nat>)
    requires UniqueDefs(f) && ArgBlocksAre(f, |f.blocks|, argBlocks)
    ensures forall t: nat | t < |f.blocks| :: t in owners <==> t != b && exists r :: r in regs && r in f.blocks[t].params
  {
    owners := {};
    var todo := regs;
    while todo != {}
      invariant todo <= regs
      invariant forall t: nat | t < |f.blocks| :: t in owners <==> t != b && exists r :: r in regs - todo && r in f.blocks[t].params
      decreases todo
    {
      var reg :| reg in todo;
      ghost var done := regs - todo;
      if reg in argBlocks && argBlocks[reg] != b {
        owners := owners + {argBlocks[reg]};
      }
      todo := todo - {reg};
      forall t: nat | t < |f.blocks|
        ensures reg in f.blocks[t].params <==> reg in argBlocks && argBlocks[reg] == t
      {
        if reg in f.blocks[t].params { ParamHasOneBlock(f, reg, t, argBlocks[reg]); }
      }
      assert forall r :: r in regs - todo <==> r in done || r == reg;
    }
  }

  lemma EscapingOneMore(f: SsaFunc, t: nat, b: nat, i: nat)
    requires t < |f.blocks| && b < |f.blocks| && i < |f.blocks[b].instrs|
    ensures EscapesBefore(f, t, b, i + 1) <==>
            EscapesBefore(f, t, b, i) || (t != b && exists r :: r in UsedRegs(f.blocks[b].instrs[i]) && r in f.blocks[t].params)
  {
    if EscapesBefore(f, t, b, i) {
      var c: nat, j: nat, r :| EscapesAt(f, t, c, j, r) && (c < b || (c == b && j < i));
      assert EscapesAt(f, t, c, j, r);
    }
    if t != b {
      if r :| r in UsedRegs(f.blocks[b].instrs[i]) && r in f.blocks[t].params {
        assert EscapesAt(f, t, b, i, r);
      }
    }
  }

  lemma EscapingNextBlock(f: SsaFunc, t: nat, b: nat)
    requires t < |f.blocks| && b < |f.blocks|
    ensures EscapesBefore(f, t, b + 1, 0) <==> EscapesBefore(f, t, b, |f.blocks[b].instrs|)
  {
    if EscapesBefore(f, t, b + 1, 0) {
      var c: nat, j: nat, r :| EscapesAt(f, t, c, j, r) && (c < b + 1 || (c == b + 1 && j < 0));
      assert EscapesAt(f, t, c, j, r);
    }
  }

  /** Blocks whose parameters are read elsewhere. */
  method CollectEscaping(f: SsaFunc) returns (escaping: set<nat>)
    requires UniqueDefs(f)
    ensures EscapingAre(f, escaping)
    ensures forall t: nat | t < |f.blocks| :: t in escaping <==> exists c: nat, j: nat, r :: EscapesAt(f, t, c, j, r)
  {
    var argBlocks := CollectArgBlocks(f);
    escaping := {};
    for b := 0 to |f.blocks|
      invariant EscapingBefore(f, escaping, b, 0)
    {
      for i := 0 to |f.blocks[b].instrs|
        invariant EscapingBefore(f, escaping, b, i)
      {
        var owners := OwnersOf(f, argBlocks, b, UsedRegs(f.blocks[b].instrs[i]));
        escaping := escaping + owners;
        forall t: nat | t < |f.blocks|
          ensures t in escaping <==> EscapesBefore(f, t, b, i + 1)
        {
          EscapingOneMore(f, t, b, i);
        }
      }
      forall t: nat | t < |f.blocks|
        ensures EscapesBefore(f, t, b + 1, 0) <==> EscapesBefore(f, t, b, |f.blocks[b].instrs|)
      {
        EscapingNextBlock(f, t, b);
      }
    }
    forall t: nat | t < |f.blocks|
      ensures EscapesBefore(f, t, |f.blocks|, 0) <==> !NoEscape(f, t)
    {
      EscapesMeans(f, t);
    }
  }

  lemma EscapesMeans(f: SsaFunc, t: nat)
    requires t < |f.blocks|
    ensures EscapesBefore(f, t, |f.blocks|, 0) <==> !NoEscape(f, t)
  {
    if !NoEscape(f, t) {
      var b: nat, i: nat :| b < |f.blocks| && b != t && i < |f.blocks[b].instrs|
        && !(forall r :: r in UsedRegs(f.blocks[b].instrs[i]) ==> r !in f.blocks[t].params);
      var r :| r in UsedRegs(f.blocks[b].instrs[i]) && r in f.blocks[t].params;
      assert EscapesAt(f, t, b, i, r);
    }
  }

  // ---- The steps ----

  lemma StepIsReplacement(compare: (nat, Value, Value) -> bool, f: SsaFunc, escaping: set<nat>, a: nat, g: Cfg)
    requires |g.nodes| > 0 && Ready(GraphOf(f), f) && EscapingCover(f, escaping) && a < |f.blocks| && BlockReady(f, a)
    requires Last(f, a).opcode == Jmp && JumpApplies(g, f, escaping, a)
    ensures var t := Last(f, a).targets[0].block;
            Bypassable(f, t) && Replacement(compare, f, a, t, ThroughJump(f, t, Last(f, a)))
  {
    var x := Last(f, a).targets[0];
    assert BranchFits(f, a) && x in Last(f, a).targets;
    assert BlockReady(f, x.block);
    forall c: nat | c < |f.blocks|
      ensures |f.blocks[c].instrs| > 0
    {
      assert BlockReady(f, c);
    }
  }

  lemma ArmStepIsReplacement(compare: (nat, Value, Value) -> bool, f: SsaFunc, escaping: set<nat>, a: nat, k: nat, g: Cfg)
    requires |g.nodes| > 0 && Ready(GraphOf(f), f) && EscapingCover(f, escaping) && a < |f.blocks| && BlockReady(f, a)
    requires IsCondBranch(Last(f, a).opcode) && k < |Last(f, a).targets| && ArmApplies(g, compare, f, escaping, a, k)
    ensures var t := Last(f, a).targets[k].block;
            Bypassable(f, t) && Replacement(compare, f, a, t, ArmBranch(compare, f, a, k))
  {
    var x := Last(f, a).targets[k];
    assert BranchFits(f, a) && x in Last(f, a).targets;
    forall c: nat | c < |f.blocks|
      ensures |f.blocks[c].instrs| > 0
    {
      assert BlockReady(f, c);
    }
    assert ReplacesArm(compare, f, a, x.block, ArmBranch(compare, f, a, k), k);
  }

  /** From `f` to `f'` by bypassing one block in the branch at the end of `a`. */
  ghost predicate IsStep(compare: (nat, Value, Value) -> bool, f: SsaFunc, a: nat, t: nat, f': SsaFunc)
    requires a < |f.blocks| && |f.blocks[a].instrs| > 0
  {
    Bypassable(f, t) && exists branch :: Replacement(compare, f, a, t, branch) && f' == Threaded(f, a, branch)
  }

  lemma JumpIsStep(compare: (nat, Value, Value) -> bool, f: SsaFunc, escaping: set<nat>, a: nat, g: Cfg)
    requires |g.nodes| > 0 && Ready(GraphOf(f), f) && EscapingCover(f, escaping) && a < |f.blocks| && BlockReady(f, a)
    requires Last(f, a).opcode == Jmp && JumpApplies(g, f, escaping, a)
    ensures var t := Last(f, a).targets[0].block; IsStep(compare, f, a, t, Threaded(f, a, ThroughJump(f, t, Last(f, a))))
  {
    StepIsReplacement(compare, f, escaping, a, g);
  }

  lemma ArmIsStep(compare: (nat, Value, Value) -> bool, f: SsaFunc, escaping: set<nat>, a: nat, k: nat, g: Cfg)
    requires |g.nodes| > 0 && Ready(GraphOf(f), f) && EscapingCover(f, escaping) && a < |f.blocks| && BlockReady(f, a)
    requires IsCondBranch(Last(f, a).opcode) && k < |Last(f, a).targets| && ArmApplies(g, compare, f, escaping, a, k)
    ensures IsStep(compare, f, a, Last(f, a).targets[k].block, Threaded(f, a, ArmBranch(compare, f, a, k)))
  {
    ArmStepIsReplacement(compare, f, escaping, a, k, g);
  }

  class ControlFlowOptPass {
    const cfg: Cfg
    const domtree: DominatorTree
    const compare: (nat, Value, Value) -> bool
    var func: SsaFunc
    var escaping: set<nat>
    ghost var bypassed: set<nat>

    /** The tree is built for the function as it is now. */
    constructor (cfg: Cfg, domtree: DominatorTree, compare: (nat, Value, Value) -> bool, func: SsaFunc)
      requires Ready(cfg, func) && domtree.Valid() && domtree.cfg == cfg
      ensures this.cfg == cfg && this.domtree == domtree && this.compare == compare && this.func == func
      ensures EscapingAre(func, escaping) && Valid()
    {
      var blocks := CollectEscaping(func);
      StartIsConsistent(cfg, func, blocks);
      this.cfg, this.domtree, this.compare, this.func, escaping, bypassed := cfg, domtree, compare, func, blocks, {};
    }

    /** The function is valid in its own graph, while the tree may be that of an earlier one. */
    ghost predicate Valid()
      reads this, domtree
    {
      domtree.Valid() && domtree.cfg == cfg && Consistent(cfg, func, escaping, bypassed)
    }

    method FindDefBlock(r: VReg) returns (block: Option<nat>)
      ensures block.Some? ==> exists k: nat :: DefinedAt(func, r, block.value, k)
      ensures block.None? ==> forall b: nat, k: nat :: !DefinedAt(func, r, b, k)
    {
      for b := 0 to |func.blocks|
        invariant forall c: nat, k: nat :: c < b ==> !DefinedAt(func, r, c, k)
      {
        for k := 0 to |func.blocks[b].instrs| + 1
          invariant forall j: nat :: j < k ==> !DefinedAt(func, r, b, j)
        {
          if DefinedAt(func, r, b, k) {
            return Some(b);
          }
        }
      }
      return None;
    }

    method IsRegAlwaysDefined(r: VReg, a: nat) returns (defined: bool)
      requires Valid() && a < |func.blocks|
      ensures defined <==> Known(cfg, func, r, a)
    {
      var block := FindDefBlock(r);
      if block.None? {
        return false;
      }
      ghost var k: nat :| DefinedAt(func, r, block.value, k);
      defined := domtree.DominatesNode(block.value, a);
      if defined { assert KnownFrom(cfg, func, r, block.value, k, a); }
    }

    /** An operand of the bypassed block, as the block before it would name it. */
    method TryReplaceReg(params: seq<VReg>, args: seq<Operand>, operand: Operand, a: nat) returns (ok: bool, operand': Operand)
      requires Valid() && a < |func.blocks| && |params| == |args|
      ensures ok <==> Replaceable(cfg, func, params, operand, a)
      ensures operand' == Subst(params, args, operand)
    {
      operand' := operand;
      if operand.Register? {
        for i := 0 to |params|
          invariant operand.r !in params[..i]
        {
          if params[i] == operand.r {
            FirstParam(params, operand.r, i);
            return true, args[i];
          }
          assert params[..i + 1] == params[..i] + [params[i]];
        }
        assert params[..|params|] == params;
        ok := IsRegAlwaysDefined(operand.r, a);
      } else {
        ok := true;
      }
    }

    method TryReplaceAll(params: seq<VReg>, args: seq<Operand>, operands: seq<Operand>, a: nat)
      returns (ok: bool, operands': seq<Operand>)
      requires Valid() && a < |func.blocks| && |params| == |args|
      ensures ok <==> AllReplaceable(cfg, func, params, operands, a)
      ensures operands' == SubstAll(params, args, operands)
    {
      ok, operands' := true, [];
      for k := 0 to |operands|
        invariant ok <==> forall j | 0 <= j < k :: Replaceable(cfg, func, params, operands[j], a)
        invariant |operands'| == k && forall j :: 0 <= j < k ==> operands'[j] == Subst(params, args, operands[j])
      {
        var one, replaced := TryReplaceReg(params, args, operands[k], a);
        ok := ok && one;
        operands' := operands' + [replaced];
      }
      assert operands' == SubstAll(params, args, operands);
    }

    method TryReplaceTargets(params: seq<VReg>, args: seq<Operand>, targets: seq<Target>, a: nat)
      returns (ok: bool, targets': seq<Target>)
      requires Valid() && a < |func.blocks| && |params| == |args|
      ensures ok <==> forall k | 0 <= k < |targets| :: AllReplaceable(cfg, func, params, targets[k].args, a)
      ensures targets' == SubstTargets(params, args, targets)
    {
      ok, targets' := true, [];
      for k := 0 to |targets|
        invariant ok <==> forall j | 0 <= j < k :: AllReplaceable(cfg, func, params, targets[j].args, a)
        invariant |targets'| == k && forall j :: 0 <= j < k ==> targets'[j] == SubstTarget(params, args, targets[j])
      {
        var one, replaced := TryReplaceAll(params, args, targets[k].args, a);
        ok := ok && one;
        targets' := targets' + [Target(targets[k].block, replaced)];
      }
      assert targets' == SubstTargets(params, args, targets);
    }

    method TryReplaceBranch(params: seq<VReg>, args: seq<Operand>, branch: SsaInstr, a: nat) returns (ok: bool, branch': SsaInstr)
      requires Valid() && a < |func.blocks| && |params| == |args|
      ensures ok <==> BranchReplaceable(cfg, func, params, branch, a)
      ensures branch' == SubstBranch(params, args, branch)
    {
      var allOperands, operands := TryReplaceAll(params, args, branch.operands, a);
      var allTargets, targets := TryReplaceTargets(params, args, branch.targets, a);
      ok, branch' := allOperands && allTargets, branch.(operands := operands, targets := targets);
    }

    /** A jump to a block that only branches becomes that branch. */
    method TryInlineIntoJmp(a: nat)
      requires Valid() && a < |func.blocks| && BlockReady(func, a) && Last(func, a).opcode == Jmp
      modifies this`func, this`bypassed
      ensures Valid()
      ensures !JumpApplies(cfg, old(func), escaping, a) ==> func == old(func)
      ensures JumpApplies(cfg, old(func), escaping, a) ==>
                var t := Last(old(func), a).targets[0].block;
                IsStep(compare, old(func), a, t, func)
                && func == Threaded(old(func), a, ThroughJump(old(func), t, Last(old(func), a)))
    {
      var target := Last(func, a).targets[0];
      assert BranchFits(func, a) && target in Last(func, a).targets;
      var t := target.block;
      if |func.blocks[t].instrs| != 1 || t in escaping {
        return;
      }
      assert BlockReady(func, t);
      var targetBranch := Last(func, t);
      if targetBranch.opcode == Jmp || IsCondBranch(targetBranch.opcode) {
        var ok, branch := TryReplaceBranch(func.blocks[t].params, target.args, targetBranch, a);
        if ok {
          JumpIsStep(compare, func, escaping, a, cfg);
          assert branch == ThroughJump(func, t, Last(func, a));
          JumpIsConsistent(cfg, compare, func, escaping, bypassed, a);
          func, bypassed := Threaded(func, a, branch), bypassed + {t};
        }
      }
    }

    /** An arm that leads to a block that only branches, in a direction that is known, becomes the arm of that block. */
    method TryInlineIntoCjmp(a: nat, k: nat)
      requires Valid() && a < |func.blocks| && BlockReady(func, a) && IsCondBranch(Last(func, a).opcode) && k < |Last(func, a).targets|
      modifies this`func, this`bypassed
      ensures Valid()
      ensures !ArmApplies(cfg, compare, old(func), escaping, a, k) ==> func == old(func)
      ensures ArmApplies(cfg, compare, old(func), escaping, a, k) ==>
                && IsStep(compare, old(func), a, Last(old(func), a).targets[k].block, func)
                && func == Threaded(old(func), a, ArmBranch(compare, old(func), a, k))
    {
      var target := Last(func, a).targets[k];
      assert BranchFits(func, a) && target in Last(func, a).targets;
      var t := target.block;
      if |func.blocks[t].instrs| != 1 || t in escaping {
        return;
      }
      assert BlockReady(func, t);
      var arm := ArmOf(compare, func, target);
      if arm.Some? {
        if ArmApplies(cfg, compare, func, escaping, a, k) { ArmIsStep(compare, func, escaping, a, k, cfg); }
        ReplaceArm(a, k, arm.value);
      }
    }

    method ReplaceArm(a: nat, k: nat, arm: nat)
      requires Valid() && a < |func.blocks| && BlockReady(func, a) && IsCondBranch(Last(func, a).opcode) && k < |Last(func, a).targets|
      requires var x := Last(func, a).targets[k];
               TargetFits(func, x) && |func.blocks[x.block].instrs| == 1 && x.block !in escaping
               && BlockReady(func, x.block) && ArmOf(compare, func, x) == Some(arm)
      modifies this`func, this`bypassed
      ensures Valid()
      ensures !ArmApplies(cfg, compare, old(func), escaping, a, k) ==> func == old(func)
      ensures ArmApplies(cfg, compare, old(func), escaping, a, k) ==>
                func == Threaded(old(func), a, ArmBranch(compare, old(func), a, k))
    {
      var branch := Last(func, a);
      var target := branch.targets[k];
      var newTarget := Last(func, target.block).targets[arm];
      var ok, args := TryReplaceAll(func.blocks[target.block].params, target.args, newTarget.args, a);
      assert ok <==> ArmApplies(cfg, compare, func, escaping, a, k);
      if ok {
        var newBranch := branch.(targets := branch.targets[k := Target(newTarget.block, args)]);
        assert newBranch == ArmBranch(compare, func, a, k);
        ArmIsConsistent(cfg, compare, func, escaping, bypassed, a, k);
        func, bypassed := Threaded(func, a, newBranch), bypassed + {target.block};
      }
    }
  }

  lemma {:induction false} FirstParam(params: seq<VReg>, r: VReg, i: nat)
    requires i < |params| && params[i] == r && r !in params[..i]
    ensures ParamIndex(params, r) == Some(i)
  {
    if i > 0 {
      assert params[0] in params[..i];
      assert params[1..][..i - 1] == params[..i][1..];
      FirstParam(params[1..], r, i - 1);
    }
  }

  /** A step keeps the meaning of the function, over whole runs. */
  lemma StepKeepsMeaning(m: SsaMachine, compare: (nat, Value, Value) -> bool, g: Cfg, f: SsaFunc, a: nat, t: nat, f': SsaFunc,
                         entry: nat, st: SsaState, n: nat) returns (k: nat)
    requires Ready(g, f) && a < |f.blocks| && BlockReady(f, a) && IsStep(compare, f, a, t, f') && BranchesAs(m, compare)
    ensures n <= k <= 2 * n && CaughtUp(m, f, f', t, entry, st, n, k)
  {
    var branch :| Replacement(compare, f, a, t, branch) && f' == Threaded(f, a, branch);
    k := BypassKeepsMeaning(m, compare, f, a, t, branch, entry, st, n);
  }

  // ---- All blocks in turn ----

  /** After `n` blocks `f'` is, in control and memory, where `f` is at that time or later. */
  ghost predicate LagsAt(m: SsaMachine, f: SsaFunc, f': SsaFunc, entry: nat, st: SsaState, n: nat) {
    exists k: nat :: n <= k && SamePlace(RunFunc(m, f, entry, st, k), RunFunc(m, f', entry, st, n))
  }

  ghost predicate SamePlace(x: (Control, SsaState), y: (Control, SsaState)) {
    x.0 == y.0 && x.1.mem == y.1.mem
  }

  /** From every state and for any number of blocks, on every machine that compares as the compiler does. */
  ghost predicate NeverDiffers(compare: (nat, Value, Value) -> bool, f: SsaFunc, f': SsaFunc) {
    forall m, entry: nat, st, n: nat {:trigger LagsAt(m, f, f', entry, st, n)} :: BranchesAs(m, compare) ==> LagsAt(m, f, f', entry, st, n)
  }

  lemma SameNeverDiffers(compare: (nat, Value, Value) -> bool, f: SsaFunc)
    ensures NeverDiffers(compare, f, f)
  {
    forall m, entry: nat, st, n: nat
      ensures LagsAt(m, f, f, entry, st, n)
    {
      assert SamePlace(RunFunc(m, f, entry, st, n), RunFunc(m, f, entry, st, n));
    }
  }

  lemma NeverDiffersTransitive(compare: (nat, Value, Value) -> bool, f: SsaFunc, f': SsaFunc, f'': SsaFunc)
    requires NeverDiffers(compare, f, f') && NeverDiffers(compare, f', f'')
    ensures NeverDiffers(compare, f, f'')
  {
    forall m, entry: nat, st, n: nat | BranchesAs(m, compare)
      ensures LagsAt(m, f, f'', entry, st, n)
    {
      assert LagsAt(m, f', f'', entry, st, n);
      var k: nat :| n <= k && SamePlace(RunFunc(m, f', entry, st, k), RunFunc(m, f'', entry, st, n));
      assert LagsAt(m, f, f', entry, st, k);
      var l: nat :| k <= l && SamePlace(RunFunc(m, f, entry, st, l), RunFunc(m, f', entry, st, k));
      assert SamePlace(RunFunc(m, f, entry, st, l), RunFunc(m, f'', entry, st, n));
    }
  }

  lemma StepNeverDiffers(compare: (nat, Value, Value) -> bool, g: Cfg, f: SsaFunc, a: nat, t: nat, f': SsaFunc)
    requires Ready(g, f) && a < |f.blocks| && BlockReady(f, a) && IsStep(compare, f, a, t, f')
    ensures NeverDiffers(compare, f, f')
  {
    forall m, entry: nat, st, n: nat | BranchesAs(m, compare)
      ensures LagsAt(m, f, f', entry, st, n)
    {
      var k := StepKeepsMeaning(m, compare, g, f, a, t, f', entry, st, n);
      assert SamePlace(RunFunc(m, f, entry, st, k), RunFunc(m, f', entry, st, n));
    }
  }

  // ---- What a visit of a block does ----

  /** The jump at the end of `a` is replaced if it can be. */
  ghost predicate JumpDone(g: Cfg, escaping: set<nat>, a: nat, f: SsaFunc, f': SsaFunc)
    requires |g.nodes| > 0 && a < |f.blocks| && BlockReady(f, a) && Last(f, a).opcode == Jmp
  {
    if JumpApplies(g, f, escaping, a) then f' == Threaded(f, a, ThroughJump(f, Last(f, a).targets[0].block, Last(f, a))) else f' == f
  }

  /** Arm `k` of the conditional branch at the end of `a` is replaced if it can be. */
  ghost predicate ArmDone(g: Cfg, compare: (nat, Value, Value) -> bool, escaping: set<nat>, a: nat, k: nat, f: SsaFunc, f': SsaFunc) {
    && |g.nodes| > 0 && a < |f.blocks| && BlockReady(f, a) && IsCondBranch(Last(f, a).opcode) && k < |Last(f, a).targets|
    && if ArmApplies(g, compare, f, escaping, a, k) then f' == Threaded(f, a, ArmBranch(compare, f, a, k)) else f' == f
  }

  /** The jump, or one arm after the other. */
  ghost predicate Visited(g: Cfg, compare: (nat, Value, Value) -> bool, escaping: set<nat>, a: nat, f: SsaFunc, f': SsaFunc) {
    && |g.nodes| > 0 && a < |f.blocks| && BlockReady(f, a)
    && if Last(f, a).opcode == Jmp then JumpDone(g, escaping, a, f, f')
       else if IsCondBranch(Last(f, a).opcode) then
         exists h :: ArmDone(g, compare, escaping, a, 0, f, h) && ArmDone(g, compare, escaping, a, 1, h, f')
       else f' == f
  }

  ghost predicate AllVisited(g: Cfg, compare: (nat, Value, Value) -> bool, escaping: set<nat>, order: seq<nat>, f: SsaFunc, f': SsaFunc) {
    if order == [] then f' == f
    else
      var n := |order| - 1;
      exists h :: AllVisited(g, compare, escaping, order[..n], f, h) && Visited(g, compare, escaping, order[n], h, f')
  }

  /** A definition of the register lies in a block that dominates `a`. */
  ghost predicate HasDominatingDef(g: Cfg, f: SsaFunc, r: VReg, a: nat)
    requires |g.nodes| > 0
  {
    exists d: nat, k: nat :: DefinedAt(f, r, d, k) && Dominates(g, d, a)
  }

  /** Parameters apart, `a` may name all registers among the operands. */
  ghost predicate Nameable(g: Cfg, f: SsaFunc, params: seq<VReg>, operands: seq<Operand>, a: nat)
    requires |g.nodes| > 0
  {
    forall r | Register(r) in operands && r !in params :: HasDominatingDef(g, f, r, a)
  }

  lemma NameableIsReplaceable(g: Cfg, f: SsaFunc, params: seq<VReg>, operands: seq<Operand>, a: nat)
    requires |g.nodes| > 0
    ensures Nameable(g, f, params, operands, a) <==> AllReplaceable(g, f, params, operands, a)
  {
    if Nameable(g, f, params, operands, a) {
      forall k | 0 <= k < |operands|
        ensures Replaceable(g, f, params, operands[k], a)
      {
        if operands[k].Register? && operands[k].r !in params {
          assert Register(operands[k].r) in operands;
          var d: nat, j: nat :| DefinedAt(f, operands[k].r, d, j) && Dominates(g, d, a);
          assert KnownFrom(g, f, operands[k].r, d, j, a);
        }
      }
    }
    if AllReplaceable(g, f, params, operands, a) {
      forall r | Register(r) in operands && r !in params
        ensures HasDominatingDef(g, f, r, a)
      {
        var k :| 0 <= k < |operands| && operands[k] == Register(r);
        assert Replaceable(g, f, params, operands[k], a);
        var d: nat, j: nat :| KnownFrom(g, f, r, d, j, a);
      }
    }
  }

  /** A block that the pass looks through: it holds nothing but a branch, and nobody else reads its parameters. */
  ghost predicate OnlyBranches(f: SsaFunc, escaping: set<nat>, t: nat) {
    t < |f.blocks| && |f.blocks[t].instrs| == 1 && t !in escaping
  }

  /** The operand stands for `operand` once the parameters are replaced by the arguments. */
  predicate StandsFor(params: seq<VReg>, args: seq<Operand>, operand: Operand, operand': Operand) {
    if operand.Register? && operand.r in params then
      exists i :: 0 <= i < |params| && i < |args| && params[i] == operand.r && operand' == args[i]
    else operand' == operand
  }

  ghost predicate AllStandFor(params: seq<VReg>, args: seq<Operand>, operands: seq<Operand>, operands': seq<Operand>) {
    |operands'| == |operands| && forall k | 0 <= k < |operands| :: StandsFor(params, args, operands[k], operands'[k])
  }

  lemma SubstStandsFor(params: seq<VReg>, args: seq<Operand>, operands: seq<Operand>)
    requires |params| == |args|
    ensures AllStandFor(params, args, operands, SubstAll(params, args, operands))
  {
    forall k | 0 <= k < |operands|
      ensures StandsFor(params, args, operands[k], Subst(params, args, operands[k]))
    {
    }
  }

  /** The sides of a comparison are numbers once the parameters are replaced. */
  ghost predicate ComparesNumbers(f: SsaFunc, x: Target, lhs: Value, rhs: Value)
    requires x.block < |f.blocks| && |f.blocks[x.block].instrs| > 0
  {
    AllStandFor(f.blocks[x.block].params, x.args, Last(f, x.block).operands, [Immediate(lhs), Immediate(rhs)])
  }

  /** Control that gets to `x` is known to go on along `arm`: a jump has one, a comparison of numbers can be made. */
  ghost predicate GoesOnAlong(compare: (nat, Value, Value) -> bool, f: SsaFunc, x: Target, arm: nat)
    requires x.block < |f.blocks| && |f.blocks[x.block].instrs| > 0
  {
    var branch := Last(f, x.block);
    || (branch.opcode.Jmp? && arm == 0)
    || ((branch.opcode.CJmp? || branch.opcode.FCJmp?)
        && exists lhs, rhs :: ComparesNumbers(f, x, lhs, rhs) && arm == if compare(branch.opcode.comparison, lhs, rhs) then 0 else 1)
  }

  /** The pass may look through the block of `x` to where it goes on along `arm`. */
  ghost predicate LooksThrough(g: Cfg, compare: (nat, Value, Value) -> bool, f: SsaFunc, escaping: set<nat>, a: nat, x: Target, arm: nat)
    requires |g.nodes| > 0
  {
    && OnlyBranches(f, escaping, x.block) && arm < |Last(f, x.block).targets| && GoesOnAlong(compare, f, x, arm)
    && Nameable(g, f, f.blocks[x.block].params, Last(f, x.block).targets[arm].args, a)
  }

  /** What becomes of an arm that leads to `x`. */
  ghost predicate ArmBecomes(g: Cfg, compare: (nat, Value, Value) -> bool, f: SsaFunc, escaping: set<nat>, a: nat, x: Target, y: Target)
    requires |g.nodes| > 0
  {
    && (forall arm: nat | LooksThrough(g, compare, f, escaping, a, x, arm) ::
          y.block == Last(f, x.block).targets[arm].block
          && AllStandFor(f.blocks[x.block].params, x.args, Last(f, x.block).targets[arm].args, y.args))
    && ((forall arm: nat :: !LooksThrough(g, compare, f, escaping, a, x, arm)) ==> y == x)
  }

  lemma StandsForOne(params: seq<VReg>, args: seq<Operand>, operand: Operand, operand': Operand)
    requires |params| == |args| && Distinct(params)
    ensures StandsFor(params, args, operand, operand') <==> operand' == Subst(params, args, operand)
  {
  }

  lemma StandForOnlyOne(params: seq<VReg>, args: seq<Operand>, operands: seq<Operand>, operands': seq<Operand>)
    requires |params| == |args| && Distinct(params)
    ensures AllStandFor(params, args, operands, operands') <==> operands' == SubstAll(params, args, operands)
  {
    forall k | 0 <= k < |operands| && k < |operands'|
      ensures StandsFor(params, args, operands[k], operands'[k]) <==> operands'[k] == SubstAll(params, args, operands)[k]
    {
      StandsForOne(params, args, operands[k], operands'[k]);
    }
  }

  lemma DecidedMeans(compare: (nat, Value, Value) -> bool, f: SsaFunc, x: Target, arm: nat)
    requires x.block < |f.blocks| && BlockReady(f, x.block) && |x.args| == |f.blocks[x.block].params|
    ensures GoesOnAlong(compare, f, x, arm) <==> ArmOf(compare, f, x) == Some(arm)
  {
    var params, branch := f.blocks[x.block].params, Last(f, x.block);
    var operands := SubstAll(params, x.args, branch.operands);
    if branch.opcode.CJmp? || branch.opcode.FCJmp? {
      forall lhs, rhs
        ensures ComparesNumbers(f, x, lhs, rhs) <==> operands == [Immediate(lhs), Immediate(rhs)]
      {
        StandForOnlyOne(params, x.args, branch.operands, [Immediate(lhs), Immediate(rhs)]);
      }
      if ArmOf(compare, f, x) == Some(arm) {
        assert operands == [Immediate(operands[0].value), Immediate(operands[1].value)];
      }
    }
  }

  lemma LooksThroughMeans(g: Cfg, compare: (nat, Value, Value) -> bool, f: SsaFunc, escaping: set<nat>, a: nat, k: nat, arm: nat)
    requires |g.nodes| > 0 && ArgsFit(f) && a < |f.blocks| && BlockReady(f, a) && k < |Last(f, a).targets|
    requires forall b: nat | b < |f.blocks| :: BlockReady(f, b)
    ensures LooksThrough(g, compare, f, escaping, a, Last(f, a).targets[k], arm) <==>
            ArmApplies(g, compare, f, escaping, a, k) && ArmOf(compare, f, Last(f, a).targets[k]) == Some(arm)
  {
    var x := Last(f, a).targets[k];
    assert BranchFits(f, a) && x in Last(f, a).targets && TargetFits(f, x) && BlockReady(f, x.block);
    DecidedMeans(compare, f, x, arm);
    if arm < |Last(f, x.block).targets| {
      NameableIsReplaceable(g, f, f.blocks[x.block].params, Last(f, x.block).targets[arm].args, a);
    }
  }

  /** Arm `k` of the branch at the end of `a` leads to `y`. */
  function WithArm(f: SsaFunc, a: nat, k: nat, y: Target): SsaFunc
    requires a < |f.blocks| && |f.blocks[a].instrs| > 0 && k < |Last(f, a).targets|
  {
    Threaded(f, a, Last(f, a).(targets := Last(f, a).targets[k := y]))
  }

  /** One arm: told without the conditions the pass checks. */
  lemma ArmDoneMeans(g: Cfg, compare: (nat, Value, Value) -> bool, escaping: set<nat>, a: nat, k: nat, f: SsaFunc, f': SsaFunc)
    requires ArmDone(g, compare, escaping, a, k, f, f') && ArgsFit(f) && forall b: nat | b < |f.blocks| :: BlockReady(f, b)
    ensures a < |f'.blocks| && |f'.blocks[a].instrs| > 0 && k < |Last(f', a).targets|
    ensures f' == WithArm(f, a, k, Last(f', a).targets[k])
    ensures ArmBecomes(g, compare, f, escaping, a, Last(f, a).targets[k], Last(f', a).targets[k])
  {
    var x := Last(f, a).targets[k];
    assert BranchFits(f, a) && x in Last(f, a).targets && TargetFits(f, x) && BlockReady(f, x.block);
    forall arm: nat
      ensures LooksThrough(g, compare, f, escaping, a, x, arm) <==>
              ArmApplies(g, compare, f, escaping, a, k) && ArmOf(compare, f, x) == Some(arm)
    {
      LooksThroughMeans(g, compare, f, escaping, a, k, arm);
    }
    if ArmApplies(g, compare, f, escaping, a, k) {
      var arm := ArmOf(compare, f, x).value;
      SubstStandsFor(f.blocks[x.block].params, x.args, Last(f, x.block).targets[arm].args);
      assert LooksThrough(g, compare, f, escaping, a, x, arm);
    } else {
      assert Last(f, a).targets[k := x] == Last(f, a).targets;
      assert f.blocks[a].instrs[|f.blocks[a].instrs| - 1 := Last(f, a)] == f.blocks[a].instrs;
      assert f.blocks[a := f.blocks[a]] == f.blocks;
    }
  }

  lemma ArmDoneKeepsShape(g: Cfg, compare: (nat, Value, Value) -> bool, escaping: set<nat>, a: nat, k: nat, f: SsaFunc, f': SsaFunc)
    requires ArmDone(g, compare, escaping, a, k, f, f') && ArgsFit(f) && forall b: nat | b < |f.blocks| :: BlockReady(f, b)
    ensures |f'.blocks| == |f.blocks| && ArgsFit(f') && forall b: nat | b < |f'.blocks| :: BlockReady(f', b)
  {
    if ArmApplies(g, compare, f, escaping, a, k) {
      var x := Last(f, a).targets[k];
      assert BranchFits(f, a) && x in Last(f, a).targets && TargetFits(f, x);
      ArmLeadsOn(compare, f, a, k);
      forall b: nat | b < |f.blocks|
        ensures BranchFits(f', b) && BlockReady(f', b)
      {
        assert BranchFits(f, b) && BlockReady(f, b);
        forall y | y in Last(f', b).targets
          ensures TargetFits(f', y)
        {
          assert TargetFits(f, y);
        }
      }
    }
  }

  /** Nothing but a jump without arguments to another block. */
  predicate OnlyJumpsTo(f: SsaFunc, t: nat, u: nat) {
    && t < |f.blocks| && f.blocks[t].params == [] && |f.blocks[t].instrs| == 1
    && f.blocks[t].instrs[0].opcode.Jmp? && f.blocks[t].instrs[0].targets == [Target(u, [])]
  }

  lemma JumpIsLookedThrough(g: Cfg, compare: (nat, Value, Value) -> bool, f: SsaFunc, escaping: set<nat>, a: nat, x: Target, u: nat, y: Target)
    requires |g.nodes| > 0 && OnlyJumpsTo(f, x.block, u) && x.block !in escaping && ArmBecomes(g, compare, f, escaping, a, x, y)
    ensures y == Target(u, [])
  {
    assert LooksThrough(g, compare, f, escaping, a, x, 0);
  }

  lemma WithArmIs(f: SsaFunc, a: nat, k: nat, y: Target)
    requires a < |f.blocks| && |f.blocks[a].instrs| > 0 && k < |Last(f, a).targets|
    ensures var h := WithArm(f, a, k, y);
            && |h.blocks| == |f.blocks| && (forall b | 0 <= b < |f.blocks| && b != a :: h.blocks[b] == f.blocks[b])
            && |h.blocks[a].instrs| > 0 && Last(h, a).opcode == Last(f, a).opcode && Last(h, a).targets == Last(f, a).targets[k := y]
  {
  }

  lemma ArmIsTried(g: Cfg, compare: (nat, Value, Value) -> bool, escaping: set<nat>, a: nat, k: nat, f: SsaFunc, f': SsaFunc, u: nat)
    requires ArmDone(g, compare, escaping, a, k, f, f') && ArgsFit(f) && (forall b: nat | b < |f.blocks| :: BlockReady(f, b))
    requires OnlyJumpsTo(f, Last(f, a).targets[k].block, u) && Last(f, a).targets[k].block !in escaping
    ensures f' == WithArm(f, a, k, Target(u, []))
  {
    ArmDoneMeans(g, compare, escaping, a, k, f, f');
    JumpIsLookedThrough(g, compare, f, escaping, a, Last(f, a).targets[k], u, Last(f', a).targets[k]);
  }

  lemma OtherArmStays(g: Cfg, compare: (nat, Value, Value) -> bool, escaping: set<nat>, a: nat, k: nat, f: SsaFunc, f': SsaFunc)
    requires ArmDone(g, compare, escaping, a, k, f, f') && ArgsFit(f) && (forall b: nat | b < |f.blocks| :: BlockReady(f, b))
    ensures |f'.blocks| == |f.blocks| && forall b | 0 <= b < |f.blocks| && b != a :: f'.blocks[b] == f.blocks[b]
    ensures |f'.blocks[a].instrs| > 0 && |Last(f', a).targets| == |Last(f, a).targets|
    ensures forall j | 0 <= j < |Last(f, a).targets| && j != k :: Last(f', a).targets[j] == Last(f, a).targets[j]
  {
    ArmDoneMeans(g, compare, escaping, a, k, f, f');
    WithArmIs(f, a, k, Last(f', a).targets[k]);
  }

  /** Both arms: after the visit, one that led to a block with nothing but a jump leads to where that jumps. */
  lemma BothArmsAreTried(g: Cfg, compare: (nat, Value, Value) -> bool, escaping: set<nat>, a: nat, f: SsaFunc, f': SsaFunc, k: nat, u: nat)
    requires Visited(g, compare, escaping, a, f, f') && ArgsFit(f) && (forall b: nat | b < |f.blocks| :: BlockReady(f, b))
    requires (Last(f, a).opcode.CJmp? || Last(f, a).opcode.FCJmp?) && k < 2
    requires OnlyJumpsTo(f, Last(f, a).targets[k].block, u) && Last(f, a).targets[k].block !in escaping
    ensures a < |f'.blocks| && |f'.blocks[a].instrs| > 0 && k < |Last(f', a).targets| && Last(f', a).targets[k] == Target(u, [])
  {
    var h :| ArmDone(g, compare, escaping, a, 0, f, h) && ArmDone(g, compare, escaping, a, 1, h, f');
    ArmDoneKeepsShape(g, compare, escaping, a, 0, f, h);
    OtherArmStays(g, compare, escaping, a, 0, f, h);
    OtherArmStays(g, compare, escaping, a, 1, h, f');
    if k == 0 {
      ArmIsTried(g, compare, escaping, a, 0, f, h, u);
      WithArmIs(f, a, 0, Target(u, []));
    } else {
      ArmIsTried(g, compare, escaping, a, 1, h, f', u);
      WithArmIs(h, a, 1, Target(u, []));
    }
  }

  /** The pass may look through the block the jump leads to. */
  ghost predicate JumpsThrough(g: Cfg, f: SsaFunc, escaping: set<nat>, a: nat, x: Target)
    requires |g.nodes| > 0
  {
    && OnlyBranches(f, escaping, x.block)
    && (Last(f, x.block).opcode.Jmp? || Last(f, x.block).opcode.CJmp? || Last(f, x.block).opcode.FCJmp?)
    && Nameable(g, f, f.blocks[x.block].params, Last(f, x.block).operands, a)
    && forall k | 0 <= k < |Last(f, x.block).targets| ::
         Nameable(g, f, f.blocks[x.block].params, Last(f, x.block).targets[k].args, a)
  }

  /** `branch'` is `branch` with the parameters replaced. */
  ghost predicate BranchStandsFor(params: seq<VReg>, args: seq<Operand>, branch: SsaInstr, branch': SsaInstr) {
    && branch'.opcode == branch.opcode && branch'.dest == branch.dest && AllStandFor(params, args, branch.operands, branch'.operands)
    && |branch'.targets| == |branch.targets|
    && forall k | 0 <= k < |branch.targets| ::
         branch'.targets[k].block == branch.targets[k].block && AllStandFor(params, args, branch.targets[k].args, branch'.targets[k].args)
  }

  lemma JumpsThroughMeans(g: Cfg, f: SsaFunc, escaping: set<nat>, a: nat)
    requires |g.nodes| > 0 && ArgsFit(f) && a < |f.blocks| && BlockReady(f, a) && Last(f, a).opcode == Jmp
    requires forall b: nat | b < |f.blocks| :: BlockReady(f, b)
    ensures JumpsThrough(g, f, escaping, a, Last(f, a).targets[0]) <==> JumpApplies(g, f, escaping, a)
  {
    var x := Last(f, a).targets[0];
    assert BranchFits(f, a) && x in Last(f, a).targets && TargetFits(f, x) && BlockReady(f, x.block);
    var params, branch := f.blocks[x.block].params, Last(f, x.block);
    NameableIsReplaceable(g, f, params, branch.operands, a);
    forall k | 0 <= k < |branch.targets|
      ensures Nameable(g, f, params, branch.targets[k].args, a) <==> AllReplaceable(g, f, params, branch.targets[k].args, a)
    {
      NameableIsReplaceable(g, f, params, branch.targets[k].args, a);
    }
  }

  /** A jump: told without the conditions the pass checks. */
  lemma JumpDoneMeans(g: Cfg, escaping: set<nat>, a: nat, f: SsaFunc, f': SsaFunc)
    requires |g.nodes| > 0 && a < |f.blocks| && BlockReady(f, a) && Last(f, a).opcode == Jmp
    requires JumpDone(g, escaping, a, f, f') && ArgsFit(f) && forall b: nat | b < |f.blocks| :: BlockReady(f, b)
    ensures var x := Last(f, a).targets[0];
            if JumpsThrough(g, f, escaping, a, x) then
              exists branch :: BranchStandsFor(f.blocks[x.block].params, x.args, Last(f, x.block), branch) && f' == Threaded(f, a, branch)
            else f' == f
  {
    var x := Last(f, a).targets[0];
    assert BranchFits(f, a) && x in Last(f, a).targets && TargetFits(f, x) && BlockReady(f, x.block);
    JumpsThroughMeans(g, f, escaping, a);
    if JumpApplies(g, f, escaping, a) {
      var params, branch := f.blocks[x.block].params, Last(f, x.block);
      SubstStandsFor(params, x.args, branch.operands);
      forall k | 0 <= k < |branch.targets|
        ensures AllStandFor(params, x.args, branch.targets[k].args, SubstTarget(params, x.args, branch.targets[k]).args)
      {
        SubstStandsFor(params, x.args, branch.targets[k].args);
      }
      assert BranchStandsFor(params, x.args, branch, ThroughJump(f, x.block, Last(f, a)));
    }
  }

  /** Each block once, in the order of the function: its jump, or both arms of its conditional branch. */
  method InlineBranches(pass: ControlFlowOptPass, order: seq<nat>)
    requires pass.Valid() && forall k | 0 <= k < |order| :: order[k] < |pass.func.blocks|
    modifies pass`func, pass`bypassed
    ensures pass.Valid() && |pass.func.blocks| == |old(pass.func).blocks|
    ensures AllVisited(pass.cfg, pass.compare, pass.escaping, order, old(pass.func), pass.func)
    ensures NeverDiffers(pass.compare, old(pass.func), pass.func)
  {
    SameNeverDiffers(pass.compare, pass.func);
    for k := 0 to |order|
      invariant pass.Valid() && |pass.func.blocks| == |old(pass.func).blocks|
      invariant AllVisited(pass.cfg, pass.compare, pass.escaping, order[..k], old(pass.func), pass.func)
      invariant NeverDiffers(pass.compare, old(pass.func), pass.func)
    {
      InlineBranch(pass, order[k], old(pass.func));
      assert order[..k + 1][..k] == order[..k];
    }
    assert order[..|order|] == order;
  }

  method InlineBranch(pass: ControlFlowOptPass, a: nat, ghost f: SsaFunc)
    requires pass.Valid() && a < |pass.func.blocks| && NeverDiffers(pass.compare, f, pass.func)
    modifies pass`func, pass`bypassed
    ensures pass.Valid() && |pass.func.blocks| == |old(pass.func).blocks|
    ensures Visited(pass.cfg, pass.compare, pass.escaping, a, old(pass.func), pass.func)
    ensures NeverDiffers(pass.compare, f, pass.func)
  {
    assert BlockReady(pass.func, a);
    var branch := Last(pass.func, a);
    if branch.opcode == Jmp {
      InlineJump(pass, a, f);
    } else if IsCondBranch(branch.opcode) {
      InlineArm(pass, a, 0, f);
      assert BlockReady(pass.func, a);
      InlineArm(pass, a, 1, f);
    }
  }

  lemma JumpNeverDiffers(g: Cfg, compare: (nat, Value, Value) -> bool, f: SsaFunc, escaping: set<nat>, a: nat)
    requires |g.nodes| > 0 && Ready(GraphOf(f), f) && EscapingCover(f, escaping) && a < |f.blocks| && BlockReady(f, a)
    requires Last(f, a).opcode == Jmp && JumpApplies(g, f, escaping, a)
    ensures NeverDiffers(compare, f, Threaded(f, a, ThroughJump(f, Last(f, a).targets[0].block, Last(f, a))))
  {
    JumpIsStep(compare, f, escaping, a, g);
    var t := Last(f, a).targets[0].block;
    StepNeverDiffers(compare, GraphOf(f), f, a, t, Threaded(f, a, ThroughJump(f, t, Last(f, a))));
  }

  lemma ArmNeverDiffers(g: Cfg, compare: (nat, Value, Value) -> bool, f: SsaFunc, escaping: set<nat>, a: nat, k: nat)
    requires |g.nodes| > 0 && Ready(GraphOf(f), f) && EscapingCover(f, escaping) && a < |f.blocks| && BlockReady(f, a)
    requires IsCondBranch(Last(f, a).opcode) && k < |Last(f, a).targets| && ArmApplies(g, compare, f, escaping, a, k)
    ensures NeverDiffers(compare, f, Threaded(f, a, ArmBranch(compare, f, a, k)))
    ensures Last(Threaded(f, a, ArmBranch(compare, f, a, k)), a).opcode == Last(f, a).opcode
  {
    ArmIsStep(compare, f, escaping, a, k, g);
    StepNeverDiffers(compare, GraphOf(f), f, a, Last(f, a).targets[k].block, Threaded(f, a, ArmBranch(compare, f, a, k)));
  }

  method InlineJump(pass: ControlFlowOptPass, a: nat, ghost f: SsaFunc)
    requires pass.Valid() && a < |pass.func.blocks| && BlockReady(pass.func, a) && Last(pass.func, a).opcode == Jmp
    requires NeverDiffers(pass.compare, f, pass.func)
    modifies pass`func, pass`bypassed
    ensures pass.Valid() && |pass.func.blocks| == |old(pass.func).blocks|
    ensures JumpDone(pass.cfg, pass.escaping, a, old(pass.func), pass.func)
    ensures NeverDiffers(pass.compare, f, pass.func)
  {
    ghost var before := pass.func;
    pass.TryInlineIntoJmp(a);
    if JumpApplies(pass.cfg, before, pass.escaping, a) {
      JumpNeverDiffers(pass.cfg, pass.compare, before, pass.escaping, a);
      NeverDiffersTransitive(pass.compare, f, before, pass.func);
    }
  }

  method InlineArm(pass: ControlFlowOptPass, a: nat, k: nat, ghost f: SsaFunc)
    requires pass.Valid() && a < |pass.func.blocks| && BlockReady(pass.func, a) && IsCondBranch(Last(pass.func, a).opcode) && k < 2
    requires NeverDiffers(pass.compare, f, pass.func)
    modifies pass`func, pass`bypassed
    ensures pass.Valid() && |pass.func.blocks| == |old(pass.func).blocks|
    ensures ArmDone(pass.cfg, pass.compare, pass.escaping, a, k, old(pass.func), pass.func)
    ensures NeverDiffers(pass.compare, f, pass.func)
    ensures |pass.func.blocks[a].instrs| > 0 && Last(pass.func, a).opcode == Last(old(pass.func), a).opcode
  {
    ghost var before := pass.func;
    pass.TryInlineIntoCjmp(a, k);
    if ArmApplies(pass.cfg, pass.compare, before, pass.escaping, a, k) {
      ArmNeverDiffers(pass.cfg, pass.compare, before, pass.escaping, a, k);
      NeverDiffersTransitive(pass.compare, f, before, pass.func);
    }
  }
}
