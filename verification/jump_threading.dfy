/** Bypassing a block that only branches keeps the meaning of a function (src/banjo/passes/control_flow_opt_pass.cpp). */
module JumpThreading {
  import opened Graph
  import opened RegAllocFunc
  import opened Dominance
  import opened Ssa

  predicate IsCondBranch(opcode: Opcode) {
    opcode.CJmp? || opcode.FCJmp?
  }

  /** What a machine does with the branch instructions; `compare` is the comparison done ahead of time. */
  ghost predicate BranchesAs(m: SsaMachine, compare: (nat, Value, Value) -> bool) {
    && (forall values, mem :: m.choose(Jmp, values, mem) == 0)
    && forall opcode, a, b, mem {:trigger m.choose(opcode, [a, b], mem)} :: IsCondBranch(opcode) ==>
         m.choose(opcode, [a, b], mem) == if compare(opcode.comparison, a, b) then 0 else 1
  }

  /** Branch instructions have the operands their opcode asks for. */
  predicate BranchShape(instr: SsaInstr) {
    instr.dest.None?
    && (instr.opcode == Jmp ==> instr.operands == [] && |instr.targets| == 1)
    && (IsCondBranch(instr.opcode) ==> |instr.operands| == 2 && |instr.targets| == 2)
  }

  function Last(f: SsaFunc, b: nat): SsaInstr
    requires b < |f.blocks| && |f.blocks[b].instrs| > 0
  {
    f.blocks[b].instrs[|f.blocks[b].instrs| - 1]
  }

  // ---- Substituting branch arguments ----

  function ParamIndex(params: seq<VReg>, r: VReg): (i: Option<nat>)
    ensures i.Some? ==> i.value < |params| && params[i.value] == r
    ensures i.None? ==> r !in params
  {
    if params == [] then None
    else if params[0] == r then Some(0)
    else
      var i := ParamIndex(params[1..], r);
      if i.Some? then Some(i.value + 1) else None
  }

  function Subst(params: seq<VReg>, args: seq<Operand>, operand: Operand): Operand {
    if operand.Register? then
      var i := ParamIndex(params, operand.r);
      if i.Some? && i.value < |args| then args[i.value] else operand
    else operand
  }

  function SubstAll(params: seq<VReg>, args: seq<Operand>, operands: seq<Operand>): (s: seq<Operand>)
    ensures |s| == |operands| && forall k :: 0 <= k < |s| ==> s[k] == Subst(params, args, operands[k])
  {
    if operands == [] then []
    else SubstAll(params, args, operands[..|operands| - 1]) + [Subst(params, args, operands[|operands| - 1])]
  }

  function SubstTarget(params: seq<VReg>, args: seq<Operand>, t: Target): Target {
    Target(t.block, SubstAll(params, args, t.args))
  }

  function SubstTargets(params: seq<VReg>, args: seq<Operand>, targets: seq<Target>): (s: seq<Target>)
    ensures |s| == |targets| && forall k :: 0 <= k < |s| ==> s[k] == SubstTarget(params, args, targets[k])
  {
    if targets == [] then []
    else SubstTargets(params, args, targets[..|targets| - 1]) + [SubstTarget(params, args, targets[|targets| - 1])]
  }

  function SubstBranch(params: seq<VReg>, args: seq<Operand>, branch: SsaInstr): SsaInstr {
    branch.(operands := SubstAll(params, args, branch.operands), targets := SubstTargets(params, args, branch.targets))
  }

  ghost predicate Distinct(params: seq<VReg>) {
    forall j, k :: 0 <= j < k < |params| ==> params[j] != params[k]
  }

  lemma {:induction false} BoundValue(regs: RegValues, params: seq<VReg>, values: seq<Value>, n: nat, i: nat)
    requires Distinct(params) && i < n <= |params| == |values|
    ensures Read(Bind(regs, params, values, n), params[i]) == values[i]
  {
    if i < n - 1 { BoundValue(regs, params, values, n - 1, i); }
  }

  lemma {:induction false} ValueAt(regs: RegValues, operands: seq<Operand>, i: nat)
    requires i < |operands|
    ensures |ValuesOf(regs, operands)| == |operands| && ValuesOf(regs, operands)[i] == ValueOf(regs, operands[i])
  {
    ValuesCount(regs, operands);
    ValuesCount(regs, operands[..|operands| - 1]);
    if i < |operands| - 1 { ValueAt(regs, operands[..|operands| - 1], i); }
  }

  /** Reading an operand after the parameters have been bound is reading the substituted operand before. */
  lemma SubstValue(regs: RegValues, params: seq<VReg>, args: seq<Operand>, operand: Operand)
    requires Distinct(params) && |params| == |args|
    ensures |ValuesOf(regs, args)| == |args|
    ensures ValueOf(Bind(regs, params, ValuesOf(regs, args), |params|), operand) == ValueOf(regs, Subst(params, args, operand))
  {
    ValuesCount(regs, args);
    if operand.Register? {
      var i := ParamIndex(params, operand.r);
      if i.Some? {
        BoundValue(regs, params, ValuesOf(regs, args), |params|, i.value);
        ValueAt(regs, args, i.value);
      } else {
        BindTells(regs, regs, params, ValuesOf(regs, args), |params|, operand.r);
        assert params[..|params|] == params;
      }
    }
  }

  /** All operands at once: the substitution is simultaneous. */
  lemma {:induction false} SubstValues(regs: RegValues, params: seq<VReg>, args: seq<Operand>, operands: seq<Operand>)
    requires Distinct(params) && |params| == |args|
    ensures |ValuesOf(regs, args)| == |args|
    ensures ValuesOf(Bind(regs, params, ValuesOf(regs, args), |params|), operands) == ValuesOf(regs, SubstAll(params, args, operands))
  {
    ValuesCount(regs, args);
    if operands != [] {
      var n := |operands| - 1;
      SubstValues(regs, params, args, operands[..n]);
      SubstValue(regs, params, args, operands[n]);
      assert SubstAll(params, args, operands)[..n] == SubstAll(params, args, operands[..n]);
    }
  }

  // ---- One step ----

  /** Blocks of distinct parameters, well-formed branches, and parameters that no other block reads. */
  ghost predicate Bypassable(f: SsaFunc, t: nat) {
    && t < |f.blocks| && |f.blocks[t].instrs| == 1 && BranchShape(Last(f, t))
    && Distinct(f.blocks[t].params) && NoEscape(f, t)
    && forall c: nat | c < |f.blocks| :: |f.blocks[c].instrs| > 0
  }

  /** The parameters of `t` are read in `t` only. */
  ghost predicate NoEscape(f: SsaFunc, t: nat)
    requires t < |f.blocks|
  {
    forall b: nat, i: nat {:trigger f.blocks[b].instrs[i]} | b < |f.blocks| && b != t && i < |f.blocks[b].instrs| ::
      forall r :: r in UsedRegs(f.blocks[b].instrs[i]) ==> r !in f.blocks[t].params
  }

  /** The arm of the block's branch that is taken for sure, given what is known about its operands. */
  function DecidedArm(compare: (nat, Value, Value) -> bool, branch: SsaInstr): Option<nat> {
    if branch.opcode == Jmp then Some(0)
    else if IsCondBranch(branch.opcode) && |branch.operands| == 2 && branch.operands[0].Immediate? && branch.operands[1].Immediate? then
      Some(if compare(branch.opcode.comparison, branch.operands[0].value, branch.operands[1].value) then 0 else 1)
    else None
  }

  /** The branch that replaces a jump to `t`. */
  function ThroughJump(f: SsaFunc, t: nat, branch: SsaInstr): SsaInstr
    requires t < |f.blocks| && |f.blocks[t].instrs| > 0 && |branch.targets| == 1
  {
    SubstBranch(f.blocks[t].params, branch.targets[0].args, Last(f, t))
  }

  /** The target that replaces arm `k`, which leads to `t`. */
  function ThroughArm(f: SsaFunc, t: nat, arm: nat, target: Target): Target
    requires t < |f.blocks| && |f.blocks[t].instrs| > 0 && arm < |Last(f, t).targets|
  {
    SubstTarget(f.blocks[t].params, target.args, Last(f, t).targets[arm])
  }

  /** `branch` is what the pass may put in place of the branch of block `a`, bypassing `t`. */
  ghost predicate Replacement(compare: (nat, Value, Value) -> bool, f: SsaFunc, a: nat, t: nat, branch: SsaInstr)
    requires Bypassable(f, t) && a < |f.blocks|
  {
    var old_ := Last(f, a);
    BranchShape(old_) &&
    ((old_.opcode == Jmp && old_.targets[0].block == t && |old_.targets[0].args| == |f.blocks[t].params|
      && branch == ThroughJump(f, t, old_))
     || exists k :: ReplacesArm(compare, f, a, t, branch, k))
  }

  ghost predicate ReplacesArm(compare: (nat, Value, Value) -> bool, f: SsaFunc, a: nat, t: nat, branch: SsaInstr, k: nat)
    requires Bypassable(f, t) && a < |f.blocks|
  {
    var old_ := Last(f, a);
    && IsCondBranch(old_.opcode) && k < |old_.targets| && old_.targets[k].block == t
    && |old_.targets[k].args| == |f.blocks[t].params|
    && var arm := DecidedArm(compare, SubstBranch(f.blocks[t].params, old_.targets[k].args, Last(f, t)));
       arm.Some? && arm.value < |Last(f, t).targets|
       && branch == old_.(targets := old_.targets[k := ThroughArm(f, t, arm.value, old_.targets[k])])
  }

  function Threaded(f: SsaFunc, a: nat, branch: SsaInstr): SsaFunc
    requires a < |f.blocks| && |f.blocks[a].instrs| > 0
  {
    var instrs := f.blocks[a].instrs;
    SsaFunc(f.blocks[a := f.blocks[a].(instrs := instrs[|instrs| - 1 := branch])])
  }

  // ---- The relation between the two programs ----

  ghost predicate RelAt(f: SsaFunc, t: nat, c: Control, st: SsaState, st': SsaState, r: VReg)
    requires t < |f.blocks|
  {
    (r in f.blocks[t].params && c != AtBlock(t)) || Read(st.regs, r) == Read(st'.regs, r)
  }

  /** Same memory and same registers, except that the parameters of `t` only matter in `t`. */
  ghost predicate Rel(f: SsaFunc, t: nat, c: Control, st: SsaState, st': SsaState)
    requires t < |f.blocks|
  {
    st.mem == st'.mem && forall r {:trigger RelAt(f, t, c, st, st', r)} :: RelAt(f, t, c, st, st', r)
  }

  lemma RelValues(f: SsaFunc, t: nat, c: Control, st: SsaState, st': SsaState, operands: seq<Operand>)
    requires t < |f.blocks| && Rel(f, t, c, st, st')
    requires c == AtBlock(t) || forall r | r in OperandRegs(operands) :: r !in f.blocks[t].params
    ensures ValuesOf(st.regs, operands) == ValuesOf(st'.regs, operands)
  {
    forall r | r in OperandRegs(operands)
      ensures Read(st.regs, r) == Read(st'.regs, r)
    {
      assert RelAt(f, t, c, st, st', r);
    }
    SameValues(st.regs, st'.regs, operands);
  }

  /** The operands of an instruction of block `b` may be read in both programs. */
  lemma InstrOperandsMatter(f: SsaFunc, t: nat, b: nat, i: nat)
    requires Bypassable(f, t) && b < |f.blocks| && i < |f.blocks[b].instrs| && b != t
    ensures forall r | r in OperandRegs(f.blocks[b].instrs[i].operands) :: r !in f.blocks[t].params
    ensures forall k, r | 0 <= k < |f.blocks[b].instrs[i].targets| && r in OperandRegs(f.blocks[b].instrs[i].targets[k].args) ::
              r !in f.blocks[t].params
  {
    var instr := f.blocks[b].instrs[i];
    forall k, r | 0 <= k < |instr.targets| && r in OperandRegs(instr.targets[k].args)
      ensures r !in f.blocks[t].params
    {
      assert r in TargetRegs(instr.targets);
    }
  }

  lemma ExecKeepsRel(m: SsaMachine, f: SsaFunc, t: nat, b: nat, i: nat, st: SsaState, st': SsaState)
    requires Bypassable(f, t) && b < |f.blocks| && i < |f.blocks[b].instrs| && Rel(f, t, AtBlock(b), st, st')
    ensures Rel(f, t, AtBlock(b), Exec(m, f.blocks[b].instrs[i], st), Exec(m, f.blocks[b].instrs[i], st'))
  {
    var instr := f.blocks[b].instrs[i];
    if b != t { InstrOperandsMatter(f, t, b, i); }
    RelValues(f, t, AtBlock(b), st, st', instr.operands);
    forall r
      ensures RelAt(f, t, AtBlock(b), Exec(m, instr, st), Exec(m, instr, st'), r)
    {
      assert RelAt(f, t, AtBlock(b), st, st', r);
    }
  }

  lemma {:induction false} RangeKeepsRel(m: SsaMachine, f: SsaFunc, t: nat, b: nat, n: nat, st: SsaState, st': SsaState)
    requires Bypassable(f, t) && b < |f.blocks| && n <= |f.blocks[b].instrs| && Rel(f, t, AtBlock(b), st, st')
    ensures Rel(f, t, AtBlock(b), ExecRange(m, f.blocks[b].instrs, 0, n, st), ExecRange(m, f.blocks[b].instrs, 0, n, st'))
  {
    if n > 0 {
      RangeKeepsRel(m, f, t, b, n - 1, st, st');
      ExecKeepsRel(m, f, t, b, n - 1, ExecRange(m, f.blocks[b].instrs, 0, n - 1, st), ExecRange(m, f.blocks[b].instrs, 0, n - 1, st'));
    }
  }

  /** Entering a block with the same values from states that agree on what is not a parameter of `t`. */
  lemma EnterKeepsRel(f: SsaFunc, t: nat, c: Control, st: SsaState, st': SsaState, x: Target, y: Target)
    requires Bypassable(f, t) && x.block == y.block < |f.blocks| && Rel(f, t, c, st, st')
    requires ValuesOf(st.regs, x.args) == ValuesOf(st'.regs, y.args) && |x.args| == |f.blocks[x.block].params|
    ensures Rel(f, t, AtBlock(x.block), st.(regs := Enter(f, st.regs, x)), st'.(regs := Enter(f, st'.regs, y)))
  {
    var params, values := f.blocks[x.block].params, ValuesOf(st.regs, x.args);
    ValuesCount(st.regs, x.args);
    assert params[..|params|] == params;
    forall r
      ensures RelAt(f, t, AtBlock(x.block), st.(regs := Enter(f, st.regs, x)), st'.(regs := Enter(f, st'.regs, y)), r)
    {
      assert RelAt(f, t, c, st, st', r);
      BindTells(st.regs, st'.regs, params, values, |params|, r);
      BindTells(st'.regs, st.regs, params, values, |params|, r);
    }
  }

  /** Every branch passes as many arguments as the block it leads to has parameters. */
  ghost predicate ArgsFit(f: SsaFunc) {
    forall b: nat {:trigger BranchFits(f, b)} :: BranchFits(f, b)
  }

  ghost predicate BranchFits(f: SsaFunc, b: nat) {
    b < |f.blocks| && |f.blocks[b].instrs| > 0 ==> forall x :: x in Last(f, b).targets ==> TargetFits(f, x)
  }

  ghost predicate TargetFits(f: SsaFunc, x: Target) {
    x.block < |f.blocks| && |x.args| == |f.blocks[x.block].params|
  }

  // ---- Branching ----

  /** What a branch does depends on the blocks only through their parameters. */
  ghost predicate SameParams(f: SsaFunc, f': SsaFunc) {
    |f'.blocks| == |f.blocks| && forall c: nat | c < |f.blocks| :: f'.blocks[c].params == f.blocks[c].params
  }

  /** The same branch, from related states. */
  lemma BranchKeepsRel(m: SsaMachine, f: SsaFunc, f': SsaFunc, t: nat, b: nat, st: SsaState, st': SsaState)
    requires Bypassable(f, t) && ArgsFit(f) && SameParams(f, f') && b < |f.blocks| && Rel(f, t, AtBlock(b), st, st')
    ensures var (c, next), (c', next') := Branch(m, f, Last(f, b), st), Branch(m, f', Last(f, b), st');
            c == c' && Rel(f, t, c, next, next')
  {
    var branch := Last(f, b);
    if b != t { InstrOperandsMatter(f, t, b, |f.blocks[b].instrs| - 1); }
    RelValues(f, t, AtBlock(b), st, st', branch.operands);
    var k := m.choose(branch.opcode, ValuesOf(st.regs, branch.operands), st.mem);
    if k < |branch.targets| {
      ArmKeepsRel(m, f, f', t, b, k, st, st');
    } else {
      RelAfterReturn(f, t, AtBlock(b), st, st', ValuesOf(st.regs, branch.operands));
    }
  }

  lemma ArmKeepsRel(m: SsaMachine, f: SsaFunc, f': SsaFunc, t: nat, b: nat, k: nat, st: SsaState, st': SsaState)
    requires Bypassable(f, t) && ArgsFit(f) && SameParams(f, f') && b < |f.blocks| && Rel(f, t, AtBlock(b), st, st')
    requires k < |Last(f, b).targets|
    ensures var x := Last(f, b).targets[k];
            TargetFits(f, x) && Rel(f, t, AtBlock(x.block), st.(regs := Enter(f, st.regs, x)), st'.(regs := Enter(f', st'.regs, x)))
  {
    var x := Last(f, b).targets[k];
    assert BranchFits(f, b) && x in Last(f, b).targets;
    if b != t { InstrOperandsMatter(f, t, b, |f.blocks[b].instrs| - 1); }
    RelValues(f, t, AtBlock(b), st, st', x.args);
    EnterKeepsRel(f, t, AtBlock(b), st, st', x, x);
  }

  /** What holds in a block holds for everything outside `t`. */
  lemma RelAfterReturn(f: SsaFunc, t: nat, c: Control, st: SsaState, st': SsaState, values: seq<Value>)
    requires t < |f.blocks| && Rel(f, t, c, st, st')
    ensures Rel(f, t, Returned(values), st, st')
  {
    forall r
      ensures RelAt(f, t, Returned(values), st, st', r)
    {
      assert RelAt(f, t, c, st, st', r);
    }
  }

  // ---- Going through `t` ----

  lemma {:induction false} SubstRegs(params: seq<VReg>, args: seq<Operand>, operands: seq<Operand>, r: VReg)
    requires |args| == |params| && r in OperandRegs(SubstAll(params, args, operands))
    ensures r in OperandRegs(args) || (r !in params && r in OperandRegs(operands))
  {
    var k :| 0 <= k < |operands| && Subst(params, args, operands[k]).Register? && Subst(params, args, operands[k]).r == r;
    if operands[k].Register? {
      var i := ParamIndex(params, operands[k].r);
      if i.Some? { assert args[i.value].r in OperandRegs(args); }
    }
  }

  /** The state in which `t` starts, entered from `st` through target `x`. */
  function Through(f: SsaFunc, x: Target, st: SsaState): SsaState
    requires x.block < |f.blocks|
  {
    st.(regs := Enter(f, st.regs, x))
  }

  /** An operand of the branch of `t` has the value its substitute has before `t`. */
  lemma ThroughValues(f: SsaFunc, t: nat, a: nat, k: nat, st: SsaState, st': SsaState, operands: seq<Operand>)
    requires Bypassable(f, t) && a < |f.blocks| && Rel(f, t, AtBlock(a), st, st')
    requires k < |Last(f, a).targets| && Last(f, a).targets[k].block == t && TargetFits(f, Last(f, a).targets[k])
    ensures var x := Last(f, a).targets[k];
            ValuesOf(Through(f, x, st).regs, operands) == ValuesOf(st'.regs, SubstAll(f.blocks[t].params, x.args, operands))
  {
    var x, params := Last(f, a).targets[k], f.blocks[t].params;
    SubstValues(st.regs, params, x.args, operands);
    var substituted := SubstAll(params, x.args, operands);
    if a != t {
      InstrOperandsMatter(f, t, a, |f.blocks[a].instrs| - 1);
      forall r | r in OperandRegs(substituted)
        ensures r !in params
      {
        SubstRegs(params, x.args, operands, r);
      }
    }
    RelValues(f, t, AtBlock(a), st, st', substituted);
  }

  /** Entering `t` changes nothing but its parameters. */
  lemma ThroughKeepsRel(f: SsaFunc, t: nat, a: nat, x: Target, st: SsaState, st': SsaState)
    requires Bypassable(f, t) && Rel(f, t, AtBlock(a), st, st') && x.block == t && TargetFits(f, x)
    ensures Rel(f, t, Returned([]), Through(f, x, st), st')
  {
    var params, values := f.blocks[t].params, ValuesOf(st.regs, x.args);
    ValuesCount(st.regs, x.args);
    assert params[..|params|] == params;
    forall r
      ensures RelAt(f, t, Returned([]), Through(f, x, st), st', r)
    {
      assert RelAt(f, t, AtBlock(a), st, st', r);
      BindTells(st.regs, st.regs, params, values, |params|, r);
    }
  }

  /** Arm `arm` of `t` after arm `k` of `a` leads where the substituted target leads, with the same parameter values. */
  lemma ThroughArmKeepsRel(f: SsaFunc, f': SsaFunc, t: nat, a: nat, k: nat, arm: nat, st: SsaState, st': SsaState)
    requires Bypassable(f, t) && ArgsFit(f) && SameParams(f, f') && a < |f.blocks| && Rel(f, t, AtBlock(a), st, st')
    requires k < |Last(f, a).targets| && Last(f, a).targets[k].block == t && TargetFits(f, Last(f, a).targets[k])
    requires arm < |Last(f, t).targets|
    ensures var x, y := Last(f, a).targets[k], Last(f, t).targets[arm];
            var y' := ThroughArm(f, t, arm, x);
            && TargetFits(f, y) && y'.block == y.block
            && Rel(f, t, AtBlock(y.block), Through(f, y, Through(f, x, st)), st'.(regs := Enter(f', st'.regs, y')))
  {
    var x, y := Last(f, a).targets[k], Last(f, t).targets[arm];
    assert BranchFits(f, t) && y in Last(f, t).targets;
    ThroughKeepsRel(f, t, a, x, st, st');
    ThroughValues(f, t, a, k, st, st', y.args);
    EnterKeepsRel(f, t, Returned([]), Through(f, x, st), st', y, ThroughArm(f, t, arm, x));
  }

  /** Running `t`, which has nothing but its branch. */
  lemma RunBypassed(m: SsaMachine, f: SsaFunc, t: nat, st: SsaState)
    requires Bypassable(f, t)
    ensures RunBlock(m, f, t, st) == Branch(m, f, Last(f, t), st)
  {
  }

  /** A jump to `t` replaced by the branch of `t`. */
  lemma JumpThrough(m: SsaMachine, f: SsaFunc, f': SsaFunc, t: nat, a: nat, st: SsaState, st': SsaState)
    requires Bypassable(f, t) && ArgsFit(f) && SameParams(f, f') && a < |f.blocks| && Rel(f, t, AtBlock(a), st, st')
    requires |Last(f, a).targets| == 1 && Last(f, a).targets[0].block == t && TargetFits(f, Last(f, a).targets[0])
    ensures var x := Last(f, a).targets[0];
            var (c, next) := RunBlock(m, f, t, Through(f, x, st));
            var (c', next') := Branch(m, f', ThroughJump(f, t, Last(f, a)), st');
            c == c' && Rel(f, t, c, next, next')
  {
    var x, branch := Last(f, a).targets[0], Last(f, t);
    RunBypassed(m, f, t, Through(f, x, st));
    ThroughValues(f, t, a, 0, st, st', branch.operands);
    ThroughKeepsRel(f, t, a, x, st, st');
    var values := ValuesOf(st'.regs, SubstAll(f.blocks[t].params, x.args, branch.operands));
    var arm := m.choose(branch.opcode, values, st.mem);
    if arm < |branch.targets| {
      ThroughArmKeepsRel(f, f', t, a, 0, arm, st, st');
    } else {
      RelAfterReturn(f, t, Returned([]), Through(f, x, st), st', values);
    }
  }

  /** A branch whose arm is decided takes that arm. */
  lemma DecidedChoice(m: SsaMachine, compare: (nat, Value, Value) -> bool, branch: SsaInstr, regs: RegValues, mem: Memory)
    requires BranchesAs(m, compare) && DecidedArm(compare, branch).Some?
    ensures m.choose(branch.opcode, ValuesOf(regs, branch.operands), mem) == DecidedArm(compare, branch).value
  {
    if branch.opcode != Jmp { TwoValues(regs, branch.operands); }
  }

  /** The arm that is decided before `t` runs is the one `t` takes. */
  lemma DecidedArmIsTaken(m: SsaMachine, compare: (nat, Value, Value) -> bool, f: SsaFunc, t: nat, a: nat, k: nat, st: SsaState, st': SsaState)
    requires Bypassable(f, t) && BranchesAs(m, compare) && a < |f.blocks| && Rel(f, t, AtBlock(a), st, st')
    requires k < |Last(f, a).targets| && Last(f, a).targets[k].block == t && TargetFits(f, Last(f, a).targets[k])
    requires DecidedArm(compare, SubstBranch(f.blocks[t].params, Last(f, a).targets[k].args, Last(f, t))).Some?
    ensures var x, branch := Last(f, a).targets[k], Last(f, t);
            m.choose(branch.opcode, ValuesOf(Through(f, x, st).regs, branch.operands), st.mem)
            == DecidedArm(compare, SubstBranch(f.blocks[t].params, x.args, branch)).value
  {
    var x, branch := Last(f, a).targets[k], Last(f, t);
    ThroughValues(f, t, a, k, st, st', branch.operands);
    DecidedChoice(m, compare, SubstBranch(f.blocks[t].params, x.args, branch), st'.regs, st.mem);
  }

  lemma TwoValues(regs: RegValues, operands: seq<Operand>)
    requires |operands| == 2
    ensures ValuesOf(regs, operands) == [ValueOf(regs, operands[0]), ValueOf(regs, operands[1])]
  {
    var first := operands[..1];
    assert first[..0] == [] && first[0] == operands[0];
    assert ValuesOf(regs, first) == [] + [ValueOf(regs, operands[0])];
  }

  /** An arm that leads to `t` replaced by the arm `t` is known to take. */
  lemma ArmThrough(m: SsaMachine, compare: (nat, Value, Value) -> bool, f: SsaFunc, f': SsaFunc, t: nat, a: nat, branch: SsaInstr, k: nat,
                   st: SsaState, st': SsaState)
    requires Bypassable(f, t) && ArgsFit(f) && SameParams(f, f') && BranchesAs(m, compare)
    requires a < |f.blocks| && Rel(f, t, AtBlock(a), st, st') && ReplacesArm(compare, f, a, t, branch, k)
    requires m.choose(Last(f, a).opcode, ValuesOf(st.regs, Last(f, a).operands), st.mem) == k
    ensures var (c, next) := RunBlock(m, f, t, Through(f, Last(f, a).targets[k], st));
            var (c', next') := Branch(m, f', branch, st');
            c == c' && Rel(f, t, c, next, next')
  {
    var x := Last(f, a).targets[k];
    var arm := DecidedArm(compare, SubstBranch(f.blocks[t].params, x.args, Last(f, t))).value;
    RunBypassed(m, f, t, Through(f, x, st));
    DecidedArmIsTaken(m, compare, f, t, a, k, st, st');
    SameChoice(m, f, t, a, st, st');
    ThroughArmKeepsRel(f, f', t, a, k, arm, st, st');
  }

  lemma SameChoice(m: SsaMachine, f: SsaFunc, t: nat, a: nat, st: SsaState, st': SsaState)
    requires Bypassable(f, t) && a < |f.blocks| && Rel(f, t, AtBlock(a), st, st')
    ensures ValuesOf(st.regs, Last(f, a).operands) == ValuesOf(st'.regs, Last(f, a).operands) && st.mem == st'.mem
  {
    if a != t { InstrOperandsMatter(f, t, a, |f.blocks[a].instrs| - 1); }
    RelValues(f, t, AtBlock(a), st, st', Last(f, a).operands);
  }

  // ---- One block of the changed program ----

  /** The changed program does in one block what the old one does in one, or in two if it goes through `t`. */
  ghost predicate Follows(m: SsaMachine, f: SsaFunc, t: nat, b: nat, st: SsaState, c': Control, next': SsaState)
    requires t < |f.blocks|
  {
    var (c, next) := RunBlock(m, f, b, st);
    || (c == c' && Rel(f, t, c, next, next'))
    || (c == AtBlock(t) && var (d, after) := RunBlock(m, f, t, next); d == c' && Rel(f, t, d, after, next'))
  }

  lemma ReplacedBranchFollows(m: SsaMachine, compare: (nat, Value, Value) -> bool, f: SsaFunc, f': SsaFunc, a: nat, t: nat, branch: SsaInstr,
                              st: SsaState, st': SsaState)
    requires Bypassable(f, t) && ArgsFit(f) && SameParams(f, f') && BranchesAs(m, compare)
    requires a < |f.blocks| && Replacement(compare, f, a, t, branch) && Rel(f, t, AtBlock(a), st, st')
    ensures var (c, next), (c', next') := Branch(m, f, Last(f, a), st), Branch(m, f', branch, st');
            || (c == c' && Rel(f, t, c, next, next'))
            || (c == AtBlock(t) && var (d, after) := RunBlock(m, f, t, next); d == c' && Rel(f, t, d, after, next'))
  {
    var old_ := Last(f, a);
    if old_.opcode == Jmp {
      JumpThrough(m, f, f', t, a, st, st');
    } else {
      var k: nat :| ReplacesArm(compare, f, a, t, branch, k);
      if m.choose(old_.opcode, ValuesOf(st.regs, old_.operands), st.mem) == k {
        ArmThrough(m, compare, f, f', t, a, branch, k, st, st');
      } else {
        OtherArmFollows(m, compare, f, f', a, t, branch, k, st, st');
      }
    }
  }

  /** The arm that was not replaced goes where it went. */
  lemma OtherArmFollows(m: SsaMachine, compare: (nat, Value, Value) -> bool, f: SsaFunc, f': SsaFunc, a: nat, t: nat, branch: SsaInstr,
                        k: nat, st: SsaState, st': SsaState)
    requires Bypassable(f, t) && ArgsFit(f) && SameParams(f, f') && BranchesAs(m, compare)
    requires a < |f.blocks| && ReplacesArm(compare, f, a, t, branch, k) && Rel(f, t, AtBlock(a), st, st')
    requires BranchShape(Last(f, a))
    requires m.choose(Last(f, a).opcode, ValuesOf(st.regs, Last(f, a).operands), st.mem) != k
    ensures var (c, next), (c', next') := Branch(m, f, Last(f, a), st), Branch(m, f', branch, st');
            c == c' && Rel(f, t, c, next, next')
  {
    var old_ := Last(f, a);
    SameChoice(m, f, t, a, st, st');
    TwoValues(st.regs, old_.operands);
    ArmKeepsRel(m, f, f', t, a, m.choose(old_.opcode, ValuesOf(st.regs, old_.operands), st.mem), st, st');
  }

  lemma RunFollows(m: SsaMachine, compare: (nat, Value, Value) -> bool, f: SsaFunc, a: nat, t: nat, branch: SsaInstr, b: nat,
                   st: SsaState, st': SsaState)
    requires Bypassable(f, t) && ArgsFit(f) && BranchesAs(m, compare)
    requires a < |f.blocks| && Replacement(compare, f, a, t, branch) && Rel(f, t, AtBlock(b), st, st')
    ensures var (c', next') := RunBlock(m, Threaded(f, a, branch), b, st'); Follows(m, f, t, b, st, c', next')
  {
    var f' := Threaded(f, a, branch);
    if b < |f.blocks| {
      var instrs, n := f.blocks[b].instrs, |f.blocks[b].instrs| - 1;
      RangeKeepsRel(m, f, t, b, n, st, st');
      var end, end' := ExecRange(m, instrs, 0, n, st), ExecRange(m, instrs, 0, n, st');
      if b == a {
        PrefixRuns(m, instrs, instrs[n := branch], n, st');
        ReplacedBranchFollows(m, compare, f, f', a, t, branch, end, end');
      } else {
        BranchKeepsRel(m, f, f', t, b, end, end');
      }
    } else {
      RelAfterReturn(f, t, AtBlock(b), st, st', []);
    }
  }

  lemma {:induction false} PrefixRuns(m: SsaMachine, instrs: seq<SsaInstr>, instrs': seq<SsaInstr>, n: nat, st: SsaState)
    requires n <= |instrs| && n <= |instrs'| && instrs[..n] == instrs'[..n]
    ensures ExecRange(m, instrs, 0, n, st) == ExecRange(m, instrs', 0, n, st)
  {
    if n > 0 {
      assert instrs[n - 1] == instrs[..n][n - 1] == instrs'[n - 1];
      assert instrs[..n - 1] == instrs[..n][..n - 1] == instrs'[..n - 1];
      PrefixRuns(m, instrs, instrs', n - 1, st);
    }
  }

  // ---- Whole runs ----

  /** After `n` blocks the changed program is where the old one is after `k`. */
  ghost predicate CaughtUp(m: SsaMachine, f: SsaFunc, f': SsaFunc, t: nat, entry: nat, st: SsaState, n: nat, k: nat)
    requires t < |f.blocks|
  {
    var (c, now), (c', now') := RunFunc(m, f, entry, st, k), RunFunc(m, f', entry, st, n);
    c == c' && Rel(f, t, c, now, now')
  }

  lemma NextFollows(m: SsaMachine, f: SsaFunc, f': SsaFunc, t: nat, entry: nat, st: SsaState, n: nat, j: nat, b: nat) returns (k: nat)
    requires t < |f.blocks| && RunFunc(m, f, entry, st, j).0 == AtBlock(b) && RunFunc(m, f', entry, st, n).0 == AtBlock(b)
    requires var (c', next') := RunBlock(m, f', b, RunFunc(m, f', entry, st, n).1);
             Follows(m, f, t, b, RunFunc(m, f, entry, st, j).1, c', next')
    ensures j < k <= j + 2 && CaughtUp(m, f, f', t, entry, st, n + 1, k)
  {
    var (c', next') := RunBlock(m, f', b, RunFunc(m, f', entry, st, n).1);
    var (c, next) := RunBlock(m, f, b, RunFunc(m, f, entry, st, j).1);
    assert RunFunc(m, f', entry, st, n + 1) == (c', next');
    assert RunFunc(m, f, entry, st, j + 1) == (c, next);
    if c == c' && Rel(f, t, c, next, next') {
      k := j + 1;
    } else {
      k := j + 2;
      assert RunFunc(m, f, entry, st, j + 2) == RunBlock(m, f, t, next);
    }
  }

  /** A program that has returned stays where it is. */
  lemma ReturnedStays(m: SsaMachine, f: SsaFunc, f': SsaFunc, t: nat, entry: nat, st: SsaState, n: nat, j: nat)
    requires t < |f.blocks| && CaughtUp(m, f, f', t, entry, st, n, j) && RunFunc(m, f, entry, st, j).0.Returned?
    ensures CaughtUp(m, f, f', t, entry, st, n + 1, j + 1)
  {
    assert RunFunc(m, f, entry, st, j + 1) == RunFunc(m, f, entry, st, j);
    assert RunFunc(m, f', entry, st, n + 1) == RunFunc(m, f', entry, st, n);
  }

  lemma NextCatchesUp(m: SsaMachine, compare: (nat, Value, Value) -> bool, f: SsaFunc, a: nat, t: nat, branch: SsaInstr,
                      entry: nat, st: SsaState, n: nat, j: nat) returns (k: nat)
    requires Bypassable(f, t) && ArgsFit(f) && BranchesAs(m, compare)
    requires a < |f.blocks| && Replacement(compare, f, a, t, branch)
    requires CaughtUp(m, f, Threaded(f, a, branch), t, entry, st, n, j)
    ensures j < k <= j + 2 && CaughtUp(m, f, Threaded(f, a, branch), t, entry, st, n + 1, k)
  {
    var f' := Threaded(f, a, branch);
    match RunFunc(m, f, entry, st, j).0
    case Returned(_) =>
      ReturnedStays(m, f, f', t, entry, st, n, j);
      k := j + 1;
    case AtBlock(b) =>
      RunFollows(m, compare, f, a, t, branch, b, RunFunc(m, f, entry, st, j).1, RunFunc(m, f', entry, st, n).1);
      k := NextFollows(m, f, f', t, entry, st, n, j, b);
  }

  /**
    From every state, after any number of blocks, the program that bypasses `t` is where the old one gets to a little
    later: in the same block, with the same memory, and with the same values in all registers that matter there.
   */
  lemma {:induction false} BypassKeepsMeaning(m: SsaMachine, compare: (nat, Value, Value) -> bool, f: SsaFunc, a: nat, t: nat, branch: SsaInstr,
                                              entry: nat, st: SsaState, n: nat) returns (k: nat)
    requires Bypassable(f, t) && ArgsFit(f) && BranchesAs(m, compare)
    requires a < |f.blocks| && Replacement(compare, f, a, t, branch)
    ensures n <= k <= 2 * n && CaughtUp(m, f, Threaded(f, a, branch), t, entry, st, n, k)
  {
    if n == 0 {
      k := 0;
      StartsRelated(f, t, entry, st);
    } else {
      var j := BypassKeepsMeaning(m, compare, f, a, t, branch, entry, st, n - 1);
      k := NextCatchesUp(m, compare, f, a, t, branch, entry, st, n - 1, j);
    }
  }

  lemma StartsRelated(f: SsaFunc, t: nat, entry: nat, st: SsaState)
    requires t < |f.blocks|
    ensures Rel(f, t, AtBlock(entry), st, st)
  {
    forall r
      ensures RelAt(f, t, AtBlock(entry), st, st, r)
    {
    }
  }
}
