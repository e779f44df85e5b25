/**
  What programs mean before and after register allocation. An instruction reads the registers it lists as USE and
  USE_DEF, and writes those it lists as DEF, USE_DEF and KILL; what it computes is a parameter.
 */
module Machine {
  import opened RegAllocFunc
  import opened LivenessSpec
  import opened LiveRanges
  import opened FuncRanges
  import opened Rewrite

  type Value = int

  /** Everything outside the registers and spill slots: memory, flags, the outside world. */
  type Env = map<int, int>

  type RegFile = map<Reg, Value>

  datatype Effect = Effect(outs: seq<Value>, env: Env)

  /** `exec(id, inputs, env)`: the inputs are the values read, in operand order; result `j` goes to operand `j`. */
  datatype Machine = Machine(
    exec: (nat, seq<Value>, Env) -> Effect,
    branch: (nat, Env) -> nat)

  function Get(regs: RegFile, r: Reg): Value {
    if r in regs then regs[r] else 0
  }

  function Out(outs: seq<Value>, j: nat): Value {
    if j < |outs| then outs[j] else 0
  }

  predicate IsRead(u: Usage) {
    u == Use || u == UseDef
  }

  predicate IsWrite(u: Usage) {
    u == Def || u == UseDef || u == Kill
  }

  function Inputs(regs: RegFile, ops: seq<RegOp>): seq<Value> {
    if ops == [] then []
    else
      var op := ops[|ops| - 1];
      Inputs(regs, ops[..|ops| - 1]) + if IsRead(op.usage) then [Get(regs, op.reg)] else []
  }

  /** The results of the first `n` operands are written, in order. */
  function WriteOuts(regs: RegFile, ops: seq<RegOp>, outs: seq<Value>, n: nat): RegFile
    requires n <= |ops|
  {
    if n == 0 then regs
    else
      var before := WriteOuts(regs, ops, outs, n - 1);
      if IsWrite(ops[n - 1].usage) then before[ops[n - 1].reg := Out(outs, n - 1)] else before
  }

  datatype VState = VState(regs: RegFile, env: Env)

  function VExec(m: Machine, instr: Instr, st: VState): VState {
    var eff := m.exec(instr.id, Inputs(st.regs, instr.regs), st.env);
    VState(WriteOuts(st.regs, instr.regs, eff.outs, |instr.regs|), eff.env)
  }

  datatype PState = PState(regs: RegFile, slots: map<StackSlotID, Value>, env: Env)

  function GetSlot(slots: map<StackSlotID, Value>, s: StackSlotID): Value {
    if s in slots then slots[s] else 0
  }

  function RunLoads(regs: RegFile, slots: map<StackSlotID, Value>, loads: seq<SlotMove>, n: nat): RegFile
    requires n <= |loads|
  {
    if n == 0 then regs
    else RunLoads(regs, slots, loads, n - 1)[Physical(loads[n - 1].reg) := GetSlot(slots, loads[n - 1].slot)]
  }

  function RunStores(slots: map<StackSlotID, Value>, regs: RegFile, stores: seq<SlotMove>, n: nat): map<StackSlotID, Value>
    requires n <= |stores|
  {
    if n == 0 then slots
    else RunStores(slots, regs, stores, n - 1)[stores[n - 1].slot := Get(regs, Physical(stores[n - 1].reg))]
  }

  /** The instruction itself; one that has been taken out does nothing. */
  function PCore(m: Machine, x: RInstr, regs: RegFile, env: Env): VState {
    if x.removed then VState(regs, env) else VExec(m, Instr(x.id, x.regs), VState(regs, env))
  }

  function PExec(m: Machine, x: RInstr, st: PState): PState {
    var core := PCore(m, x, RunLoads(st.regs, st.slots, x.loads, |x.loads|), st.env);
    PState(core.regs, RunStores(st.slots, core.regs, x.stores, |x.stores|), core.env)
  }

  // ---- Runs ----

  datatype Pos = At(block: nat, instr: nat) | Halted

  function NextBlock(f: Func, m: Machine, b: nat, env: Env): Pos
    requires b < |f.blocks|
  {
    var k := m.branch(b, env);
    if k < |f.blocks[b].succs| then At(f.blocks[b].succs[k], 0) else Halted
  }

  predicate InCode(f: Func, pos: Pos) {
    pos.At? ==> pos.block < |f.blocks| && pos.instr <= |f.blocks[pos.block].instrs|
  }

  function VStep(f: Func, m: Machine, pos: Pos, st: VState): (Pos, VState)
    requires InCode(f, pos)
  {
    if pos.Halted? then (pos, st)
    else if pos.instr < |f.blocks[pos.block].instrs| then
      (At(pos.block, pos.instr + 1), VExec(m, f.blocks[pos.block].instrs[pos.instr], st))
    else (NextBlock(f, m, pos.block, st.env), st)
  }

  function PStep(f: Func, code: Code, m: Machine, pos: Pos, st: PState): (Pos, PState)
    requires InCode(f, pos) && |code| == |f.blocks|
    requires forall b :: 0 <= b < |code| ==> |code[b]| == |f.blocks[b].instrs|
  {
    if pos.Halted? then (pos, st)
    else if pos.instr < |code[pos.block]| then
      (At(pos.block, pos.instr + 1), PExec(m, code[pos.block][pos.instr], st))
    else (NextBlock(f, m, pos.block, st.env), st)
  }

  /** The state after `n` steps from the entry of block 0. */
  function VRun(f: Func, m: Machine, st: VState, n: nat): (r: (Pos, VState))
    requires ValidFunc(f)
    ensures InCode(f, r.0)
  {
    if n == 0 then (At(0, 0), st)
    else
      var (pos, before) := VRun(f, m, st, n - 1);
      VStep(f, m, pos, before)
  }

  function PRun(f: Func, code: Code, m: Machine, st: PState, n: nat): (r: (Pos, PState))
    requires ValidFunc(f) && |code| == |f.blocks|
    requires forall b :: 0 <= b < |code| ==> |code[b]| == |f.blocks[b].instrs|
    ensures InCode(f, r.0)
  {
    if n == 0 then (At(0, 0), st)
    else
      var (pos, before) := PRun(f, code, m, st, n - 1);
      PStep(f, code, m, pos, before)
  }

  // ---- Hypotheses on the target ----

  ghost predicate ReadsStale(f: Func, b: nat, i: nat)
    requires b < |f.blocks| && i < |f.blocks[b].instrs|
  {
    exists r :: ReadsReg(f.blocks[b].instrs[i], r) && Stale(f, b, i, r)
  }

  /** Every register the instruction writes is a stale one that it updates in place. */
  ghost predicate OnlyStaleWritten(f: Func, b: nat, i: nat)
    requires b < |f.blocks| && i < |f.blocks[b].instrs|
  {
    var instr := f.blocks[b].instrs[i];
    forall r :: WritesReg(instr, r) || Has(instr, r, Kill) ==> !ResetsReg(instr, r) && Stale(f, b, i, r)
  }

  /**
    An instruction that reads, through USE_DEF, a register whose value was not kept on entry to the block has no
    other effect: it writes only such registers and leaves the environment alone. Its result is dead.
   */
  ghost predicate StaleReadsHarmless(f: Func, m: Machine) {
    forall b, i | 0 <= b < |f.blocks| && Reachable(f, b) && 0 <= i < |f.blocks[b].instrs| && ReadsStale(f, b, i) ::
      OnlyStaleWritten(f, b, i) && EnvNeutral(m, f.blocks[b].instrs[i].id)
  }

  ghost predicate EnvNeutral(m: Machine, id: nat) {
    forall inputs, env :: m.exec(id, inputs, env).env == env
  }

  /** What the target calls removable changes neither registers nor environment. */
  ghost predicate RemovableIsNop(m: Machine, removable: (nat, seq<RegOp>) -> bool) {
    forall id, ops, regs, env {:trigger VExec(m, Instr(id, ops), VState(regs, env))} :: removable(id, ops) ==>
      var st := VExec(m, Instr(id, ops), VState(regs, env));
      st.env == env && forall r :: Get(st.regs, r) == Get(regs, r)
  }
}
