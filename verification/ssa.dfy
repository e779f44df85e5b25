/** SSA functions with block parameters, their validity and their meaning (src/banjo/ssa). */
module Ssa {
  import opened Graph
  import opened RegAllocFunc
  import opened Dominance

  type VReg = nat

  type Value = int

  /** Everything that is not a register: memory and the outside world. */
  type Memory = map<int, int>

  /** The comparison of a conditional branch is part of its opcode; all other opcodes are alike here. */
  datatype Opcode = Load | Store | Call | MemberPtr | Jmp | CJmp(comparison: nat) | FCJmp(comparison: nat) | Other(code: nat)

  datatype Operand = Register(r: VReg) | Immediate(value: Value)

  datatype Target = Target(block: nat, args: seq<Operand>)

  /** `targets` are the branch targets among the operands; only the last instruction of a block uses them. */
  datatype SsaInstr = SsaInstr(opcode: Opcode, dest: Option<VReg>, operands: seq<Operand>, targets: seq<Target>)

  datatype SsaBlock = SsaBlock(params: seq<VReg>, instrs: seq<SsaInstr>)

  /** Block `b` is node `b` of the function's control-flow graph. */
  datatype SsaFunc = SsaFunc(blocks: seq<SsaBlock>)

  function OperandRegs(operands: seq<Operand>): set<VReg> {
    set k | 0 <= k < |operands| && operands[k].Register? :: operands[k].r
  }

  function TargetRegs(targets: seq<Target>): set<VReg> {
    set k, r | 0 <= k < |targets| && r in OperandRegs(targets[k].args) :: r
  }

  /** The registers an instruction reads, those passed to branch targets included. */
  function UsedRegs(instr: SsaInstr): set<VReg> {
    OperandRegs(instr.operands) + TargetRegs(instr.targets)
  }

  // ---- Validity ----

  /** `r` is defined at place `k` of block `b`: place 0 is the parameter list, place `k + 1` is instruction `k`. */
  predicate DefinedAt(f: SsaFunc, r: VReg, b: nat, k: nat) {
    b < |f.blocks|
    && if k == 0 then r in f.blocks[b].params
       else k - 1 < |f.blocks[b].instrs| && f.blocks[b].instrs[k - 1].dest == Some(r)
  }

  /** `r` has been defined, on every path, when instruction `i` of block `b` is reached. */
  ghost predicate InScope(g: Cfg, f: SsaFunc, r: VReg, b: nat, i: nat)
    requires |g.nodes| > 0
  {
    exists d: nat, k: nat :: ReachesUse(g, f, r, d, k, b, i)
  }

  ghost predicate ReachesUse(g: Cfg, f: SsaFunc, r: VReg, d: nat, k: nat, b: nat, i: nat)
    requires |g.nodes| > 0
  {
    DefinedAt(f, r, d, k) && if d == b then k <= i else Dominates(g, d, b)
  }

  ghost predicate UniqueDefs(f: SsaFunc) {
    forall r, b: nat, k: nat, c: nat, l: nat {:trigger DefinedAt(f, r, b, k), DefinedAt(f, r, c, l)} ::
      DefinedAt(f, r, b, k) && DefinedAt(f, r, c, l) ==> b == c && k == l
  }

  /** The block ends in an instruction without result that branches to the successors of its node. */
  ghost predicate WellFormedBlock(g: Cfg, f: SsaFunc, b: nat)
    requires b < |f.blocks|
  {
    var instrs := f.blocks[b].instrs;
    && |instrs| > 0 && instrs[|instrs| - 1].dest == None
    && forall t {:trigger WellFormedTarget(g, f, b, t)} :: t in instrs[|instrs| - 1].targets ==> WellFormedTarget(g, f, b, t)
  }

  ghost predicate WellFormedTarget(g: Cfg, f: SsaFunc, b: nat, t: Target) {
    (b, t.block) in CfgEdges(g) && t.block < |f.blocks| && |t.args| == |f.blocks[t.block].params|
  }

  ghost predicate UsesInScope(g: Cfg, f: SsaFunc, b: nat, i: nat)
    requires |g.nodes| > 0 && b < |f.blocks| && i < |f.blocks[b].instrs|
  {
    forall r | r in UsedRegs(f.blocks[b].instrs[i]) :: InScope(g, f, r, b, i)
  }

  /** Every register has one definition, which is passed before every use. */
  ghost predicate WellScoped(g: Cfg, f: SsaFunc) {
    && ValidCfg(g) && |f.blocks| == |g.nodes| && UniqueDefs(f)
    && (forall b: nat | b < |f.blocks| :: WellFormedBlock(g, f, b))
    && forall b: nat, i: nat {:trigger UsesInScope(g, f, b, i)} | b < |f.blocks| && i < |f.blocks[b].instrs| :: UsesInScope(g, f, b, i)
  }

  /** Valid code of a graph whose nodes are all reachable. */
  ghost predicate ValidSsa(g: Cfg, f: SsaFunc) {
    WellScoped(g, f) && PostOrdered(g)
  }

  // ---- Meaning ----

  /**
    What instructions do: a load reads memory, a store writes it, a call may do both. Of the others, those with a result
    compute it from their operands, and those without (copies) may write memory. A branch takes a target.
   */
  datatype SsaMachine = SsaMachine(
    load: (seq<Value>, Memory) -> Value,
    store: (seq<Value>, Memory) -> Memory,
    call: (seq<Value>, Memory) -> (Value, Memory),
    pure: (Opcode, seq<Value>) -> Value,
    effect: (Opcode, seq<Value>, Memory) -> Memory,
    choose: (Opcode, seq<Value>, Memory) -> nat)

  type RegValues = map<VReg, Value>

  datatype SsaState = SsaState(regs: RegValues, mem: Memory)

  function Read(regs: RegValues, r: VReg): Value {
    if r in regs then regs[r] else 0
  }

  function ValueOf(regs: RegValues, operand: Operand): Value {
    match operand
    case Register(r) => Read(regs, r)
    case Immediate(value) => value
  }

  function ValuesOf(regs: RegValues, operands: seq<Operand>): seq<Value> {
    if operands == [] then []
    else ValuesOf(regs, operands[..|operands| - 1]) + [ValueOf(regs, operands[|operands| - 1])]
  }

  function Write(regs: RegValues, dest: Option<VReg>, value: Value): RegValues {
    if dest.Some? then regs[dest.value := value] else regs
  }

  function Exec(m: SsaMachine, instr: SsaInstr, st: SsaState): SsaState {
    var values := ValuesOf(st.regs, instr.operands);
    match instr.opcode
    case Load => st.(regs := Write(st.regs, instr.dest, m.load(values, st.mem)))
    case Store => SsaState(Write(st.regs, instr.dest, 0), m.store(values, st.mem))
    case Call =>
      var (value, mem) := m.call(values, st.mem);
      SsaState(Write(st.regs, instr.dest, value), mem)
    case _ =>
      if instr.dest.Some? then st.(regs := st.regs[instr.dest.value := m.pure(instr.opcode, values)])
      else st.(mem := m.effect(instr.opcode, values, st.mem))
  }

  /** Instructions `lo` up to but not including `hi`. */
  function ExecRange(m: SsaMachine, instrs: seq<SsaInstr>, lo: nat, hi: nat, st: SsaState): SsaState
    requires lo <= hi <= |instrs|
  {
    if lo == hi then st else Exec(m, instrs[hi - 1], ExecRange(m, instrs, lo, hi - 1, st))
  }

  /** Block parameters take the values of the branch arguments. */
  function Bind(regs: RegValues, params: seq<VReg>, values: seq<Value>, n: nat): RegValues
    requires n <= |params| && n <= |values|
  {
    if n == 0 then regs else Bind(regs, params, values, n - 1)[params[n - 1] := values[n - 1]]
  }

  function Enter(f: SsaFunc, regs: RegValues, t: Target): RegValues
    requires t.block < |f.blocks|
  {
    var params, values := f.blocks[t.block].params, ValuesOf(regs, t.args);
    if |values| == |params| then Bind(regs, params, values, |params|) else regs
  }

  /** Where control is: at the start of a block, or past the end with the operands of the last instruction. */
  datatype Control = AtBlock(b: nat) | Returned(values: seq<Value>)

  function Branch(m: SsaMachine, f: SsaFunc, last: SsaInstr, st: SsaState): (Control, SsaState) {
    var values := ValuesOf(st.regs, last.operands);
    var k := m.choose(last.opcode, values, st.mem);
    if k < |last.targets| && last.targets[k].block < |f.blocks| then
      (AtBlock(last.targets[k].block), st.(regs := Enter(f, st.regs, last.targets[k])))
    else (Returned(values), st)
  }

  function RunBlock(m: SsaMachine, f: SsaFunc, b: nat, st: SsaState): (Control, SsaState) {
    if b < |f.blocks| && |f.blocks[b].instrs| > 0 then
      var instrs := f.blocks[b].instrs;
      Branch(m, f, instrs[|instrs| - 1], ExecRange(m, instrs, 0, |instrs| - 1, st))
    else (Returned([]), st)
  }

  /** Control and state after `n` blocks. */
  function RunFunc(m: SsaMachine, f: SsaFunc, entry: nat, st: SsaState, n: nat): (Control, SsaState) {
    if n == 0 then (AtBlock(entry), st)
    else
      var (control, before) := RunFunc(m, f, entry, st, n - 1);
      match control
      case AtBlock(b) => RunBlock(m, f, b, before)
      case Returned(_) => (control, before)
  }

  /** Same blocks, same memory, same values returned, after any number of blocks. */
  ghost predicate SameRun(f: SsaFunc, f': SsaFunc, entry: nat, m: SsaMachine, st: SsaState, n: nat) {
    && RunFunc(m, f, entry, st, n).0 == RunFunc(m, f', entry, st, n).0
    && RunFunc(m, f, entry, st, n).1.mem == RunFunc(m, f', entry, st, n).1.mem
  }

  ghost predicate SameMeaning(f: SsaFunc, f': SsaFunc, entry: nat) {
    forall m, st, n: nat {:trigger SameRun(f, f', entry, m, st, n)} :: SameRun(f, f', entry, m, st, n)
  }

  lemma SameMeaningTransitive(f: SsaFunc, g: SsaFunc, h: SsaFunc, entry: nat)
    requires SameMeaning(f, g, entry) && SameMeaning(g, h, entry)
    ensures SameMeaning(f, h, entry)
  {
    forall m, st, n: nat
      ensures SameRun(f, h, entry, m, st, n)
    {
      assert SameRun(f, g, entry, m, st, n) && SameRun(g, h, entry, m, st, n);
    }
  }

  // ---- Reading registers ----

  lemma {:induction false} SameValues(regs: RegValues, regs': RegValues, operands: seq<Operand>)
    requires forall r | r in OperandRegs(operands) :: Read(regs, r) == Read(regs', r)
    ensures ValuesOf(regs, operands) == ValuesOf(regs', operands)
  {
    if operands != [] {
      var n := |operands| - 1;
      assert OperandRegs(operands[..n]) <= OperandRegs(operands);
      SameValues(regs, regs', operands[..n]);
      assert operands[n].Register? ==> operands[n].r in OperandRegs(operands);
    }
  }

  lemma {:induction false} ValuesCount(regs: RegValues, operands: seq<Operand>)
    ensures |ValuesOf(regs, operands)| == |operands|
  {
    if operands != [] { ValuesCount(regs, operands[..|operands| - 1]); }
  }

  lemma {:induction false} BindTells(regs: RegValues, regs': RegValues, params: seq<VReg>, values: seq<Value>, n: nat, r: VReg)
    requires n <= |params| && n <= |values|
    ensures r in params[..n] ==> Read(Bind(regs, params, values, n), r) == Read(Bind(regs', params, values, n), r)
    ensures r !in params[..n] ==> Read(Bind(regs, params, values, n), r) == Read(regs, r)
  {
    if n > 0 {
      BindTells(regs, regs', params, values, n - 1, r);
      assert params[..n] == params[..n - 1] + [params[n - 1]];
    }
  }
}
