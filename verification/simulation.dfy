/** The rewritten program stays in step with the one over virtual registers. */
module Simulation {
  import opened Graph
  import opened RegAllocFunc
  import opened LivenessSpec
  import opened LiveRanges
  import opened FuncRanges
  import opened Rewrite
  import opened Machine

  /** Where a register's value lives for the whole function. */
  datatype Home = InReg(p: PhysicalReg) | InSlot(s: StackSlotID) | Nowhere

  function HomeOf(home: map<VirtualReg, Home>, r: Reg): Home {
    match r
    case Physical(p) => InReg(p)
    case Virtual(v) => if v in home then home[v] else Nowhere
  }

  function HomeValue(st: PState, h: Home): Value {
    match h
    case InReg(p) => Get(st.regs, Physical(p))
    case InSlot(s) => GetSlot(st.slots, s)
    case Nowhere => 0
  }

  /** Same environment, and every tracked register's value is in its home. */
  ghost predicate Related(f: Func, home: map<VirtualReg, Home>, b: nat, i: nat, v: VState, p: PState)
    requires b < |f.blocks| && i <= |f.blocks[b].instrs|
  {
    && v.env == p.env
    && forall r {:trigger Holds(f, home, b, i, v, p, r)} :: Holds(f, home, b, i, v, p, r)
  }

  ghost predicate Holds(f: Func, home: map<VirtualReg, Home>, b: nat, i: nat, v: VState, p: PState, r: Reg)
    requires b < |f.blocks| && i <= |f.blocks[b].instrs|
  {
    Tracked(f, b, i, r) ==> Get(v.regs, r) == HomeValue(p, HomeOf(home, r))
  }

  // ---- What a correct rewriting of one instruction looks like ----

  ghost predicate LoadsApart(x: RInstr) {
    forall j, k :: 0 <= j < k < |x.loads| ==> x.loads[j].reg != x.loads[k].reg
  }

  /** Operand `j` is where the register's value is, or is loaded from and stored to its slot. */
  ghost predicate OperandSound(home: map<VirtualReg, Home>, instr: Instr, x: RInstr, j: nat)
    requires j < |instr.regs| && |x.regs| == |instr.regs|
  {
    var op, q := instr.regs[j], x.regs[j].reg;
    && x.regs[j].usage == op.usage && q.Physical?
    && match HomeOf(home, op.reg) {
         case InReg(p) => q == Physical(p)
         case InSlot(s) =>
           && (IsRead(op.usage) ==> SlotMove(q.p, s) in x.loads)
           && (IsWrite(op.usage) ==> SlotMove(q.p, s) in x.stores)
         case Nowhere => false
       }
  }

  /** A load overwrites no register that holds a tracked value. */
  ghost predicate LoadsClear(f: Func, home: map<VirtualReg, Home>, b: nat, i: nat, x: RInstr)
    requires b < |f.blocks| && i <= |f.blocks[b].instrs|
  {
    forall r, k :: 0 <= k < |x.loads| && Tracked(f, b, i, r) ==> HomeOf(home, r) != InReg(x.loads[k].reg)
  }

  /** A result overwrites no register that holds something else. */
  ghost predicate WritesClear(f: Func, home: map<VirtualReg, Home>, b: nat, i: nat, x: RInstr)
    requires b < |f.blocks| && i < |f.blocks[b].instrs| && |x.regs| == |f.blocks[b].instrs[i].regs|
  {
    var ops := f.blocks[b].instrs[i].regs;
    && (forall r, j | 0 <= j < |ops| && IsWrite(ops[j].usage) && Tracked(f, b, i + 1, r) ::
          HomeOf(home, r).InReg? && x.regs[j].reg == Physical(HomeOf(home, r).p) ==> ops[j].reg == r)
    && forall j, k | 0 <= j < |ops| && 0 <= k < |ops| && IsWrite(ops[j].usage) && IsWrite(ops[k].usage) ::
         x.regs[j].reg == x.regs[k].reg ==> ops[j].reg == ops[k].reg
  }

  /** A store overwrites no slot that holds something else, and stores to one slot agree. */
  ghost predicate StoresClear(f: Func, home: map<VirtualReg, Home>, b: nat, i: nat, x: RInstr)
    requires b < |f.blocks| && i < |f.blocks[b].instrs| && |x.regs| == |f.blocks[b].instrs[i].regs|
  {
    var ops := f.blocks[b].instrs[i].regs;
    forall r, k :: 0 <= k < |x.stores| && Tracked(f, b, i + 1, r) && HomeOf(home, r) == InSlot(x.stores[k].slot) ==>
      StoredOperand(ops, x, r, x.stores[k].reg)
  }

  ghost predicate StoredOperand(ops: seq<RegOp>, x: RInstr, r: Reg, q: PhysicalReg)
    requires |x.regs| == |ops|
  {
    && (exists j :: 0 <= j < |ops| && IsWrite(ops[j].usage) && ops[j].reg == r)
    && forall j :: 0 <= j < |ops| && IsWrite(ops[j].usage) && ops[j].reg == r ==> x.regs[j].reg == Physical(q)
  }

  ghost predicate InstrSound(f: Func, home: map<VirtualReg, Home>, b: nat, i: nat, x: RInstr)
    requires b < |f.blocks| && i < |f.blocks[b].instrs|
  {
    var instr := f.blocks[b].instrs[i];
    && x.id == instr.id && |x.regs| == |instr.regs|
    && (forall j | 0 <= j < |instr.regs| :: OperandSound(home, instr, x, j))
    && LoadsApart(x) && LoadsClear(f, home, b, i, x) && WritesClear(f, home, b, i, x) && StoresClear(f, home, b, i, x)
  }

  ghost predicate CodeSound(f: Func, home: map<VirtualReg, Home>, code: Code) {
    && Shaped(f, code)
    && forall b, i | 0 <= b < |code| && Reachable(f, b) && 0 <= i < |code[b]| :: InstrSound(f, home, b, i, code[b][i])
  }

  // ---- Loads, reads, writes, stores ----

  lemma {:induction false} LoadsKeep(regs: RegFile, slots: map<StackSlotID, Value>, loads: seq<SlotMove>, n: nat, r: Reg)
    requires n <= |loads| && forall k | 0 <= k < n :: Physical(loads[k].reg) != r
    ensures Get(RunLoads(regs, slots, loads, n), r) == Get(regs, r)
  {
    if n > 0 { LoadsKeep(regs, slots, loads, n - 1, r); }
  }

  lemma {:induction false} LoadsDeliver(regs: RegFile, slots: map<StackSlotID, Value>, x: RInstr, n: nat, k: nat)
    requires k < n <= |x.loads| && LoadsApart(x)
    ensures Get(RunLoads(regs, slots, x.loads, n), Physical(x.loads[k].reg)) == GetSlot(slots, x.loads[k].slot)
  {
    if k < n - 1 { LoadsDeliver(regs, slots, x, n - 1, k); }
  }

  lemma {:induction false} InputsAgree(vregs: RegFile, ops: seq<RegOp>, pregs: RegFile, ops': seq<RegOp>)
    requires |ops| == |ops'|
    requires forall j | 0 <= j < |ops| ::
               ops[j].usage == ops'[j].usage && (IsRead(ops[j].usage) ==> Get(vregs, ops[j].reg) == Get(pregs, ops'[j].reg))
    ensures Inputs(vregs, ops) == Inputs(pregs, ops')
  {
    if ops != [] {
      InputsAgree(vregs, ops[..|ops| - 1], pregs, ops'[..|ops| - 1]);
    }
  }

  /** Result registers written by neither program keep their values; one written gets its last result. */
  ghost function LastWrite(ops: seq<RegOp>, r: Reg, n: nat): int
    requires n <= |ops|
  {
    if n == 0 then -1
    else if IsWrite(ops[n - 1].usage) && ops[n - 1].reg == r then n - 1
    else LastWrite(ops, r, n - 1)
  }

  lemma {:induction false} WrittenValue(regs: RegFile, ops: seq<RegOp>, outs: seq<Value>, n: nat, r: Reg)
    requires n <= |ops|
    ensures -1 <= LastWrite(ops, r, n) < n
    ensures Get(WriteOuts(regs, ops, outs, n), r) ==
            if LastWrite(ops, r, n) == -1 then Get(regs, r) else Out(outs, LastWrite(ops, r, n))
    ensures LastWrite(ops, r, n) == -1 <==> forall j :: 0 <= j < n && IsWrite(ops[j].usage) ==> ops[j].reg != r
    ensures LastWrite(ops, r, n) != -1 ==>
              var j := LastWrite(ops, r, n); IsWrite(ops[j].usage) && ops[j].reg == r
  {
    if n > 0 { WrittenValue(regs, ops, outs, n - 1, r); }
  }

  /** If exactly the operands of `r` are mapped to `q`, the last write is the same one. */
  lemma {:induction false} LastWriteAgrees(ops: seq<RegOp>, ops': seq<RegOp>, r: Reg, q: Reg, n: nat)
    requires |ops| == |ops'| && n <= |ops|
    requires forall j | 0 <= j < n :: ops[j].usage == ops'[j].usage
    requires forall j | 0 <= j < n :: IsWrite(ops[j].usage) ==> (ops[j].reg == r <==> ops'[j].reg == q)
    ensures LastWrite(ops, r, n) == LastWrite(ops', q, n)
  {
    if n > 0 { LastWriteAgrees(ops, ops', r, q, n - 1); }
  }

  lemma {:induction false} StoresKeep(slots: map<StackSlotID, Value>, regs: RegFile, stores: seq<SlotMove>, n: nat, s: StackSlotID)
    requires n <= |stores| && forall k | 0 <= k < n :: stores[k].slot != s
    ensures GetSlot(RunStores(slots, regs, stores, n), s) == GetSlot(slots, s)
  {
    if n > 0 { StoresKeep(slots, regs, stores, n - 1, s); }
  }

  lemma {:induction false} StoresDeliver(slots: map<StackSlotID, Value>, regs: RegFile, stores: seq<SlotMove>, n: nat,
                                         s: StackSlotID, q: PhysicalReg)
    requires n <= |stores| && (exists k :: 0 <= k < n && stores[k].slot == s)
    requires forall k | 0 <= k < n :: stores[k].slot == s ==> stores[k].reg == q
    ensures GetSlot(RunStores(slots, regs, stores, n), s) == Get(regs, Physical(q))
  {
    if stores[n - 1].slot != s { StoresDeliver(slots, regs, stores, n - 1, s, q); }
  }

  // ---- How the tracked registers change over one instruction ----

  lemma LiveUnfold(f: Func, b: nat, i: nat, r: Reg)
    requires b < |f.blocks| && i < |f.blocks[b].instrs|
    ensures var instr := f.blocks[b].instrs[i];
            Live(f, b, i, r) <==> ReadsReg(instr, r) || (!ResetsReg(instr, r) && Live(f, b, i + 1, r))
  {
  }

  /** A register that is read and whose value is not left over from before the block is tracked. */
  lemma ReadIsTracked(f: Func, b: nat, i: nat, j: nat)
    requires b < |f.blocks| && i < |f.blocks[b].instrs| && j < |f.blocks[b].instrs[i].regs|
    requires IsRead(f.blocks[b].instrs[i].regs[j].usage) && !ReadsStale(f, b, i)
    ensures Tracked(f, b, i, f.blocks[b].instrs[i].regs[j].reg)
  {
    var op := f.blocks[b].instrs[i].regs[j];
    assert op in f.blocks[b].instrs[i].regs;
    LiveUnfold(f, b, i, op.reg);
    assert ReadsReg(f.blocks[b].instrs[i], op.reg);
  }

  /** A register that stays tracked without being written was tracked before. */
  lemma UnwrittenWasTracked(f: Func, b: nat, i: nat, r: Reg)
    requires b < |f.blocks| && i < |f.blocks[b].instrs|
    requires Tracked(f, b, i + 1, r) && !ResetsReg(f.blocks[b].instrs[i], r)
    ensures Tracked(f, b, i, r)
  {
    LiveUnfold(f, b, i, r);
  }

  /** A stale register that an instruction only reads or updates in place stays stale. */
  lemma StaleStays(f: Func, b: nat, i: nat, r: Reg)
    requires b < |f.blocks| && i < |f.blocks[b].instrs|
    requires Stale(f, b, i, r) && !ResetsReg(f.blocks[b].instrs[i], r)
    ensures !Tracked(f, b, i + 1, r)
  {
  }

  lemma WrittenByOperand(instr: Instr, j: nat)
    requires j < |instr.regs| && IsWrite(instr.regs[j].usage)
    ensures WritesReg(instr, instr.regs[j].reg) || Has(instr, instr.regs[j].reg, Kill)
  {
    assert instr.regs[j] in instr.regs;
  }

  // ---- One instruction ----

  /** After the loads, an instruction that reads nothing stale gets the same inputs. */
  lemma SameInputs(f: Func, home: map<VirtualReg, Home>, b: nat, i: nat, x: RInstr, v: VState, p: PState)
    requires b < |f.blocks| && i < |f.blocks[b].instrs|
    requires InstrSound(f, home, b, i, x) && Related(f, home, b, i, v, p) && !ReadsStale(f, b, i)
    ensures Inputs(v.regs, f.blocks[b].instrs[i].regs) == Inputs(RunLoads(p.regs, p.slots, x.loads, |x.loads|), x.regs)
  {
    var instr := f.blocks[b].instrs[i];
    var loaded := RunLoads(p.regs, p.slots, x.loads, |x.loads|);
    forall j | 0 <= j < |instr.regs|
      ensures instr.regs[j].usage == x.regs[j].usage
      ensures IsRead(instr.regs[j].usage) ==> Get(v.regs, instr.regs[j].reg) == Get(loaded, x.regs[j].reg)
    {
      assert OperandSound(home, instr, x, j);
      if IsRead(instr.regs[j].usage) {
        var r := instr.regs[j].reg;
        ReadIsTracked(f, b, i, j);
        assert Holds(f, home, b, i, v, p, r);
        match HomeOf(home, r)
        case InReg(q) => LoadsKeep(p.regs, p.slots, x.loads, |x.loads|, Physical(q));
        case InSlot(s) =>
          var k :| 0 <= k < |x.loads| && x.loads[k] == SlotMove(x.regs[j].reg.p, s);
          LoadsDeliver(p.regs, p.slots, x, |x.loads|, k);
        case Nowhere =>
      }
    }
    InputsAgree(v.regs, instr.regs, loaded, x.regs);
  }

  /** A store to the home of a tracked register stores what the instruction wrote to that register. */
  lemma StoreMeansWritten(f: Func, home: map<VirtualReg, Home>, b: nat, i: nat, x: RInstr, r: Reg, k: nat)
    requires b < |f.blocks| && i < |f.blocks[b].instrs| && k < |x.stores|
    requires |x.regs| == |f.blocks[b].instrs[i].regs| && StoresClear(f, home, b, i, x) && Tracked(f, b, i + 1, r)
    ensures HomeOf(home, r) == InSlot(x.stores[k].slot) ==>
              LastWrite(f.blocks[b].instrs[i].regs, r, |f.blocks[b].instrs[i].regs|) != -1
  {
    var ops := f.blocks[b].instrs[i].regs;
    WrittenValue(map[], ops, [], |ops|, r);
    if HomeOf(home, r) == InSlot(x.stores[k].slot) { assert StoredOperand(ops, x, r, x.stores[k].reg); }
  }

  /** The value an unwritten tracked register keeps. */
  lemma UnwrittenHolds(f: Func, home: map<VirtualReg, Home>, b: nat, i: nat, x: RInstr, v: VState, p: PState,
                       outs: seq<Value>, outs': seq<Value>, core: RegFile, r: Reg)
    requires b < |f.blocks| && i < |f.blocks[b].instrs|
    requires InstrSound(f, home, b, i, x) && Related(f, home, b, i, v, p) && Tracked(f, b, i + 1, r)
    requires LastWrite(f.blocks[b].instrs[i].regs, r, |f.blocks[b].instrs[i].regs|) == -1
    requires forall q :: Get(core, q) ==
               Get(WriteOuts(RunLoads(p.regs, p.slots, x.loads, |x.loads|), x.regs, outs', |x.regs|), q)
    ensures Get(WriteOuts(v.regs, f.blocks[b].instrs[i].regs, outs, |f.blocks[b].instrs[i].regs|), r)
         == HomeValue(PState(core, RunStores(p.slots, core, x.stores, |x.stores|), p.env), HomeOf(home, r))
  {
    var instr := f.blocks[b].instrs[i];
    var loaded := RunLoads(p.regs, p.slots, x.loads, |x.loads|);
    WrittenValue(v.regs, instr.regs, outs, |instr.regs|, r);
    assert !ResetsReg(instr, r) by { NotWrittenNotReset(instr, r); }
    UnwrittenWasTracked(f, b, i, r);
    assert Holds(f, home, b, i, v, p, r);
    match HomeOf(home, r)
    case InReg(q) =>
      LoadsKeep(p.regs, p.slots, x.loads, |x.loads|, Physical(q));
      WrittenValue(loaded, x.regs, outs', |x.regs|, Physical(q));
      forall j | 0 <= j < |x.regs| && IsWrite(x.regs[j].usage)
        ensures x.regs[j].reg != Physical(q)
      {
        assert OperandSound(home, instr, x, j);
      }
    case InSlot(s) =>
      forall k | 0 <= k < |x.stores|
        ensures x.stores[k].slot != s
      {
        StoreMeansWritten(f, home, b, i, x, r, k);
      }
      StoresKeep(p.slots, core, x.stores, |x.stores|, s);
    case Nowhere =>
  }

  lemma NotWrittenNotReset(instr: Instr, r: Reg)
    requires LastWrite(instr.regs, r, |instr.regs|) == -1
    ensures !ResetsReg(instr, r)
  {
    WrittenValue(map[], instr.regs, [], |instr.regs|, r);
    if ResetsReg(instr, r) {
      var j :| 0 <= j < |instr.regs| && instr.regs[j].reg == r && (instr.regs[j].usage == Def || instr.regs[j].usage == Kill);
      assert IsWrite(instr.regs[j].usage);
    }
  }

  /** The value a written tracked register gets. */
  lemma WrittenHolds(f: Func, home: map<VirtualReg, Home>, b: nat, i: nat, x: RInstr, v: VState, p: PState,
                     outs: seq<Value>, core: RegFile, r: Reg)
    requires b < |f.blocks| && i < |f.blocks[b].instrs|
    requires InstrSound(f, home, b, i, x) && Tracked(f, b, i + 1, r)
    requires LastWrite(f.blocks[b].instrs[i].regs, r, |f.blocks[b].instrs[i].regs|) != -1
    requires forall q :: Get(core, q) ==
               Get(WriteOuts(RunLoads(p.regs, p.slots, x.loads, |x.loads|), x.regs, outs, |x.regs|), q)
    ensures Get(WriteOuts(v.regs, f.blocks[b].instrs[i].regs, outs, |f.blocks[b].instrs[i].regs|), r)
         == HomeValue(PState(core, RunStores(p.slots, core, x.stores, |x.stores|), p.env), HomeOf(home, r))
  {
    var ops := f.blocks[b].instrs[i].regs;
    var loaded := RunLoads(p.regs, p.slots, x.loads, |x.loads|);
    WrittenValue(v.regs, ops, outs, |ops|, r);
    var last := LastWrite(ops, r, |ops|);
    assert OperandSound(home, f.blocks[b].instrs[i], x, last);
    var q := x.regs[last].reg;
    forall j | 0 <= j < |ops|
      ensures ops[j].usage == x.regs[j].usage
      ensures IsWrite(ops[j].usage) ==> (ops[j].reg == r <==> x.regs[j].reg == q)
    {
      assert OperandSound(home, f.blocks[b].instrs[i], x, j);
      if IsWrite(ops[j].usage) && ops[j].reg == r && HomeOf(home, r).InSlot? {
        StoreOfOperand(f, home, b, i, x, r, last);
      }
    }
    LastWriteAgrees(ops, x.regs, r, q, |ops|);
    WrittenValue(loaded, x.regs, outs, |x.regs|, q);
    if HomeOf(home, r).InSlot? {
      StoreOfOperand(f, home, b, i, x, r, last);
      StoresDeliver(p.slots, core, x.stores, |x.stores|, HomeOf(home, r).s, q.p);
    }
  }

  /** All stores to the slot of a written register store the register its operands were mapped to. */
  lemma StoreOfOperand(f: Func, home: map<VirtualReg, Home>, b: nat, i: nat, x: RInstr, r: Reg, j: nat)
    requires b < |f.blocks| && i < |f.blocks[b].instrs| && InstrSound(f, home, b, i, x) && Tracked(f, b, i + 1, r)
    requires j < |x.regs| && IsWrite(f.blocks[b].instrs[i].regs[j].usage) && f.blocks[b].instrs[i].regs[j].reg == r
    requires HomeOf(home, r).InSlot?
    ensures x.regs[j].reg.Physical?
    ensures exists k :: 0 <= k < |x.stores| && x.stores[k].slot == HomeOf(home, r).s
    ensures forall k | 0 <= k < |x.stores| :: x.stores[k].slot == HomeOf(home, r).s ==> Physical(x.stores[k].reg) == x.regs[j].reg
    ensures forall l | 0 <= l < |x.regs| ::
              IsWrite(f.blocks[b].instrs[i].regs[l].usage) && f.blocks[b].instrs[i].regs[l].reg == r ==> x.regs[l].reg == x.regs[j].reg
  {
    var ops := f.blocks[b].instrs[i].regs;
    assert OperandSound(home, f.blocks[b].instrs[i], x, j);
    var k :| 0 <= k < |x.stores| && x.stores[k] == SlotMove(x.regs[j].reg.p, HomeOf(home, r).s);
    assert StoredOperand(ops, x, r, x.stores[k].reg);
    forall l | 0 <= l < |x.stores| && x.stores[l].slot == HomeOf(home, r).s
      ensures Physical(x.stores[l].reg) == x.regs[j].reg
    {
      assert StoredOperand(ops, x, r, x.stores[l].reg);
    }
  }

  /** What removing a useless instruction leaves is what executing it would have left. */
  lemma CoreAsExecuted(m: Machine, removable: (nat, seq<RegOp>) -> bool, x: RInstr, regs: RegFile, env: Env)
    requires RemovableIsNop(m, removable) && (x.removed ==> removable(x.id, x.regs))
    ensures var executed := VExec(m, Instr(x.id, x.regs), VState(regs, env));
            var core := PCore(m, x, regs, env);
            core.env == executed.env && forall q :: Get(core.regs, q) == Get(executed.regs, q)
  {
    assert VExec(m, Instr(x.id, x.regs), VState(regs, env)).env == VExec(m, Instr(x.id, x.regs), VState(regs, env)).env;
  }

  lemma HoldsAfter(f: Func, home: map<VirtualReg, Home>, b: nat, i: nat, x: RInstr, v: VState, p: PState,
                   outs: seq<Value>, outs': seq<Value>, core: RegFile, env: Env, r: Reg)
    requires b < |f.blocks| && i < |f.blocks[b].instrs|
    requires InstrSound(f, home, b, i, x) && Related(f, home, b, i, v, p)
    requires outs == outs' || OnlyStaleWritten(f, b, i)
    requires forall q :: Get(core, q) ==
               Get(WriteOuts(RunLoads(p.regs, p.slots, x.loads, |x.loads|), x.regs, outs', |x.regs|), q)
    ensures Holds(f, home, b, i + 1, VState(WriteOuts(v.regs, f.blocks[b].instrs[i].regs, outs, |f.blocks[b].instrs[i].regs|), env),
                  PState(core, RunStores(p.slots, core, x.stores, |x.stores|), env), r)
  {
    var ops := f.blocks[b].instrs[i].regs;
    if Tracked(f, b, i + 1, r) {
      if LastWrite(ops, r, |ops|) == -1 {
        UnwrittenHolds(f, home, b, i, x, v, p, outs, outs', core, r);
      } else {
        if OnlyStaleWritten(f, b, i) { OnlyStaleWrittenIsUntracked(f, b, i, r); }
        WrittenHolds(f, home, b, i, x, v, p, outs, core, r);
      }
    }
  }

  lemma OnlyStaleWrittenIsUntracked(f: Func, b: nat, i: nat, r: Reg)
    requires b < |f.blocks| && i < |f.blocks[b].instrs| && OnlyStaleWritten(f, b, i)
    requires LastWrite(f.blocks[b].instrs[i].regs, r, |f.blocks[b].instrs[i].regs|) != -1
    ensures !Tracked(f, b, i + 1, r)
  {
    var instr := f.blocks[b].instrs[i];
    WrittenValue(map[], instr.regs, [], |instr.regs|, r);
    WrittenByOperand(instr, LastWrite(instr.regs, r, |instr.regs|));
    StaleStays(f, b, i, r);
  }

  /** One instruction keeps the two programs related. */
  lemma InstrStep(f: Func, home: map<VirtualReg, Home>, m: Machine, removable: (nat, seq<RegOp>) -> bool,
                  b: nat, i: nat, x: RInstr, v: VState, p: PState)
    requires b < |f.blocks| && i < |f.blocks[b].instrs| && Reachable(f, b)
    requires InstrSound(f, home, b, i, x) && Related(f, home, b, i, v, p)
    requires StaleReadsHarmless(f, m)
    requires RemovableIsNop(m, removable) && (x.removed ==> removable(x.id, x.regs))
    ensures Related(f, home, b, i + 1, VExec(m, f.blocks[b].instrs[i], v), PExec(m, x, p))
  {
    var instr := f.blocks[b].instrs[i];
    var loaded := RunLoads(p.regs, p.slots, x.loads, |x.loads|);
    var inputs, inputs' := Inputs(v.regs, instr.regs), Inputs(loaded, x.regs);
    var eff, eff' := m.exec(instr.id, inputs, v.env), m.exec(instr.id, inputs', p.env);
    var core := PCore(m, x, loaded, p.env);
    CoreAsExecuted(m, removable, x, loaded, p.env);
    if ReadsStale(f, b, i) {
      assert EnvNeutral(m, instr.id);
      assert eff.env == v.env && eff'.env == p.env;
      assert OnlyStaleWritten(f, b, i);
    } else {
      SameInputs(f, home, b, i, x, v, p);
    }
    var next := i + 1;
    forall r
      ensures Holds(f, home, b, next, VExec(m, instr, v), PExec(m, x, p), r)
    {
      HoldsAfter(f, home, b, i, x, v, p, eff.outs, eff'.outs, core.regs, eff.env, r);
    }
  }

  // ---- Whole runs ----

  /** At the end of a block, what a successor tracks is tracked. */
  lemma BlockStep(f: Func, home: map<VirtualReg, Home>, b: nat, k: nat, v: VState, p: PState)
    requires ValidFunc(f) && b < |f.blocks| && Reachable(f, b) && k < |f.blocks[b].succs|
    requires Related(f, home, b, |f.blocks[b].instrs|, v, p)
    ensures Related(f, home, f.blocks[b].succs[k], 0, v, p)
  {
    var c, n := f.blocks[b].succs[k], |f.blocks[b].instrs|;
    forall r
      ensures Holds(f, home, c, 0, v, p, r)
    {
      if Tracked(f, c, 0, r) {
        LiveIntoSuccessor(f, b, k, r);
        LiveInsEquationAt(f, b, r);
        NotDefinedMeansNoDef(f.blocks[b], r);
        assert Tracked(f, b, n, r);
        assert Holds(f, home, b, n, v, p, r);
      }
    }
  }

  ghost predicate InStep(f: Func, home: map<VirtualReg, Home>, v: (Pos, VState), p: (Pos, PState))
    requires InCode(f, v.0)
  {
    && v.0 == p.0
    && (v.0.At? ==> Reachable(f, v.0.block) && Related(f, home, v.0.block, v.0.instr, v.1, p.1))
    && v.1.env == p.1.env
  }

  ghost predicate RemovedAreRemovable(code: Code, removable: (nat, seq<RegOp>) -> bool) {
    forall b, i | 0 <= b < |code| && 0 <= i < |code[b]| :: code[b][i].removed ==> removable(code[b][i].id, code[b][i].regs)
  }

  lemma NextBlockStaysInStep(f: Func, home: map<VirtualReg, Home>, m: Machine, b: nat, v: VState, p: PState)
    requires ValidFunc(f) && b < |f.blocks| && Reachable(f, b)
    requires Related(f, home, b, |f.blocks[b].instrs|, v, p)
    ensures InCode(f, NextBlock(f, m, b, v.env))
    ensures InStep(f, home, (NextBlock(f, m, b, v.env), v), (NextBlock(f, m, b, p.env), p))
  {
    var k := m.branch(b, v.env);
    if k < |f.blocks[b].succs| {
      SuccessorReachable(f, b, k);
      BlockStep(f, home, b, k, v, p);
    }
  }

  lemma StepStaysInStep(f: Func, home: map<VirtualReg, Home>, code: Code, m: Machine, removable: (nat, seq<RegOp>) -> bool,
                        pos: Pos, v: VState, p: PState)
    requires ValidFunc(f) && CodeSound(f, home, code)
    requires StaleReadsHarmless(f, m) && RemovableIsNop(m, removable) && RemovedAreRemovable(code, removable)
    requires InCode(f, pos) && InStep(f, home, (pos, v), (pos, p))
    ensures InCode(f, VStep(f, m, pos, v).0)
    ensures InStep(f, home, VStep(f, m, pos, v), PStep(f, code, m, pos, p))
  {
    if pos.At? {
      if pos.instr < |f.blocks[pos.block].instrs| {
        var x := code[pos.block][pos.instr];
        assert InstrSound(f, home, pos.block, pos.instr, x);
        InstrStep(f, home, m, removable, pos.block, pos.instr, x, v, p);
      } else {
        NextBlockStaysInStep(f, home, m, pos.block, v, p);
      }
    }
  }

  /**
    The two programs stay in step for ever: after any number of steps they are at the same place, see the same
    environment, and every tracked register's value is in its home.
   */
  lemma {:induction false} RunsStayInStep(f: Func, home: map<VirtualReg, Home>, code: Code, m: Machine,
                                          removable: (nat, seq<RegOp>) -> bool, v: VState, p: PState, n: nat)
    requires ValidFunc(f) && CodeSound(f, home, code)
    requires StaleReadsHarmless(f, m) && RemovableIsNop(m, removable) && RemovedAreRemovable(code, removable)
    requires Related(f, home, 0, 0, v, p)
    ensures InStep(f, home, VRun(f, m, v, n), PRun(f, code, m, p, n))
  {
    if n == 0 {
      ReachesSelf(FlowEdges(f), 0);
    } else {
      RunsStayInStep(f, home, code, m, removable, v, p, n - 1);
      var (pos, v') := VRun(f, m, v, n - 1);
      var (_, p') := PRun(f, code, m, p, n - 1);
      StepStaysInStep(f, home, code, m, removable, pos, v', p');
    }
  }
}
