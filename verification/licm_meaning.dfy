/** Moving loop-invariant code keeps the meaning of a function. */
module LicmMeaning {
  import opened Graph
  import opened RegAllocFunc
  import opened Dominance
  import opened LoopAnalysis
  import opened Ssa
  import opened Licm

  // ---- What the two programs have in common ----

  ghost predicate SameAt(g: Cfg, f: SsaFunc, c: nat, j: nat, st: SsaState, st': SsaState, r: VReg)
    requires |g.nodes| > 0
  {
    InScope(g, f, r, c, j) ==> Read(st.regs, r) == Read(st'.regs, r)
  }

  /** Same memory, and same values in all registers that may be read. */
  ghost predicate Agree(g: Cfg, f: SsaFunc, c: nat, j: nat, st: SsaState, st': SsaState)
    requires |g.nodes| > 0
  {
    st.mem == st'.mem && forall r {:trigger SameAt(g, f, c, j, st, st', r)} :: SameAt(g, f, c, j, st, st', r)
  }

  /** The register of the moved instruction holds what the instruction would compute now. */
  predicate Ready(m: SsaMachine, moved: SsaInstr, st: SsaState) {
    moved.dest.Some? && Read(st.regs, moved.dest.value) == m.pure(moved.opcode, ValuesOf(st.regs, moved.operands))
  }

  lemma SameOperandValues(g: Cfg, f: SsaFunc, c: nat, j: nat, st: SsaState, st': SsaState, operands: seq<Operand>)
    requires |g.nodes| > 0 && Agree(g, f, c, j, st, st')
    requires forall r | r in OperandRegs(operands) :: InScope(g, f, r, c, j)
    ensures ValuesOf(st.regs, operands) == ValuesOf(st'.regs, operands)
  {
    forall r | r in OperandRegs(operands)
      ensures Read(st.regs, r) == Read(st'.regs, r)
    {
      assert SameAt(g, f, c, j, st, st', r);
    }
    SameValues(st.regs, st'.regs, operands);
  }

  /** What comes into scope with instruction `j`. */
  lemma ScopeGrows(g: Cfg, f: SsaFunc, c: nat, j: nat, r: VReg)
    requires |g.nodes| > 0 && c < |f.blocks| && j < |f.blocks[c].instrs| && InScope(g, f, r, c, j + 1)
    ensures InScope(g, f, r, c, j) || f.blocks[c].instrs[j].dest == Some(r)
  {
    var d: nat, k: nat :| ReachesUse(g, f, r, d, k, c, j + 1);
    if d != c || k <= j { assert ReachesUse(g, f, r, d, k, c, j); }
  }

  lemma ExecKeepsAgree(g: Cfg, f: SsaFunc, m: SsaMachine, c: nat, j: nat, st: SsaState, st': SsaState)
    requires |g.nodes| > 0 && c < |f.blocks| && j < |f.blocks[c].instrs| && UsesInScope(g, f, c, j)
    requires Agree(g, f, c, j, st, st')
    ensures Agree(g, f, c, j + 1, Exec(m, f.blocks[c].instrs[j], st), Exec(m, f.blocks[c].instrs[j], st'))
  {
    var instr, next := f.blocks[c].instrs[j], j + 1;
    SameOperandValues(g, f, c, j, st, st', instr.operands);
    forall r
      ensures SameAt(g, f, c, next, Exec(m, instr, st), Exec(m, instr, st'), r)
    {
      if InScope(g, f, r, c, next) {
        ScopeGrows(g, f, c, j, r);
        assert SameAt(g, f, c, j, st, st', r);
      }
    }
  }

  lemma {:induction false} RangeKeepsAgree(g: Cfg, f: SsaFunc, m: SsaMachine, c: nat, lo: nat, hi: nat, st: SsaState, st': SsaState)
    requires ValidSsa(g, f) && c < |f.blocks| && lo <= hi <= |f.blocks[c].instrs| && Agree(g, f, c, lo, st, st')
    ensures Agree(g, f, c, hi, ExecRange(m, f.blocks[c].instrs, lo, hi, st), ExecRange(m, f.blocks[c].instrs, lo, hi, st'))
    decreases hi
  {
    if lo < hi {
      RangeKeepsAgree(g, f, m, c, lo, hi - 1, st, st');
      assert UsesInScope(g, f, c, hi - 1);
      ExecKeepsAgree(g, f, m, c, hi - 1, ExecRange(m, f.blocks[c].instrs, lo, hi - 1, st),
                     ExecRange(m, f.blocks[c].instrs, lo, hi - 1, st'));
    }
  }

  /** An instruction that writes neither the moved register nor an operand of it. */
  predicate LeavesReady(moved: SsaInstr, instr: SsaInstr) {
    instr.dest.Some? ==> instr.dest != moved.dest && instr.dest.value !in OperandRegs(moved.operands)
  }

  lemma ExecKeepsReady(m: SsaMachine, moved: SsaInstr, instr: SsaInstr, st: SsaState)
    requires Ready(m, moved, st) && LeavesReady(moved, instr)
    ensures Ready(m, moved, Exec(m, instr, st))
  {
    SameValues(st.regs, Exec(m, instr, st).regs, moved.operands);
  }

  lemma {:induction false} RangeKeepsReady(m: SsaMachine, moved: SsaInstr, instrs: seq<SsaInstr>, lo: nat, hi: nat, st: SsaState)
    requires lo <= hi <= |instrs| && Ready(m, moved, st)
    requires forall k | lo <= k < hi :: LeavesReady(moved, instrs[k])
    ensures Ready(m, moved, ExecRange(m, instrs, lo, hi, st))
    decreases hi
  {
    if lo < hi {
      RangeKeepsReady(m, moved, instrs, lo, hi - 1, st);
      ExecKeepsReady(m, moved, instrs[hi - 1], ExecRange(m, instrs, lo, hi - 1, st));
    }
  }

  /** Executing the moved instruction makes its register ready. */
  lemma ExecMakesReady(m: SsaMachine, moved: SsaInstr, st: SsaState)
    requires moved.dest.Some? && moved.opcode != Load && moved.opcode != Store && moved.opcode != Call
    requires moved.dest.value !in OperandRegs(moved.operands)
    ensures Ready(m, moved, Exec(m, moved, st))
  {
    SameValues(st.regs, Exec(m, moved, st).regs, moved.operands);
  }

  // ---- Executing changed lists of instructions ----

  lemma {:induction false} InsertedStart(m: SsaMachine, instrs: seq<SsaInstr>, moved: SsaInstr, n: nat, st: SsaState)
    requires |instrs| > 0 && n < |instrs|
    ensures ExecRange(m, InsertBeforeLast(instrs, moved), 0, n, st) == ExecRange(m, instrs, 0, n, st)
  {
    if n > 0 { InsertedStart(m, instrs, moved, n - 1, st); }
  }

  lemma InsertedRuns(m: SsaMachine, instrs: seq<SsaInstr>, moved: SsaInstr, st: SsaState)
    requires |instrs| > 0
    ensures ExecRange(m, InsertBeforeLast(instrs, moved), 0, |instrs|, st) ==
            Exec(m, moved, ExecRange(m, instrs, 0, |instrs| - 1, st))
  {
    InsertedStart(m, instrs, moved, |instrs| - 1, st);
  }

  /** `rest` lacks instruction `i` of `instrs`. */
  ghost predicate Lacks(rest: seq<SsaInstr>, instrs: seq<SsaInstr>, i: nat) {
    i < |instrs| && rest == RemoveAt(instrs, i)
  }

  lemma {:induction false} RemovedStart(m: SsaMachine, instrs: seq<SsaInstr>, rest: seq<SsaInstr>, i: nat, n: nat, st: SsaState)
    requires Lacks(rest, instrs, i) && n <= i
    ensures ExecRange(m, rest, 0, n, st) == ExecRange(m, instrs, 0, n, st)
  {
    if n > 0 { RemovedStart(m, instrs, rest, i, n - 1, st); }
  }

  /** Without instruction `i`: the part before it, and then the part after it. */
  lemma {:induction false} RemovedRuns(m: SsaMachine, instrs: seq<SsaInstr>, rest: seq<SsaInstr>, i: nat, hi: nat, last: nat, st: SsaState)
    requires Lacks(rest, instrs, i) && i <= hi < last < |instrs| && last == hi + 1
    ensures ExecRange(m, rest, 0, hi, st) == ExecRange(m, instrs, i + 1, last, ExecRange(m, instrs, 0, i, st))
    decreases hi
  {
    if i == hi {
      RemovedStart(m, instrs, rest, i, i, st);
    } else {
      RemovedRuns(m, instrs, rest, i, hi - 1, last - 1, st);
    }
  }

  /** With it: the part before, the instruction itself, and the part after. */
  lemma {:induction false} RunsAround(m: SsaMachine, instrs: seq<SsaInstr>, i: nat, last: nat, st: SsaState)
    requires i < last <= |instrs|
    ensures ExecRange(m, instrs, 0, last, st) == ExecRange(m, instrs, i + 1, last, Exec(m, instrs[i], ExecRange(m, instrs, 0, i, st)))
    decreases last
  {
    if i + 1 < last { RunsAround(m, instrs, i, last - 1, st); }
  }

  // ---- One move ----

  /** The move under consideration, with the facts about it that the proof of meaning uses. */
  datatype Move = Move(g: Cfg, f: SsaFunc, l: Loop, e: nat, b: nat, i: nat)

  ghost predicate ValidMove(v: Move) {
    Hoistable(v.g, v.f, v.l, v.e, v.b, v.i) && CanMove(v.f, v.b, v.i, v.e) && v.i < |v.f.blocks[v.b].instrs| - 1
  }

  function Moved(v: Move): SsaInstr
    requires v.b < |v.f.blocks| && v.i < |v.f.blocks[v.b].instrs|
  {
    v.f.blocks[v.b].instrs[v.i]
  }

  function After(v: Move): SsaFunc
    requires CanMove(v.f, v.b, v.i, v.e)
  {
    Hoist(v.f, v.b, v.i, v.e)
  }

  /** The states in which the two programs start block `c`. */
  ghost predicate AgreeAtStart(v: Move, m: SsaMachine, c: nat, st: SsaState, st': SsaState)
    requires ValidMove(v)
  {
    c < |v.f.blocks| && Agree(v.g, v.f, c, 0, st, st') && (c in v.l.body ==> Ready(m, Moved(v), st'))
  }

  /** The states in which they reach the last instruction of block `c`. */
  ghost predicate AgreeAtEnd(v: Move, m: SsaMachine, c: nat, st: SsaState, st': SsaState)
    requires ValidMove(v)
  {
    c < |v.f.blocks| && |v.f.blocks[c].instrs| > 0
    && Agree(v.g, v.f, c, |v.f.blocks[c].instrs| - 1, st, st') && (c in v.l.body || c == v.e ==> Ready(m, Moved(v), st'))
  }

  /** Nothing in the loop writes an operand of the moved instruction, and nothing else its register. */
  lemma OthersLeaveReady(v: Move, c: nat, j: nat)
    requires ValidMove(v) && c in v.l.body && c < |v.f.blocks| && j < |v.f.blocks[c].instrs|
    ensures (c, j) != (v.b, v.i) ==> LeavesReady(Moved(v), v.f.blocks[c].instrs[j])
    ensures Moved(v).dest.Some? && Moved(v).dest.value !in OperandRegs(Moved(v).operands)
  {
    var instr, moved := v.f.blocks[c].instrs[j], Moved(v);
    assert DefinedAt(v.f, moved.dest.value, v.b, v.i + 1);
    DefinedInLoop(v.f, v.l.body, moved.dest.value, v.b, v.i + 1);
    if instr.dest.Some? {
      assert DefinedAt(v.f, instr.dest.value, c, j + 1);
      DefinedInLoop(v.f, v.l.body, instr.dest.value, c, j + 1);
    }
  }

  lemma AllLeaveReady(v: Move, c: nat, lo: nat, hi: nat)
    requires ValidMove(v) && c in v.l.body && c < |v.f.blocks| && lo <= hi <= |v.f.blocks[c].instrs|
    requires c == v.b ==> !(lo <= v.i < hi)
    ensures forall k | lo <= k < hi :: LeavesReady(Moved(v), v.f.blocks[c].instrs[k])
  {
    forall k | lo <= k < hi
      ensures LeavesReady(Moved(v), v.f.blocks[c].instrs[k])
    {
      OthersLeaveReady(v, c, k);
    }
  }

  /** The moved register is not in scope where the instruction has been moved to. */
  lemma MovedNotInScope(v: Move, j: nat)
    requires ValidMove(v)
    ensures Moved(v).dest.Some? && !InScope(v.g, v.f, Moved(v).dest.value, v.e, j)
  {
    var d := Moved(v).dest.value;
    assert DefinedAt(v.f, d, v.b, v.i + 1);
    EntryDominatesBody(v.g, v.l, v.e, v.b);
    forall c: nat, k: nat
      ensures !ReachesUse(v.g, v.f, d, c, k, v.e, j)
    {
      if DefinedAt(v.f, d, c, k) { assert c == v.b; }
    }
  }

  lemma OtherBlockRuns(v: Move, m: SsaMachine, c: nat, st: SsaState, st': SsaState)
    requires ValidMove(v) && AgreeAtStart(v, m, c, st, st') && c != v.b && c != v.e
    ensures var n := |v.f.blocks[c].instrs|;
            n > 0 && AgreeAtEnd(v, m, c, ExecRange(m, v.f.blocks[c].instrs, 0, n - 1, st), ExecRange(m, v.f.blocks[c].instrs, 0, n - 1, st'))
  {
    var instrs := v.f.blocks[c].instrs;
    assert WellFormedBlock(v.g, v.f, c);
    RangeKeepsAgree(v.g, v.f, m, c, 0, |instrs| - 1, st, st');
    if c in v.l.body {
      AllLeaveReady(v, c, 0, |instrs| - 1);
      RangeKeepsReady(m, Moved(v), instrs, 0, |instrs| - 1, st');
    }
  }

  /** In the block before the loop, the moved instruction runs last. */
  lemma EntryBlockRuns(v: Move, m: SsaMachine, st: SsaState, st': SsaState)
    requires ValidMove(v) && AgreeAtStart(v, m, v.e, st, st')
    ensures var n := |v.f.blocks[v.e].instrs|;
            n > 0 && AgreeAtEnd(v, m, v.e, ExecRange(m, v.f.blocks[v.e].instrs, 0, n - 1, st),
                                Exec(m, Moved(v), ExecRange(m, v.f.blocks[v.e].instrs, 0, n - 1, st')))
  {
    var instrs, n := v.f.blocks[v.e].instrs, |v.f.blocks[v.e].instrs|;
    RangeKeepsAgree(v.g, v.f, m, v.e, 0, n - 1, st, st');
    var end, end' := ExecRange(m, instrs, 0, n - 1, st), ExecRange(m, instrs, 0, n - 1, st');
    OthersLeaveReady(v, v.b, v.i);
    ExecMakesReady(m, Moved(v), end');
    var last := n - 1;
    MovedNotInScope(v, last);
    forall r
      ensures SameAt(v.g, v.f, v.e, last, end, Exec(m, Moved(v), end'), r)
    {
      assert SameAt(v.g, v.f, v.e, last, end, end', r);
    }
  }

  /** In its old block the instruction computes what its register holds already. */
  lemma OldBlockMiddle(v: Move, m: SsaMachine, st: SsaState, st': SsaState)
    requires ValidMove(v) && Agree(v.g, v.f, v.b, v.i, st, st') && Ready(m, Moved(v), st')
    ensures Agree(v.g, v.f, v.b, v.i + 1, Exec(m, Moved(v), st), st')
  {
    var next := v.i + 1;
    assert UsesInScope(v.g, v.f, v.b, v.i);
    SameOperandValues(v.g, v.f, v.b, v.i, st, st', Moved(v).operands);
    forall r
      ensures SameAt(v.g, v.f, v.b, next, Exec(m, Moved(v), st), st', r)
    {
      if InScope(v.g, v.f, r, v.b, next) {
        ScopeGrows(v.g, v.f, v.b, v.i, r);
        assert SameAt(v.g, v.f, v.b, v.i, st, st', r);
      }
    }
  }

  lemma OldBlockStart(v: Move, m: SsaMachine, st: SsaState, st': SsaState)
    requires ValidMove(v) && AgreeAtStart(v, m, v.b, st, st')
    ensures var instrs := v.f.blocks[v.b].instrs;
            var middle, middle' := ExecRange(m, instrs, 0, v.i, st), ExecRange(m, instrs, 0, v.i, st');
            Agree(v.g, v.f, v.b, v.i, middle, middle') && Ready(m, Moved(v), middle')
  {
    RangeKeepsAgree(v.g, v.f, m, v.b, 0, v.i, st, st');
    AllLeaveReady(v, v.b, 0, v.i);
    RangeKeepsReady(m, Moved(v), v.f.blocks[v.b].instrs, 0, v.i, st');
  }

  lemma OldBlockRest(v: Move, m: SsaMachine, st: SsaState, st': SsaState)
    requires ValidMove(v) && Agree(v.g, v.f, v.b, v.i + 1, st, st') && Ready(m, Moved(v), st')
    ensures var instrs := v.f.blocks[v.b].instrs;
            AgreeAtEnd(v, m, v.b, ExecRange(m, instrs, v.i + 1, |instrs| - 1, st), ExecRange(m, instrs, v.i + 1, |instrs| - 1, st'))
  {
    var instrs := v.f.blocks[v.b].instrs;
    RangeKeepsAgree(v.g, v.f, m, v.b, v.i + 1, |instrs| - 1, st, st');
    AllLeaveReady(v, v.b, v.i + 1, |instrs| - 1);
    RangeKeepsReady(m, Moved(v), instrs, v.i + 1, |instrs| - 1, st');
  }

  lemma OldBlockEnds(v: Move, m: SsaMachine, st: SsaState, st': SsaState, end: SsaState, end': SsaState)
    requires ValidMove(v)
    requires var instrs := v.f.blocks[v.b].instrs;
             && end == ExecRange(m, instrs, v.i + 1, |instrs| - 1, Exec(m, Moved(v), ExecRange(m, instrs, 0, v.i, st)))
             && end' == ExecRange(m, instrs, v.i + 1, |instrs| - 1, ExecRange(m, instrs, 0, v.i, st'))
    ensures AgreeAtStart(v, m, v.b, st, st') ==> AgreeAtEnd(v, m, v.b, end, end')
  {
    if AgreeAtStart(v, m, v.b, st, st') {
      var instrs := v.f.blocks[v.b].instrs;
      var middle, middle' := ExecRange(m, instrs, 0, v.i, st), ExecRange(m, instrs, 0, v.i, st');
      OldBlockStart(v, m, st, st');
      OldBlockMiddle(v, m, middle, middle');
      OldBlockRest(v, m, Exec(m, Moved(v), middle), middle');
    }
  }

  // ---- Branching ----

  lemma LastIsLast(v: Move, c: nat)
    requires ValidMove(v) && c < |v.f.blocks|
    ensures var instrs, instrs' := v.f.blocks[c].instrs, After(v).blocks[c].instrs;
            |instrs| > 0 && |instrs'| > 0 && instrs'[|instrs'| - 1] == instrs[|instrs| - 1] && |After(v).blocks| == |v.f.blocks|
  {
    HoistBlocks(v.f, v.b, v.i, v.e);
    assert WellFormedBlock(v.g, v.f, c);
  }

  /** Both programs run block `c` up to its last instruction into states that agree. */
  ghost predicate BlockAgrees(v: Move, m: SsaMachine, c: nat, st: SsaState, st': SsaState)
    requires ValidMove(v) && c < |v.f.blocks|
  {
    AgreeAtEnd(v, m, c, EndOf(m, v.f, c, st), EndOf(m, After(v), c, st'))
  }

  /** The state in which block `c` reaches its last instruction. */
  function EndOf(m: SsaMachine, f: SsaFunc, c: nat, st: SsaState): SsaState {
    if c < |f.blocks| && |f.blocks[c].instrs| > 0 then ExecRange(m, f.blocks[c].instrs, 0, |f.blocks[c].instrs| - 1, st) else st
  }

  lemma OldBlockIs(f: SsaFunc, b: nat, i: nat, e: nat)
    requires CanMove(f, b, i, e)
    ensures b < |Hoist(f, b, i, e).blocks| && Hoist(f, b, i, e).blocks[b].instrs == RemoveAt(f.blocks[b].instrs, i)
  {
    HoistBlocks(f, b, i, e);
  }

  lemma EndWithout(m: SsaMachine, g: SsaFunc, b: nat, instrs: seq<SsaInstr>, i: nat, last: nat, st: SsaState)
    requires b < |g.blocks| && i < last < |instrs| && last == |instrs| - 1 && g.blocks[b].instrs == RemoveAt(instrs, i)
    ensures EndOf(m, g, b, st) == ExecRange(m, instrs, i + 1, last, ExecRange(m, instrs, 0, i, st))
  {
    var hi: nat := |g.blocks[b].instrs| - 1;
    RemovedRuns(m, instrs, g.blocks[b].instrs, i, hi, last, st);
  }

  lemma EndWith(m: SsaMachine, f: SsaFunc, b: nat, i: nat, last: nat, st: SsaState)
    requires b < |f.blocks| && last == |f.blocks[b].instrs| - 1 && i < last
    ensures var instrs := f.blocks[b].instrs;
            EndOf(m, f, b, st) == ExecRange(m, instrs, i + 1, last, Exec(m, instrs[i], ExecRange(m, instrs, 0, i, st)))
  {
    RunsAround(m, f.blocks[b].instrs, i, last, st);
  }

  lemma OldBlockAgrees(v: Move, m: SsaMachine, st: SsaState, st': SsaState)
    requires ValidMove(v)
    ensures AgreeAtStart(v, m, v.b, st, st') ==> BlockAgrees(v, m, v.b, st, st')
  {
    OldBlockIs(v.f, v.b, v.i, v.e);
    EndWith(m, v.f, v.b, v.i, |v.f.blocks[v.b].instrs| - 1, st);
    EndWithout(m, After(v), v.b, v.f.blocks[v.b].instrs, v.i, |v.f.blocks[v.b].instrs| - 1, st');
    OldBlockEnds(v, m, st, st', EndOf(m, v.f, v.b, st), EndOf(m, After(v), v.b, st'));
  }

  lemma EntryBlockAgrees(v: Move, m: SsaMachine, st: SsaState, st': SsaState)
    requires ValidMove(v)
    ensures AgreeAtStart(v, m, v.e, st, st') ==> BlockAgrees(v, m, v.e, st, st')
  {
    HoistBlocks(v.f, v.b, v.i, v.e);
    if AgreeAtStart(v, m, v.e, st, st') {
      EntryBlockRuns(v, m, st, st');
      InsertedRuns(m, v.f.blocks[v.e].instrs, Moved(v), st');
    }
  }

  lemma OtherBlockAgrees(v: Move, m: SsaMachine, c: nat, st: SsaState, st': SsaState)
    requires ValidMove(v) && c < |v.f.blocks| && c != v.b && c != v.e
    ensures AgreeAtStart(v, m, c, st, st') ==> BlockAgrees(v, m, c, st, st')
  {
    HoistBlocks(v.f, v.b, v.i, v.e);
    if AgreeAtStart(v, m, c, st, st') { OtherBlockRuns(v, m, c, st, st'); }
  }

  /** Whichever block it is, both programs reach its last instruction in states that agree. */
  lemma BlockRuns(v: Move, m: SsaMachine, c: nat, st: SsaState, st': SsaState)
    requires ValidMove(v) && AgreeAtStart(v, m, c, st, st')
    ensures BlockAgrees(v, m, c, st, st')
  {
    if c == v.b {
      OldBlockAgrees(v, m, st, st');
    } else if c == v.e {
      EntryBlockAgrees(v, m, st, st');
    } else {
      OtherBlockAgrees(v, m, c, st, st');
    }
  }

  /** What is in scope at the start of a successor was in scope at the end, unless it is a parameter. */
  lemma ScopeFlows(g: Cfg, f: SsaFunc, a: nat, b: nat, r: VReg)
    requires ValidSsa(g, f) && (a, b) in CfgEdges(g) && a < |f.blocks| && b < |f.blocks| && InScope(g, f, r, b, 0)
    ensures |f.blocks[a].instrs| > 0
    ensures r in f.blocks[b].params || InScope(g, f, r, a, |f.blocks[a].instrs| - 1)
  {
    var d: nat, k: nat :| ReachesUse(g, f, r, d, k, b, 0);
    assert WellFormedBlock(g, f, a);
    if d != b {
      DominatesPredecessor(g, d, a, b);
      assert ReachesUse(g, f, r, d, k, a, |f.blocks[a].instrs| - 1);
    }
  }

  lemma EnterKeepsSame(v: Move, a: nat, t: Target, st: SsaState, st': SsaState, r: VReg)
    requires ValidMove(v) && a < |v.f.blocks| && |v.f.blocks[a].instrs| > 0 && WellFormedTarget(v.g, v.f, a, t)
    requires Agree(v.g, v.f, a, |v.f.blocks[a].instrs| - 1, st, st')
    requires ValuesOf(st.regs, t.args) == ValuesOf(st'.regs, t.args)
    ensures SameAt(v.g, v.f, t.block, 0, st.(regs := Enter(v.f, st.regs, t)), st'.(regs := Enter(v.f, st'.regs, t)), r)
  {
    var params, values := v.f.blocks[t.block].params, ValuesOf(st.regs, t.args);
    if InScope(v.g, v.f, r, t.block, 0) {
      ValuesCount(st.regs, t.args);
      ScopeFlows(v.g, v.f, a, t.block, r);
      BindTells(st.regs, st'.regs, params, values, |params|, r);
      BindTells(st'.regs, st.regs, params, values, |params|, r);
      assert params[..|params|] == params;
      assert SameAt(v.g, v.f, a, |v.f.blocks[a].instrs| - 1, st, st', r);
    }
  }

  /** The parameters of a loop block touch neither the moved register nor its operands. */
  lemma EnterKeepsReady(v: Move, m: SsaMachine, t: Target, st: SsaState)
    requires ValidMove(v) && t.block in v.l.body && t.block < |v.f.blocks| && Ready(m, Moved(v), st)
    ensures Ready(m, Moved(v), st.(regs := Enter(v.f, st.regs, t)))
  {
    var params, values, moved := v.f.blocks[t.block].params, ValuesOf(st.regs, t.args), Moved(v);
    assert DefinedAt(v.f, moved.dest.value, v.b, v.i + 1);
    forall r | r == moved.dest.value || r in OperandRegs(moved.operands)
      ensures Read(Enter(v.f, st.regs, t), r) == Read(st.regs, r)
    {
      assert r !in params by {
        if DefinedAt(v.f, r, t.block, 0) { DefinedInLoop(v.f, v.l.body, r, t.block, 0); }
      }
      if |values| == |params| {
        BindTells(st.regs, st.regs, params, values, |params|, r);
        assert params[..|params|] == params;
      }
    }
    SameValues(st.regs, Enter(v.f, st.regs, t), moved.operands);
  }

  /** From the end of a block both programs go the same way, into states that agree again. */
  lemma BranchAgrees(v: Move, m: SsaMachine, a: nat, st: SsaState, st': SsaState)
    requires ValidMove(v) && AgreeAtEnd(v, m, a, st, st')
    ensures var last := v.f.blocks[a].instrs[|v.f.blocks[a].instrs| - 1];
            var (control, next), (control', next') := Branch(m, v.f, last, st), Branch(m, After(v), last, st');
            control == control' && next.mem == next'.mem && (control.AtBlock? ==> AgreeAtStart(v, m, control.b, next, next'))
  {
    var n := |v.f.blocks[a].instrs|;
    var last := v.f.blocks[a].instrs[n - 1];
    assert UsesInScope(v.g, v.f, a, n - 1) && WellFormedBlock(v.g, v.f, a);
    SameOperandValues(v.g, v.f, a, n - 1, st, st', last.operands);
    HoistBlocks(v.f, v.b, v.i, v.e);
    var k := m.choose(last.opcode, ValuesOf(st.regs, last.operands), st.mem);
    if k < |last.targets| {
      var t := last.targets[k];
      assert t in last.targets && WellFormedTarget(v.g, v.f, a, t);
      TargetAgrees(v, m, a, t, st, st');
    }
  }

  lemma TargetAgrees(v: Move, m: SsaMachine, a: nat, t: Target, st: SsaState, st': SsaState)
    requires ValidMove(v) && AgreeAtEnd(v, m, a, st, st') && WellFormedTarget(v.g, v.f, a, t)
    requires t in v.f.blocks[a].instrs[|v.f.blocks[a].instrs| - 1].targets
    ensures AgreeAtStart(v, m, t.block, st.(regs := Enter(v.f, st.regs, t)), st'.(regs := Enter(v.f, st'.regs, t)))
  {
    var n := |v.f.blocks[a].instrs|;
    var last := v.f.blocks[a].instrs[n - 1];
    assert UsesInScope(v.g, v.f, a, n - 1);
    forall r | r in OperandRegs(t.args)
      ensures InScope(v.g, v.f, r, a, n - 1)
    {
      assert r in TargetRegs(last.targets);
    }
    SameOperandValues(v.g, v.f, a, n - 1, st, st', t.args);
    forall r
      ensures SameAt(v.g, v.f, t.block, 0, st.(regs := Enter(v.f, st.regs, t)), st'.(regs := Enter(v.f, st'.regs, t)), r)
    {
      EnterKeepsSame(v, a, t, st, st', r);
    }
    if t.block in v.l.body {
      EntersThroughHeader(v.g, v.l, a, t.block);
      EnterKeepsReady(v, m, t, st');
    }
  }

  // ---- Whole runs ----

  lemma RunBlockAgrees(v: Move, m: SsaMachine, c: nat, st: SsaState, st': SsaState)
    requires ValidMove(v) && AgreeAtStart(v, m, c, st, st')
    ensures var (control, next), (control', next') := RunBlock(m, v.f, c, st), RunBlock(m, After(v), c, st');
            control == control' && next.mem == next'.mem && (control.AtBlock? ==> AgreeAtStart(v, m, control.b, next, next'))
  {
    LastIsLast(v, c);
    BlockRuns(v, m, c, st, st');
    var instrs, instrs' := v.f.blocks[c].instrs, After(v).blocks[c].instrs;
    BranchAgrees(v, m, c, ExecRange(m, instrs, 0, |instrs| - 1, st), ExecRange(m, instrs', 0, |instrs'| - 1, st'));
  }

  lemma {:induction false} RunsAgree(v: Move, m: SsaMachine, st: SsaState, n: nat)
    requires ValidMove(v)
    ensures var (control, next), (control', next') := RunFunc(m, v.f, Entry(v.g), st, n), RunFunc(m, After(v), Entry(v.g), st, n);
            control == control' && next.mem == next'.mem && (control.AtBlock? ==> AgreeAtStart(v, m, control.b, next, next'))
  {
    if n == 0 {
      EntryIsOutside(v.g, v.l, v.e);
    } else {
      RunsAgree(v, m, st, n - 1);
      var (control, before) := RunFunc(m, v.f, Entry(v.g), st, n - 1);
      var (_, before') := RunFunc(m, After(v), Entry(v.g), st, n - 1);
      if control.AtBlock? { RunBlockAgrees(v, m, control.b, before, before'); }
    }
  }

  /** Moving a loop-invariant instruction out of a loop keeps the meaning of the function. */
  lemma HoistKeepsMeaning(g: Cfg, f: SsaFunc, l: Loop, e: nat, b: nat, i: nat)
    requires Hoistable(g, f, l, e, b, i)
    ensures SameMeaning(f, Hoist(f, b, i, e), Entry(g))
  {
    HoistableCanMove(g, f, l, e, b, i);
    var v := Move(g, f, l, e, b, i);
    forall m, st, n: nat
      ensures SameRun(f, Hoist(f, b, i, e), Entry(g), m, st, n)
    {
      RunsAgree(v, m, st, n);
    }
  }

  /** In every iteration the instruction would compute the value it computed once, before the loop. */
  lemma HoistedValueIsCurrent(g: Cfg, f: SsaFunc, l: Loop, e: nat, b: nat, i: nat, m: SsaMachine, st: SsaState, n: nat)
    requires Hoistable(g, f, l, e, b, i)
    ensures var moved := f.blocks[b].instrs[i];
            var (control, now) := RunFunc(m, Hoist(f, b, i, e), Entry(g), st, n);
            control.AtBlock? && control.b in l.body && moved.dest.Some? ==>
              Read(now.regs, moved.dest.value) == m.pure(moved.opcode, ValuesOf(now.regs, moved.operands))
  {
    HoistableCanMove(g, f, l, e, b, i);
    RunsAgree(Move(g, f, l, e, b, i), m, st, n);
  }
}
