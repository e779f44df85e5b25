/**
  Instructions that update a register in place of which nobody reads the result (src/banjo/codegen/liveness.cpp:45-85: such
  an operand does not make the register live into the block): when they do no harm, and what they do otherwise.
 */
module StaleReads {
  import opened RegAllocFunc
  import opened LivenessSpec
  import opened LiveRanges
  import opened FuncRanges
  import opened Bundles
  import opened Worklist
  import opened AllocContext
  import opened Spills
  import opened Rewrite
  import opened Machine
  import opened Placement
  import opened PlacementSound
  import L = Limits
  import P = RegAllocPass

  // ---- Exactly when they are harmless on every machine ----

  ghost predicate NoStaleReads(f: Func) {
    forall b, i | 0 <= b < |f.blocks| && Reachable(f, b) && 0 <= i < |f.blocks[b].instrs| :: !ReadsStale(f, b, i)
  }

  /** All instructions change the environment, as those that set flags do. */
  function Noisy(): Machine {
    Machine((id, inputs, env) => Effect([], map[0 := if 0 in env then env[0] + 1 else 0]), (b, env) => 0)
  }

  lemma NoisyIsNotNeutral(id: nat)
    ensures !EnvNeutral(Noisy(), id)
  {
    assert Noisy().exec(id, [], map[]).env != map[];
  }

  /** Whatever instructions compute, exactly if no reachable instruction reads a register whose value was not kept. */
  lemma HarmlessIff(f: Func)
    ensures (forall m :: StaleReadsHarmless(f, m)) <==> NoStaleReads(f)
  {
    if !NoStaleReads(f) {
      var b, i :| 0 <= b < |f.blocks| && Reachable(f, b) && 0 <= i < |f.blocks[b].instrs| && ReadsStale(f, b, i);
      NoisyIsNotNeutral(f.blocks[b].instrs[i].id);
      assert !StaleReadsHarmless(f, Noisy());
    }
  }

  // ---- A subtraction that is only made for its flags ----

  /** `v` is computed, and so is something else in register 0; then `v` is updated, nobody reads it any more. */
  function Subtraction(v: VirtualReg): Func {
    Func([Block([Instr(0, [RegOp(Virtual(v), Def)]), Instr(1, [RegOp(Physical(0), Def)])], [1]),
          Block([Instr(2, [RegOp(Virtual(v), UseDef)])], [])])
  }

  function Setup(v: VirtualReg): Fixed {
    Fixed(Subtraction(v), [[ReservedSegment(0, LiveRange(0, Point(1, 1), Point(1, 1)))], []], L.OneRegister())
  }

  function BothParts(v: VirtualReg): Bundle {
    Bundle([Segment(v, LiveRange(0, Point(0, 1), Point(0, 1))), Segment(v, LiveRange(1, Point(0, 0), Point(0, 1)))], 0)
  }

  lemma NowhereLive(f: Func, r: Reg, b: nat)
    requires b < |f.blocks| && forall k | 0 <= k < |f.blocks| :: !ExposedUse(f.blocks[k], r)
    ensures r !in LiveIns(f, b) && r !in LiveOuts(f, b)
  {
    forall c: nat
      ensures !PathLive(f, c, r)
    {
      if PathLive(f, c, r) {
        var p :| LivePath(f, p, r) && p[0] == c;
        ExposedUseIsBlockUse(f.blocks[p[|p| - 1]], r);
        assert false;
      }
    }
  }

  lemma DeadInSubtraction(v: VirtualReg, r: Reg, b: nat)
    requires b < 2
    ensures r !in LiveIns(Subtraction(v), b) && r !in LiveOuts(Subtraction(v), b)
  {
    var f := Subtraction(v);
    forall k | 0 <= k < |f.blocks|
      ensures !ExposedUse(f.blocks[k], r)
    {
    }
    NowhereLive(f, r, b);
  }

  lemma RangesOfSubtraction(v: VirtualReg, r: Reg)
    ensures RangesOf(Subtraction(v), r) ==
            if r == Virtual(v) then [LiveRange(0, Point(0, 1), Point(0, 1)), LiveRange(1, Point(0, 0), Point(0, 1))]
            else if r == Physical(0) then [LiveRange(0, Point(1, 1), Point(1, 1))] else []
  {
    var f, none := Subtraction(v), RegScan([], false);
    var first, second := f.blocks[0].instrs, f.blocks[1].instrs;
    DeadInSubtraction(v, r, 0);
    DeadInSubtraction(v, r, 1);
    var taken := RegScan([LiveRange(0, Point(1, 1), Point(1, 1))], false);
    assert ScanInstrs(0, first, r, false, 2) == none;
    assert ScanOps(none, 0, 1, first[1].regs, r, 1) == if r == Physical(0) then taken else none;
    var later := ScanInstrs(0, first, r, false, 1);
    assert later == if r == Physical(0) then taken else none;
    assert ScanOps(later, 0, 0, first[0].regs, r, 1) ==
           if r == Virtual(v) then RegScan([LiveRange(0, Point(0, 1), Point(0, 1))], false) else later;
    assert ScanInstrs(1, second, r, false, 1) == none;
    assert ScanOps(none, 1, 0, second[0].regs, r, 1) ==
           if r == Virtual(v) then RegScan([LiveRange(1, Point(0, 0), Point(0, 1))], true) else none;
    assert RangesUpTo(f, r, 0) == [];
    assert RangesUpTo(f, r, 1) == [] + ScanInstrs(0, first, r, false, 0).ranges;
    assert RangesUpTo(f, r, 2) == RangesUpTo(f, r, 1) + ScanInstrs(1, second, r, false, 0).ranges;
  }

  lemma ReservedIsGenuineAt(v: VirtualReg, b: nat, s: ReservedSegment)
    ensures P.ReservedExactly(Setup(v), b, s)
  {
    RangesOfSubtraction(v, Physical(s.reg));
  }

  lemma InitialIsGenuine(v: VirtualReg)
    ensures InitialBundles(Subtraction(v), L.OneRegister().regClasses, [BothParts(v)])
  {
    var f, x := Subtraction(v), BothParts(v);
    assert GoodBundle(x, L.OneRegister().regClasses) && InFunc(f, x);
    assert SegmentsOf([x]) == multiset(x.segments) + SegmentsOf([]);
    forall s
      ensures s in SegmentsOf([x]) <==> s.range in RangesOf(f, Virtual(s.reg))
    {
      RangesOfSubtraction(v, Virtual(s.reg));
    }
  }

  lemma SetupIsGenuine(v: VirtualReg)
    ensures P.ReservedIs(Setup(v)) && InitialBundles(Subtraction(v), L.OneRegister().regClasses, [BothParts(v)])
  {
    InitialIsGenuine(v);
    forall b: nat, s
      ensures P.ReservedExactly(Setup(v), b, s)
    {
      ReservedIsGenuineAt(v, b, s);
    }
  }

  // ---- Both parts get the only register ----

  function Finished(v: VirtualReg): seq<Alloc> {
    [Alloc(0, BothParts(v))]
  }

  lemma BothPartsFit(v: VirtualReg)
    ensures StepAt(Setup(v), Ctx([BothParts(v)], [], 0), 0) == Ctx([], Finished(v), 0)
  {
    var fx, x := Setup(v), BothParts(v);
    assert AllocPossible(fx, [], x, 0);
    assert fx.analyzer.suggest(x.segments) == [] && fx.analyzer.candidates(x.regClass) == [0];
    assert ChosenReg(fx, [], x) == Some(0);
    StepAtIs(fx, Ctx([x], [], 0), 0);
    assert Remove([x], 0) == [] && [] + [Alloc(0, x)] == Finished(v);
  }

  lemma FinishedIsReached(v: VirtualReg)
    ensures ReachableCtx(Setup(v), Ctx([BothParts(v)], [], 0), Ctx([], Finished(v), 0))
  {
    var s0, s := Ctx([BothParts(v)], [], 0), Ctx([], Finished(v), 0);
    BothPartsFit(v);
    assert Step(Setup(v), s0, s);
    ReachableAtOnce(Setup(v), s0);
    ReachableNext(Setup(v), s0, s0, s);
  }

  lemma OperandsAreFine(v: VirtualReg)
    ensures ValidFunc(Subtraction(v)) && VirtualsPlain(Subtraction(v)) && forall w :: AllWrittenOnce(Subtraction(v), w)
  {
    WrittenOnceIsPlain(Subtraction(v));
  }

  lemma VirtualsAreCovered(v: VirtualReg)
    ensures VirtualsCovered(Subtraction(v))
  {
    forall b: nat, w
      ensures VirtualCovered(Subtraction(v), b, w)
    {
    }
  }

  lemma PhysicalsAreCovered(v: VirtualReg)
    ensures PhysicalsCovered(Subtraction(v))
  {
    var f := Subtraction(v);
    forall b: nat, i: nat, p | b < |f.blocks| && i < |f.blocks[b].instrs|
      ensures PhysicalCovered(f, b, i, p)
    {
      PlainPhysicalIsCovered(f, b, i, p);
    }
  }

  /** What else the main theorem asks of the function is so. */
  lemma OtherwiseFine(v: VirtualReg)
    ensures ValidFunc(Subtraction(v)) && VirtualsPlain(Subtraction(v)) && forall w :: AllWrittenOnce(Subtraction(v), w)
    ensures InputCovered(Subtraction(v)) && P.NoVirtualLiveIn(Subtraction(v))
  {
    OperandsAreFine(v);
    VirtualsAreCovered(v);
    PhysicalsAreCovered(v);
    forall w
      ensures Virtual(w) !in LiveIns(Subtraction(v), 0)
    {
      DeadInSubtraction(v, Virtual(w), 0);
    }
  }

  // ---- The flags differ ----

  /** The subtraction tells by the environment what it has read. */
  function Flags(): Machine {
    Machine((id, inputs, env) =>
      Effect([id + 1], if id == 2 && |inputs| > 0 then map[0 := inputs[0]] else env), (b, env) => 0)
  }

  function Subtracting(v: VirtualReg): Code {
    [[RInstr(0, [], [RegOp(Physical(0), Def)], [], false), RInstr(1, [], [RegOp(Physical(0), Def)], [], false)],
     [RInstr(2, [], [RegOp(Physical(0), UseDef)], [], false)]]
  }

  lemma AppliedHere(v: VirtualReg, b: nat, i: nat, op: RegOp)
    requires op.reg == Virtual(v) || op.reg == Physical(0)
    requires op.reg == Virtual(v) ==> i == 0 && b < 2
    ensures Rewritten(Finished(v), 1, b, i, Instr(2 * b + i, [op])) == RInstr(2 * b + i, [], [RegOp(Physical(0), op.usage)], [], false)
  {
    var a, x := Alloc(0, BothParts(v)), Untouched(Instr(2 * b + i, [op]));
    assert Rewritten(Finished(v), 0, b, i, Instr(2 * b + i, [op])) == x;
    assert a.bundle.segments[0].reg == v && a.bundle.segments[1].reg == v;
    assert Applied(a, b, i, x).regs == [RegOp(Physical(0), op.usage)];
    assert [] + [] == LoadOf(a, b, i);
  }

  lemma CodeIsFinal(v: VirtualReg)
    ensures FinalCode(Subtraction(v), Finished(v), (id, ops) => false, Subtracting(v))
  {
    AppliedHere(v, 0, 0, RegOp(Virtual(v), Def));
    AppliedHere(v, 0, 1, RegOp(Physical(0), Def));
    AppliedHere(v, 1, 0, RegOp(Virtual(v), UseDef));
  }

  lemma Computes(id: nat, r: Reg, st: VState)
    requires id < 2
    ensures VExec(Flags(), Instr(id, [RegOp(r, Def)]), st) == VState(st.regs[r := id + 1], st.env)
  {
    var ops := [RegOp(r, Def)];
    var outs := Flags().exec(id, Inputs(st.regs, ops), st.env).outs;
    assert WriteOuts(st.regs, ops, outs, 0) == st.regs;
    assert WriteOuts(st.regs, ops, outs, 1) == st.regs[r := Out(outs, 0)];
  }

  lemma Subtracts(r: Reg, st: VState)
    ensures VExec(Flags(), Instr(2, [RegOp(r, UseDef)]), st).env == map[0 := Get(st.regs, r)]
  {
    var ops := [RegOp(r, UseDef)];
    assert ops[..0] == [] && Inputs(st.regs, ops) == [] + [Get(st.regs, r)];
  }

  lemma FirstStepBefore(v: VirtualReg, st: VState)
    ensures VRun(Subtraction(v), Flags(), st, 1) == (At(0, 1), VState(st.regs[Virtual(v) := 1], st.env))
  {
    Computes(0, Virtual(v), st);
    assert VRun(Subtraction(v), Flags(), st, 0) == (At(0, 0), st);
  }

  lemma SecondStepBefore(v: VirtualReg, st: VState)
    ensures VRun(Subtraction(v), Flags(), st, 2) == (At(0, 2), VState(st.regs[Virtual(v) := 1][Physical(0) := 2], st.env))
  {
    FirstStepBefore(v, st);
    Computes(1, Physical(0), VState(st.regs[Virtual(v) := 1], st.env));
  }

  lemma StepsBefore(v: VirtualReg, st: VState)
    ensures VRun(Subtraction(v), Flags(), st, 3) == (At(1, 0), VState(st.regs[Virtual(v) := 1][Physical(0) := 2], st.env))
  {
    SecondStepBefore(v, st);
  }

  lemma BeforeReads(v: VirtualReg, st: VState)
    ensures VRun(Subtraction(v), Flags(), st, 4).1.env == map[0 := 1]
  {
    StepsBefore(v, st);
    Subtracts(Virtual(v), VState(st.regs[Virtual(v) := 1][Physical(0) := 2], st.env));
  }

  lemma PlainStep(id: nat, u: Usage, st: PState)
    ensures var x, core := RInstr(id, [], [RegOp(Physical(0), u)], [], false), VExec(Flags(), Instr(id, [RegOp(Physical(0), u)]), VState(st.regs, st.env));
            PExec(Flags(), x, st) == PState(core.regs, st.slots, core.env)
  {
  }

  lemma FirstStepAfter(v: VirtualReg, st: PState)
    ensures PRun(Subtraction(v), Subtracting(v), Flags(), st, 1) == (At(0, 1), PState(st.regs[Physical(0) := 1], st.slots, st.env))
  {
    Computes(0, Physical(0), VState(st.regs, st.env));
    PlainStep(0, Def, st);
    assert PRun(Subtraction(v), Subtracting(v), Flags(), st, 0) == (At(0, 0), st);
  }

  lemma StepsAfter(v: VirtualReg, st: PState)
    ensures Shaped(Subtraction(v), Subtracting(v))
    ensures PRun(Subtraction(v), Subtracting(v), Flags(), st, 3)
         == (At(1, 0), PState(st.regs[Physical(0) := 1][Physical(0) := 2], st.slots, st.env))
  {
    var f, code, m := Subtraction(v), Subtracting(v), Flags();
    var mid := PState(st.regs[Physical(0) := 1], st.slots, st.env);
    FirstStepAfter(v, st);
    Computes(1, Physical(0), VState(mid.regs, st.env));
    PlainStep(1, Def, mid);
    assert PRun(f, code, m, st, 2) == (At(0, 2), PState(mid.regs[Physical(0) := 2], st.slots, st.env));
  }

  lemma AfterReads(v: VirtualReg, st: PState)
    ensures Shaped(Subtraction(v), Subtracting(v))
    ensures PRun(Subtraction(v), Subtracting(v), Flags(), st, 4).1.env == map[0 := 2]
  {
    var last := PState(st.regs[Physical(0) := 1][Physical(0) := 2], st.slots, st.env);
    StepsAfter(v, st);
    Subtracts(Physical(0), VState(last.regs, last.env));
    PlainStep(2, UseDef, last);
  }

  /** The subtraction reads another value than before allocation, from whatever state, and its flags tell. */
  lemma SubtractionIsSpoiled(v: VirtualReg, before: VState, after: PState)
    ensures P.ReservedIs(Setup(v)) && InitialBundles(Subtraction(v), L.OneRegister().regClasses, [BothParts(v)])
    ensures ReachableCtx(Setup(v), Ctx([BothParts(v)], [], 0), Ctx([], Finished(v), 0))
    ensures FinalCode(Subtraction(v), Finished(v), (id, ops) => false, Subtracting(v))
    ensures ValidFunc(Subtraction(v)) &&
            VRun(Subtraction(v), Flags(), before, 4).1.env != PRun(Subtraction(v), Subtracting(v), Flags(), after, 4).1.env
  {
    SetupIsGenuine(v);
    FinishedIsReached(v);
    CodeIsFinal(v);
    OtherwiseFine(v);
    BeforeReads(v, before);
    AfterReads(v, after);
    assert map[0 := 1][0] != map[0 := 2][0];
  }
}
