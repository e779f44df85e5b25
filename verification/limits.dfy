/** Inputs on which the allocator falls short, and what goes wrong: the hypotheses of the main theorem are needed. */
module Limits {
  import opened RegAllocFunc
  import opened LivenessSpec
  import opened LiveRanges
  import opened FuncRanges
  import opened Bundles
  import opened Worklist
  import opened AllocContext
  import opened Spills
  import opened Rewrite
  import opened Machine
  import opened Placement
  import opened WorklistEnds
  import P = RegAllocPass

  // ---- Dead in-place updates ----

  function DeadUpdates(r: Reg): Func {
    Func([Block([Instr(0, [RegOp(r, UseDef)]), Instr(1, [RegOp(r, UseDef)])], [])])
  }

  lemma NoUseNoLiveIn(f: Func, r: Reg)
    requires |f.blocks| == 1 && f.blocks[0].succs == []
    requires !ExposedUse(f.blocks[0], r)
    ensures r !in LiveIns(f, 0) && r !in LiveOuts(f, 0)
  {
    ExposedUseIsBlockUse(f.blocks[0], r);
    PathLiveUnfold(f, 0, r);
  }

  /** Two updates of a register nobody reads afterwards: the first one lies in no live range, and keeps its operand. */
  lemma DeadUpdatesAreNotCovered(v: VirtualReg)
    ensures !OperandsCovered(DeadUpdates(Virtual(v)), 0, Virtual(v))
  {
    var f, r := DeadUpdates(Virtual(v)), Virtual(v);
    assert !ExposedUse(f.blocks[0], r);
    NoUseNoLiveIn(f, r);
    var instrs := f.blocks[0].instrs;
    assert instrs[0].regs[0] == RegOp(r, UseDef) && instrs[1].regs[0] == RegOp(r, UseDef);
    assert ReadsReg(instrs[0], r) && ReadsReg(instrs[1], r) && NoDefBefore(instrs, r, 1);
    OperandsCoveredIff(f, 0, r);
  }

  // ---- Results of calls ----

  /** A call that clobbers `p` and returns a result in it, another instruction, and the read of the result. */
  function LateResult(p: PhysicalReg): Func {
    Func([Block([Instr(0, [RegOp(Physical(p), Kill), RegOp(Physical(p), Def)]),
                 Instr(1, []),
                 Instr(2, [RegOp(Physical(p), Use)])], [])])
  }

  lemma LateResultRanges(p: PhysicalReg)
    ensures RangesOf(LateResult(p), Physical(p)) ==
            [LiveRange(0, Point(2, 0), Point(2, 0)), LiveRange(0, Point(0, 1), Point(0, 1))]
  {
    var f, r := LateResult(p), Physical(p);
    var instrs := f.blocks[0].instrs;
    assert IsOp(f.blocks[0], r, Def, 0, 1);
    assert !ExposedUse(f.blocks[0], r);
    NoUseNoLiveIn(f, r);
    var use, def := LiveRange(0, Point(2, 0), Point(2, 0)), LiveRange(0, Point(0, 1), Point(0, 1));
    assert ScanInstrs(0, instrs, r, false, 3) == RegScan([], false);
    assert ScanOps(RegScan([], false), 0, 2, instrs[2].regs, r, 1) == RegScan([use], true);
    assert ScanInstrs(0, instrs, r, false, 2) == RegScan([use], true);
    assert ScanInstrs(0, instrs, r, false, 1) == RegScan([use], true);
    assert ScanOps(RegScan([use], true), 0, 0, instrs[0].regs, r, 1) == RegScan([use], false);
    assert ScanOps(RegScan([use], true), 0, 0, instrs[0].regs, r, 2) == RegScan([use, def], false);
    assert ScanInstrs(0, instrs, r, false, 0) == RegScan([use, def], false);
    assert RangesUpTo(f, r, 0) == [];
    assert RangesUpTo(f, r, 1) == [] + [use, def];
  }

  /** KILL ends liveness without starting the range, so between the call and the read nothing protects the result. */
  lemma LateResultIsNotCovered(p: PhysicalReg)
    ensures Tracked(LateResult(p), 0, 1, Physical(p)) && !PhysicalCovered(LateResult(p), 0, 1, p)
  {
    var f, r := LateResult(p), Physical(p);
    var instrs := f.blocks[0].instrs;
    LateResultRanges(p);
    assert instrs[2].regs[0] == RegOp(r, Use) && ReadsReg(instrs[2], r);
    assert LiveBefore(instrs, r, r in LiveOuts(f, 0), 2);
    assert LiveBefore(instrs, r, r in LiveOuts(f, 0), 1);
    assert instrs[0].regs[1] == RegOp(r, Def) && ResetsReg(instrs[0], r);
  }

  // ---- Arguments of calls ----

  /** An argument is moved to `p`; after another instruction a call clobbers `p`, reads it and returns a result in it. */
  function EarlyArgument(p: PhysicalReg): Func {
    Func([Block([Instr(0, [RegOp(Physical(p), Def)]),
                 Instr(1, []),
                 Instr(2, [RegOp(Physical(p), Kill), RegOp(Physical(p), Use), RegOp(Physical(p), Def)]),
                 Instr(3, [RegOp(Physical(p), Use)])], [])])
  }

  /** The call's own result ends the range of its argument, which then starts after it ends. */
  lemma EarlyArgumentRanges(p: PhysicalReg)
    ensures RangesOf(EarlyArgument(p), Physical(p)) ==
            [LiveRange(0, Point(3, 0), Point(3, 0)), LiveRange(0, Point(2, 1), Point(2, 0)), LiveRange(0, Point(0, 1), Point(0, 1))]
  {
    var f, r := EarlyArgument(p), Physical(p);
    var instrs := f.blocks[0].instrs;
    assert IsOp(f.blocks[0], r, Def, 0, 0);
    assert !ExposedUse(f.blocks[0], r);
    NoUseNoLiveIn(f, r);
    var use, call, def := LiveRange(0, Point(3, 0), Point(3, 0)), LiveRange(0, Point(2, 0), Point(2, 0)), LiveRange(0, Point(0, 1), Point(0, 1));
    var inverted := call.(start := Point(2, 1));
    assert ScanInstrs(0, instrs, r, false, 4) == RegScan([], false);
    assert ScanOps(RegScan([], false), 0, 3, instrs[3].regs, r, 1) == RegScan([use], true);
    assert ScanInstrs(0, instrs, r, false, 3) == RegScan([use], true);
    assert ScanOps(RegScan([use], true), 0, 2, instrs[2].regs, r, 1) == RegScan([use], false);
    assert ScanOps(RegScan([use], true), 0, 2, instrs[2].regs, r, 2) == RegScan([use, call], true);
    assert ScanOps(RegScan([use], true), 0, 2, instrs[2].regs, r, 3) == RegScan([use, inverted], false);
    assert ScanInstrs(0, instrs, r, false, 2) == RegScan([use, inverted], false);
    assert ScanInstrs(0, instrs, r, false, 1) == RegScan([use, inverted], false);
    assert ScanOps(RegScan([use, inverted], false), 0, 0, instrs[0].regs, r, 1) == RegScan([use, inverted, def], false);
    assert ScanInstrs(0, instrs, r, false, 0) == RegScan([use, inverted, def], false);
    assert RangesUpTo(f, r, 0) == [];
    assert RangesUpTo(f, r, 1) == [] + [use, inverted, def];
  }

  /** So nothing protects the argument on its way to the call. */
  lemma EarlyArgumentIsNotCovered(p: PhysicalReg)
    ensures Tracked(EarlyArgument(p), 0, 1, Physical(p)) && !PhysicalCovered(EarlyArgument(p), 0, 1, p)
    ensures Tracked(EarlyArgument(p), 0, 2, Physical(p)) && !PhysicalCovered(EarlyArgument(p), 0, 2, p)
  {
    var f, r := EarlyArgument(p), Physical(p);
    var instrs := f.blocks[0].instrs;
    EarlyArgumentRanges(p);
    assert instrs[2].regs[1] == RegOp(r, Use) && ReadsReg(instrs[2], r);
    assert LiveBefore(instrs, r, r in LiveOuts(f, 0), 2);
    assert LiveBefore(instrs, r, r in LiveOuts(f, 0), 1);
    assert instrs[0].regs[0] == RegOp(r, Def) && ResetsReg(instrs[0], r);
  }

  // ---- A register updated and read by one instruction ----

  /**
    `v` is defined, both registers are needed for something else, an instruction updates `v` in place and reads it, and
    the result is used.
   */
  function UpdateAndUse(v: VirtualReg): Func {
    Func([Block([Instr(0, [RegOp(Virtual(v), Def)]),
                 Instr(1, [RegOp(Physical(0), Def), RegOp(Physical(1), Def)]),
                 Instr(2, [RegOp(Virtual(v), UseDef), RegOp(Virtual(v), Use)]),
                 Instr(3, [RegOp(Virtual(v), Use)])], [])])
  }

  function TwoRegisters(): Analyzer {
    Analyzer(c => [0, 1], segments => [], v => 0, (instr, v) => false)
  }

  function BothTaken(): seq<seq<ReservedSegment>> {
    var here := LiveRange(0, Point(1, 1), Point(1, 1));
    [[ReservedSegment(0, here), ReservedSegment(1, here)]]
  }

  function Setup(v: VirtualReg): Fixed {
    Fixed(UpdateAndUse(v), BothTaken(), TwoRegisters())
  }

  function WholeRange(v: VirtualReg): Bundle {
    Bundle([Segment(v, LiveRange(0, Point(0, 1), Point(3, 0)))], 0)
  }

  function BornAt(v: VirtualReg, i: nat, u: Usage): Bundle
    requires u != Kill
  {
    BornBundle(0, i, v, u, 0, 0)
  }

  lemma NotLiveAround(v: VirtualReg, r: Reg)
    ensures r !in LiveIns(UpdateAndUse(v), 0) && r !in LiveOuts(UpdateAndUse(v), 0)
  {
    var f := UpdateAndUse(v);
    assert IsOp(f.blocks[0], Virtual(v), Def, 0, 0);
    assert !ExposedUse(f.blocks[0], r);
    NoUseNoLiveIn(f, r);
  }

  lemma RangesOfUpdated(v: VirtualReg)
    ensures RangesOf(UpdateAndUse(v), Virtual(v)) == [LiveRange(0, Point(0, 1), Point(3, 0))]
  {
    var f, r := UpdateAndUse(v), Virtual(v);
    var instrs := f.blocks[0].instrs;
    NotLiveAround(v, r);
    var use, whole := LiveRange(0, Point(3, 0), Point(3, 0)), LiveRange(0, Point(0, 1), Point(3, 0));
    assert ScanInstrs(0, instrs, r, false, 4) == RegScan([], false);
    assert ScanOps(RegScan([], false), 0, 3, instrs[3].regs, r, 1) == RegScan([use], true);
    assert ScanInstrs(0, instrs, r, false, 3) == RegScan([use], true);
    assert ScanOps(RegScan([use], true), 0, 2, instrs[2].regs, r, 1) == RegScan([use], true);
    assert ScanOps(RegScan([use], true), 0, 2, instrs[2].regs, r, 2) == RegScan([use], true);
    assert ScanInstrs(0, instrs, r, false, 2) == RegScan([use], true);
    assert ScanOps(RegScan([use], true), 0, 1, instrs[1].regs, r, 1) == RegScan([use], true);
    assert ScanOps(RegScan([use], true), 0, 1, instrs[1].regs, r, 2) == RegScan([use], true);
    assert ScanInstrs(0, instrs, r, false, 1) == RegScan([use], true);
    assert ScanOps(RegScan([use], true), 0, 0, instrs[0].regs, r, 1) == RegScan([whole], false);
    assert ScanInstrs(0, instrs, r, false, 0) == RegScan([whole], false);
    assert RangesUpTo(f, r, 0) == [];
    assert RangesUpTo(f, r, 1) == [] + [whole];
  }

  /** Any other register is at most written by the second instruction. */
  lemma RangesOfOthers(v: VirtualReg, r: Reg)
    requires r != Virtual(v)
    ensures RangesOf(UpdateAndUse(v), r) ==
            if r == Physical(0) || r == Physical(1) then [LiveRange(0, Point(1, 1), Point(1, 1))] else []
  {
    var f := UpdateAndUse(v);
    var instrs, here := f.blocks[0].instrs, LiveRange(0, Point(1, 1), Point(1, 1));
    var none, one := RegScan([], false), if r == Physical(0) || r == Physical(1) then RegScan([here], false) else RegScan([], false);
    NotLiveAround(v, r);
    assert ScanInstrs(0, instrs, r, false, 4) == none;
    assert ScanOps(none, 0, 3, instrs[3].regs, r, 1) == none;
    assert ScanInstrs(0, instrs, r, false, 3) == none;
    assert ScanOps(none, 0, 2, instrs[2].regs, r, 1) == none && ScanOps(none, 0, 2, instrs[2].regs, r, 2) == none;
    assert ScanInstrs(0, instrs, r, false, 2) == none;
    assert ScanOps(none, 0, 1, instrs[1].regs, r, 1) == if r == Physical(0) then one else none;
    assert ScanOps(none, 0, 1, instrs[1].regs, r, 2) == one;
    assert ScanInstrs(0, instrs, r, false, 1) == one;
    assert ScanOps(one, 0, 0, instrs[0].regs, r, 1) == one;
    assert ScanInstrs(0, instrs, r, false, 0) == one;
    assert RangesUpTo(f, r, 0) == [];
    assert RangesUpTo(f, r, 1) == [] + one.ranges;
  }

  lemma NoKillPoint(v: VirtualReg, kp: KillPoint)
    ensures !IsKillPoint(UpdateAndUse(v), kp)
  {
  }

  lemma ReservedIsGenuineAt(v: VirtualReg, b: nat, s: ReservedSegment)
    ensures P.ReservedExactly(Setup(v), b, s)
  {
    RangesOfOthers(v, Physical(s.reg));
    forall kp
      ensures !IsKillPoint(UpdateAndUse(v), kp)
    {
      NoKillPoint(v, kp);
    }
  }

  lemma ReservedIsGenuine(v: VirtualReg)
    ensures P.ReservedIs(Setup(v))
  {
    forall b: nat, s
      ensures P.ReservedExactly(Setup(v), b, s)
    {
      ReservedIsGenuineAt(v, b, s);
    }
  }

  /** What allocation starts from is what liveness analysis and coalescing leave behind. */
  lemma SetupIsGenuine(v: VirtualReg)
    ensures ValidFunc(UpdateAndUse(v)) && P.ReservedIs(Setup(v))
    ensures InitialBundles(UpdateAndUse(v), TwoRegisters().regClasses, [WholeRange(v)])
  {
    var f, x := UpdateAndUse(v), WholeRange(v);
    ReservedIsGenuine(v);
    assert SegmentsOf([x]) == multiset(x.segments) + SegmentsOf([]);
    forall s
      ensures s in SegmentsOf([x]) <==> s.range in RangesOf(f, Virtual(s.reg))
    {
      if s.reg == v { RangesOfUpdated(v); } else { RangesOfOthers(v, Virtual(s.reg)); }
    }
  }

  // ---- A run of the worklist ----

  /** The contexts of the run: the spill, and then the bundle of the USE before that of the USE_DEF. */
  function Contexts(v: VirtualReg): seq<Ctx> {
    var def, update, use, last := BornAt(v, 0, Def), BornAt(v, 2, UseDef), BornAt(v, 2, Use), BornAt(v, 3, Use);
    [Ctx([WholeRange(v)], [], 0),
     Ctx([def, update, use, last], [], 1),
     Ctx([def, update, last], [Alloc(0, use)], 1),
     Ctx([def, last], [Alloc(0, use), Alloc(1, update)], 1),
     Ctx([last], [Alloc(0, use), Alloc(1, update), Alloc(0, def)], 1),
     Ctx([], [Alloc(0, use), Alloc(1, update), Alloc(0, def), Alloc(0, last)], 1)]
  }

  lemma SpillStep(v: VirtualReg)
    ensures StepAt(Setup(v), Contexts(v)[0], 0) == Contexts(v)[1]
  {
    var fx, s, x := Setup(v), Contexts(v)[0], WholeRange(v);
    assert Remove(s.bundles, 0) == [];
    forall p
      ensures p == 0 || p == 1 ==> MeetsReserved(fx.reserved, x, p)
    {
      if p == 0 || p == 1 { assert x.segments[0].range.Intersects(fx.reserved[0][p].range); }
    }
    assert [0, 1][1..] == [1] && [1][1..] == [];
    assert FirstPossible(fx, [], x, [1]).None?;
    assert FirstPossible(fx, [], x, [0, 1]).None?;
    BornHere(v);
  }

  lemma BornHere(v: VirtualReg)
    ensures Born(UpdateAndUse(v), WholeRange(v), 0) == Contexts(v)[1].bundles
  {
    var f, x := UpdateAndUse(v), WholeRange(v);
    var instrs := f.blocks[0].instrs;
    var def, update, use, last := BornAt(v, 0, Def), BornAt(v, 2, UseDef), BornAt(v, 2, Use), BornAt(v, 3, Use);
    assert BornOfOps(0, 0, instrs[0].regs, v, 0, 0, 1) == [] + [def];
    assert BornOfInstrs(0, instrs, v, 0, 0, 0, 1) == [def];
    assert BornOfOps(0, 1, instrs[1].regs, v, 0, 0, 1) == [] && BornOfOps(0, 1, instrs[1].regs, v, 0, 0, 2) == [];
    assert BornOfInstrs(0, instrs, v, 0, 0, 0, 2) == [def];
    assert BornOfOps(0, 2, instrs[2].regs, v, 0, 0, 1) == [] + [update];
    assert BornOfOps(0, 2, instrs[2].regs, v, 0, 0, 2) == [update, use];
    assert BornOfInstrs(0, instrs, v, 0, 0, 0, 3) == [def, update, use];
    assert BornOfOps(0, 3, instrs[3].regs, v, 0, 0, 1) == [] + [last];
    assert BornOfInstrs(0, instrs, v, 0, 0, 0, 4) == [def, update, use, last];
    assert BornOf(f, x, 0, 0) == [];
    assert BornOf(f, x, 0, 1) == [] + [def, update, use, last];
  }

  lemma AssignStep(fx: Fixed, s: Ctx, k: nat, p: PhysicalReg)
    requires k < |s.bundles| && fx.analyzer == TwoRegisters()
    requires p == 0 || (p == 1 && !AllocPossible(fx, s.allocs, s.bundles[k], 0))
    requires AllocPossible(fx, s.allocs, s.bundles[k], p)
    ensures StepAt(fx, s, k) == Ctx(Remove(s.bundles, k), s.allocs + [Alloc(p, s.bundles[k])], s.nextSlot)
  {
    var x := s.bundles[k];
    var regs: seq<PhysicalReg> := [0, 1];
    assert fx.analyzer.suggest(x.segments) == [] && fx.analyzer.candidates(x.regClass) == regs;
    assert regs[1..] == [1];
    assert FirstPossible(fx, s.allocs, x, regs[1..]) == if AllocPossible(fx, s.allocs, x, 1) then Some(1) else FirstPossible(fx, s.allocs, x, regs[1..][1..]);
    assert ChosenReg(fx, s.allocs, x) == Some(p);
    StepAtIs(fx, s, k);
  }

  /** With room for the bundle in a register, and no reserved segment in the way. */
  lemma Free(fx: Fixed, allocs: seq<Alloc>, x: Bundle, p: PhysicalReg, i: nat)
    requires fx.reserved == BothTaken() && |x.segments| == 1 && i != 1
    requires x.segments[0].range.start.instr == x.segments[0].range.end.instr == i && x.segments[0].range.WellFormed()
    ensures !MeetsReserved(fx.reserved, x, p)
  {
  }

  lemma UseStep(v: VirtualReg)
    ensures StepAt(Setup(v), Contexts(v)[1], 2) == Contexts(v)[2]
  {
    var fx, s, s' := Setup(v), Contexts(v)[1], Contexts(v)[2];
    Free(fx, s.allocs, s.bundles[2], 0, 2);
    AssignStep(fx, s, 2, 0);
    assert Remove(s.bundles, 2) == s'.bundles;
  }

  lemma UpdateStep(v: VirtualReg)
    ensures StepAt(Setup(v), Contexts(v)[2], 1) == Contexts(v)[3]
  {
    var fx, s, s' := Setup(v), Contexts(v)[2], Contexts(v)[3];
    Free(fx, s.allocs, s.bundles[1], 1, 2);
    assert s.allocs[0].bundle.segments[0].range.Intersects(s.bundles[1].segments[0].range);
    assert Clash(s.allocs[0].bundle, s.bundles[1]);
    AssignStep(fx, s, 1, 1);
    assert Remove(s.bundles, 1) == s'.bundles;
  }

  lemma DefStep(v: VirtualReg)
    ensures StepAt(Setup(v), Contexts(v)[3], 0) == Contexts(v)[4]
  {
    var fx, s, s' := Setup(v), Contexts(v)[3], Contexts(v)[4];
    Free(fx, s.allocs, s.bundles[0], 0, 0);
    AssignStep(fx, s, 0, 0);
    assert Remove(s.bundles, 0) == s'.bundles;
  }

  lemma LastStep(v: VirtualReg)
    ensures StepAt(Setup(v), Contexts(v)[4], 0) == Contexts(v)[5]
  {
    var fx, s, s' := Setup(v), Contexts(v)[4], Contexts(v)[5];
    Free(fx, s.allocs, s.bundles[0], 0, 3);
    AssignStep(fx, s, 0, 0);
    assert Remove(s.bundles, 0) == s'.bundles;
  }

  function Popped(k: nat): nat {
    if k == 1 then 2 else if k == 2 then 1 else 0
  }

  lemma NextContext(v: VirtualReg, k: nat)
    requires k < 5
    ensures Popped(k) < |Contexts(v)[k].bundles| && Contexts(v)[k + 1] == StepAt(Setup(v), Contexts(v)[k], Popped(k))
  {
    if k == 0 {
      SpillStep(v);
    } else if k == 1 {
      UseStep(v);
    } else if k == 2 {
      UpdateStep(v);
    } else if k == 3 {
      DefStep(v);
    } else {
      LastStep(v);
    }
  }

  lemma RunIsGenuine(v: VirtualReg)
    ensures Run(Setup(v), Contexts(v))
  {
    forall k | 0 <= k < |Contexts(v)| - 1
      ensures Step(Setup(v), Contexts(v)[k], Contexts(v)[k + 1])
    {
      NextContext(v, k);
    }
  }

  // ---- What becomes of the update ----

  function Finished(v: VirtualReg): seq<Alloc> {
    Contexts(v)[5].allocs
  }

  function Lost(): RInstr {
    RInstr(2, [SlotMove(0, 0), SlotMove(1, 0)], [RegOp(Physical(0), UseDef), RegOp(Physical(0), Use)], [SlotMove(1, 0)], false)
  }

  lemma UseApplied(v: VirtualReg)
    ensures Applied(Alloc(0, BornAt(v, 2, Use)), 0, 2, Untouched(UpdateAndUse(v).blocks[0].instrs[2])) ==
            RInstr(2, [SlotMove(0, 0)], [RegOp(Physical(0), UseDef), RegOp(Physical(0), Use)], [], false)
  {
    var a, instr := Alloc(0, BornAt(v, 2, Use)), UpdateAndUse(v).blocks[0].instrs[2];
    assert a.bundle.segments[0].reg == v && a.bundle.segments[0].range.Spans(0, 2);
    var x := Applied(a, 0, 2, Untouched(instr));
    assert x.regs == [RegOp(Physical(0), UseDef), RegOp(Physical(0), Use)] && x.loads == [] + [SlotMove(0, 0)];
  }

  lemma UpdateApplied(v: VirtualReg)
    ensures Applied(Alloc(1, BornAt(v, 2, UseDef)), 0, 2,
                    RInstr(2, [SlotMove(0, 0)], [RegOp(Physical(0), UseDef), RegOp(Physical(0), Use)], [], false)) == Lost()
  {
    var start := RInstr(2, [SlotMove(0, 0)], [RegOp(Physical(0), UseDef), RegOp(Physical(0), Use)], [], false);
    var x := Applied(Alloc(1, BornAt(v, 2, UseDef)), 0, 2, start);
    assert x.regs == start.regs && x.loads == start.loads + [SlotMove(1, 0)] && x.stores == [SlotMove(1, 0)] + [];
  }

  lemma OthersApplied(v: VirtualReg, i: nat, u: Usage)
    requires i != 2 && u != Kill
    ensures Applied(Alloc(0, BornAt(v, i, u)), 0, 2, Lost()) == Lost()
  {
    var x := Applied(Alloc(0, BornAt(v, i, u)), 0, 2, Lost());
    assert x.regs == Lost().regs && x.loads == Lost().loads + [] && x.stores == [] + Lost().stores;
  }

  lemma UpdateIsRewritten(v: VirtualReg)
    ensures Rewritten(Finished(v), 4, 0, 2, UpdateAndUse(v).blocks[0].instrs[2]) == Lost()
  {
    var allocs, instr := Finished(v), UpdateAndUse(v).blocks[0].instrs[2];
    UseApplied(v);
    UpdateApplied(v);
    OthersApplied(v, 0, Def);
    OthersApplied(v, 3, Use);
    assert Rewritten(allocs, 0, 0, 2, instr) == Untouched(instr);
    assert Rewritten(allocs, 1, 0, 2, instr) == Applied(allocs[0], 0, 2, Untouched(instr));
    assert Rewritten(allocs, 2, 0, 2, instr) == Lost();
    assert Rewritten(allocs, 3, 0, 2, instr) == Lost();
  }

  lemma LostMissesSlot(m: Machine, st: PState)
    ensures GetSlot(PExec(m, Lost(), st).slots, 0) == GetSlot(st.slots, 0)
  {
    var x := Lost();
    var loaded := RunLoads(st.regs, st.slots, x.loads, 2);
    assert Get(loaded, Physical(1)) == GetSlot(st.slots, 0);
    var outs := m.exec(2, Inputs(loaded, x.regs), st.env).outs;
    assert WriteOuts(loaded, x.regs, outs, 0) == loaded;
    assert WriteOuts(loaded, x.regs, outs, 1) == loaded[Physical(0) := Out(outs, 0)];
    assert WriteOuts(loaded, x.regs, outs, 2) == WriteOuts(loaded, x.regs, outs, 1);
    var core := PCore(m, x, loaded, st.env);
    assert Get(core.regs, Physical(1)) == GetSlot(st.slots, 0);
    assert RunStores(st.slots, core.regs, x.stores, 0) == st.slots;
    assert RunStores(st.slots, core.regs, x.stores, 1) == st.slots[0 := Get(core.regs, Physical(1))];
  }

  lemma FinishedIsReachable(v: VirtualReg)
    ensures ReachableCtx(Setup(v), Contexts(v)[0], Contexts(v)[5]) && Contexts(v)[5].bundles == []
  {
    RunIsGenuine(v);
  }

  /** The slot keeps its old value, whatever the instruction computes, and the next one reads it from there. */
  lemma SpilledUpdateIsLost(v: VirtualReg, m: Machine, st: PState)
    ensures P.ReservedIs(Setup(v)) && InitialBundles(UpdateAndUse(v), TwoRegisters().regClasses, Contexts(v)[0].bundles)
    ensures ReachableCtx(Setup(v), Contexts(v)[0], Contexts(v)[5]) && Contexts(v)[5].bundles == []
    ensures var x := Rewritten(Finished(v), 4, 0, 2, UpdateAndUse(v).blocks[0].instrs[2]);
            GetSlot(PExec(m, x, st).slots, 0) == GetSlot(st.slots, 0)
    ensures LoadsHere(Finished(v)[3], 0, 3) && Finished(v)[3].bundle.srcStackSlot == Some(0)
  {
    SetupIsGenuine(v);
    FinishedIsReachable(v);
    UpdateIsRewritten(v);
    LostMissesSlot(m, st);
  }

  // ---- No room for spill code ----

  /** The only register is taken while `v` is read. */
  function NoRoom(v: VirtualReg): Func {
    Func([Block([Instr(0, [RegOp(Virtual(v), Def)]),
                 Instr(1, [RegOp(Physical(0), Def)]),
                 Instr(2, [RegOp(Virtual(v), Use)]),
                 Instr(3, [RegOp(Physical(0), Use)])], [])])
  }

  function OneRegister(): Analyzer {
    Analyzer(c => [0], segments => [], v => 0, (instr, v) => false)
  }

  function Crowded(v: VirtualReg): Fixed {
    Fixed(NoRoom(v), [[ReservedSegment(0, LiveRange(0, Point(1, 1), Point(3, 0)))]], OneRegister())
  }

  function LongRange(v: VirtualReg): Bundle {
    Bundle([Segment(v, LiveRange(0, Point(0, 1), Point(2, 0)))], 0)
  }

  lemma RangesOfNoRoom(v: VirtualReg, r: Reg)
    ensures RangesOf(NoRoom(v), r) ==
            if r == Virtual(v) then [LiveRange(0, Point(0, 1), Point(2, 0))]
            else if r == Physical(0) then [LiveRange(0, Point(1, 1), Point(3, 0))] else []
  {
    var f := NoRoom(v);
    var instrs, none := f.blocks[0].instrs, RegScan([], false);
    assert IsOp(f.blocks[0], Virtual(v), Def, 0, 0) && IsOp(f.blocks[0], Physical(0), Def, 1, 0);
    assert !ExposedUse(f.blocks[0], r);
    NoUseNoLiveIn(f, r);
    var read := RegScan([LiveRange(0, Point(3, 0), Point(3, 0))], true);
    var use := RegScan([LiveRange(0, Point(2, 0), Point(2, 0))], true);
    var taken, long := RegScan([LiveRange(0, Point(1, 1), Point(3, 0))], false), RegScan([LiveRange(0, Point(0, 1), Point(2, 0))], false);
    assert ScanInstrs(0, instrs, r, false, 4) == none;
    assert ScanOps(none, 0, 3, instrs[3].regs, r, 1) == if r == Physical(0) then read else none;
    var third := ScanInstrs(0, instrs, r, false, 3);
    assert third == if r == Physical(0) then read else none;
    assert ScanOps(third, 0, 2, instrs[2].regs, r, 1) == if r == Virtual(v) then use else third;
    var second := ScanInstrs(0, instrs, r, false, 2);
    assert second == if r == Virtual(v) then use else third;
    assert ScanOps(second, 0, 1, instrs[1].regs, r, 1) == if r == Physical(0) then taken else second;
    var first := ScanInstrs(0, instrs, r, false, 1);
    assert first == if r == Physical(0) then taken else second;
    assert ScanOps(first, 0, 0, instrs[0].regs, r, 1) == if r == Virtual(v) then long else first;
    assert RangesUpTo(f, r, 0) == [];
    assert RangesUpTo(f, r, 1) == [] + ScanInstrs(0, instrs, r, false, 0).ranges;
  }

  lemma TakenIsGenuineAt(v: VirtualReg, b: nat, s: ReservedSegment)
    ensures P.ReservedExactly(Crowded(v), b, s)
  {
    RangesOfNoRoom(v, Physical(s.reg));
  }

  lemma TakenIsGenuine(v: VirtualReg)
    ensures P.ReservedIs(Crowded(v))
  {
    forall b: nat, s
      ensures P.ReservedExactly(Crowded(v), b, s)
    {
      TakenIsGenuineAt(v, b, s);
    }
  }

  lemma CrowdedIsGenuine(v: VirtualReg)
    ensures P.ReservedIs(Crowded(v)) && InitialBundles(NoRoom(v), OneRegister().regClasses, [LongRange(v)])
  {
    var f, x := NoRoom(v), LongRange(v);
    TakenIsGenuine(v);
    assert SegmentsOf([x]) == multiset(x.segments) + SegmentsOf([]);
    forall s
      ensures s in SegmentsOf([x]) <==> s.range in RangesOf(f, Virtual(s.reg))
    {
      RangesOfNoRoom(v, Virtual(s.reg));
    }
  }

  lemma NoRegister(v: VirtualReg, allocs: seq<Alloc>, x: Bundle)
    requires |x.segments| > 0 && x.segments[0].range.Intersects(LiveRange(0, Point(1, 1), Point(3, 0)))
    ensures ChosenReg(Crowded(v), allocs, x).None?
  {
    var fx := Crowded(v);
    assert x.segments[0].range.Intersects(fx.reserved[0][0].range);
    assert MeetsReserved(fx.reserved, x, 0);
    assert fx.analyzer.suggest(x.segments) == [] && fx.analyzer.candidates(x.regClass) == [0];
    assert FirstPossible(fx, allocs, x, [0][1..]).None?;
  }

  lemma BornWithoutRoom(v: VirtualReg)
    ensures Born(NoRoom(v), LongRange(v), 0) == [BornAt(v, 0, Def), BornAt(v, 2, Use)]
  {
    var f, x := NoRoom(v), LongRange(v);
    var instrs := f.blocks[0].instrs;
    assert BornOfOps(0, 0, instrs[0].regs, v, 0, 0, 1) == [] + [BornAt(v, 0, Def)];
    assert BornOfInstrs(0, instrs, v, 0, 0, 0, 1) == [BornAt(v, 0, Def)];
    assert BornOfOps(0, 1, instrs[1].regs, v, 0, 0, 1) == [];
    assert BornOfInstrs(0, instrs, v, 0, 0, 0, 2) == [BornAt(v, 0, Def)];
    assert BornOfOps(0, 2, instrs[2].regs, v, 0, 0, 1) == [] + [BornAt(v, 2, Use)];
    assert BornOfInstrs(0, instrs, v, 0, 0, 0, 3) == [BornAt(v, 0, Def), BornAt(v, 2, Use)];
    assert BornOf(f, x, 0, 0) == [];
    assert BornOf(f, x, 0, 1) == [] + [BornAt(v, 0, Def), BornAt(v, 2, Use)];
  }

  lemma StuckAfterSpill(v: VirtualReg)
    ensures ReachableCtx(Crowded(v), Ctx([LongRange(v)], [], 0), Ctx([BornAt(v, 0, Def), BornAt(v, 2, Use)], [], 1))
    ensures !NoBornBundleStuck(Crowded(v), Ctx([BornAt(v, 0, Def), BornAt(v, 2, Use)], [], 1))
  {
    var fx, s0 := Crowded(v), Ctx([LongRange(v)], [], 0);
    var s := Ctx([BornAt(v, 0, Def), BornAt(v, 2, Use)], [], 1);
    NoRegister(v, [], LongRange(v));
    NoRegister(v, [], BornAt(v, 2, Use));
    BornWithoutRoom(v);
    assert Remove(s0.bundles, 0) == [];
    assert StepAt(fx, s0, 0) == s && Step(fx, s0, s);
    ReachableAtOnce(fx, s0);
    ReachableNext(fx, s0, s0, s);
    assert StuckAt(fx, s, 1);
    StuckIff(fx, s);
  }

  /** The worklist of this function has a run of every length. */
  lemma WorklistNeedNotEnd(v: VirtualReg)
    ensures P.ReservedIs(Crowded(v)) && InitialBundles(NoRoom(v), OneRegister().regClasses, [LongRange(v)])
    ensures !RunsEnd(Crowded(v), Ctx([LongRange(v)], [], 0))
  {
    var legal: (RegClass, PhysicalReg) -> bool := (c, p) => true;
    CrowdedIsGenuine(v);
    StuckAfterSpill(v);
    P.InitialIsSafe(Crowded(v), legal, [LongRange(v)], 0);
    RunsEndIff(Crowded(v), legal, Ctx([LongRange(v)], [], 0));
  }
}
