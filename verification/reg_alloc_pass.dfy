/** The whole register allocation of one function (src/banjo/codegen/reg_alloc_pass.cpp, run). */
module RegAllocPass {
  import opened RegAllocFunc
  import opened LivenessSpec
  import opened LiveRanges
  import opened FuncRanges
  import Liveness
  import opened Bundles
  import opened Worklist
  import opened AllocStep
  import opened AllocContext
  import opened Spills
  import opened Rewrite
  import opened Machine
  import opened Simulation
  import opened Placement
  import opened PlacementSound

  // ---- Reserving physical registers ----

  function KillSegment(kp: KillPoint): ReservedSegment {
    ReservedSegment(kp.reg, LiveRange(kp.block, Point(kp.instr, 1), Point(kp.instr, 1)))
  }

  /** The segments block `b` has to reserve: the ranges of physical registers and the points where they are killed. */
  ghost predicate IsReserved(regRanges: map<Reg, seq<LiveRange>>, killPoints: seq<KillPoint>, b: nat, s: ReservedSegment) {
    s.range.block == b
    && (s.range in RangesIn(regRanges, Physical(s.reg)) || exists kp :: kp in killPoints && s == KillSegment(kp))
  }

  ghost predicate RangesInBlocks(n: nat, ranges: seq<LiveRange>) {
    forall k | 0 <= k < |ranges| :: ranges[k].block < n
  }

  function AddReserved(reserved: seq<seq<ReservedSegment>>, s: ReservedSegment): seq<seq<ReservedSegment>>
    requires s.range.block < |reserved|
  {
    reserved[s.range.block := reserved[s.range.block] + [s]]
  }

  ghost predicate Reserves(reserved: seq<seq<ReservedSegment>>, s: ReservedSegment) {
    s.range.block < |reserved| && s in reserved[s.range.block]
  }

  /** Each segment is filed under its own block. */
  ghost predicate Filed(reserved: seq<seq<ReservedSegment>>) {
    forall b, k :: 0 <= b < |reserved| && 0 <= k < |reserved[b]| ==> reserved[b][k].range.block == b
  }

  lemma AddReservedAdds(reserved: seq<seq<ReservedSegment>>, s: ReservedSegment)
    requires s.range.block < |reserved| && Filed(reserved)
    ensures Filed(AddReserved(reserved, s))
    ensures forall t :: Reserves(AddReserved(reserved, s), t) <==> Reserves(reserved, t) || t == s
  {
  }

  /** Reserves every range of one physical register. */
  method ReserveRanges(reserved: seq<seq<ReservedSegment>>, p: PhysicalReg, ranges: seq<LiveRange>)
    returns (reserved': seq<seq<ReservedSegment>>)
    requires RangesInBlocks(|reserved|, ranges) && Filed(reserved)
    ensures |reserved'| == |reserved| && Filed(reserved')
    ensures forall t :: Reserves(reserved', t) <==> Reserves(reserved, t) || (t.reg == p && t.range in ranges)
  {
    reserved' := reserved;
    for k := 0 to |ranges|
      invariant |reserved'| == |reserved| && Filed(reserved')
      invariant forall t :: Reserves(reserved', t) <==> Reserves(reserved, t) || (t.reg == p && t.range in ranges[..k])
    {
      AddReservedAdds(reserved', ReservedSegment(p, ranges[k]));
      reserved' := AddReserved(reserved', ReservedSegment(p, ranges[k]));
    }
    assert ranges[..|ranges|] == ranges;
  }

  method ReserveKillPoints(reserved: seq<seq<ReservedSegment>>, killPoints: seq<KillPoint>)
    returns (reserved': seq<seq<ReservedSegment>>)
    requires forall kp :: kp in killPoints ==> kp.block < |reserved|
    requires Filed(reserved)
    ensures |reserved'| == |reserved| && Filed(reserved')
    ensures forall t :: Reserves(reserved', t) <==> Reserves(reserved, t) || exists kp :: kp in killPoints && t == KillSegment(kp)
  {
    reserved' := reserved;
    for k := 0 to |killPoints|
      invariant |reserved'| == |reserved| && Filed(reserved')
      invariant forall t :: Reserves(reserved', t) <==>
                  Reserves(reserved, t) || exists kp :: kp in killPoints[..k] && t == KillSegment(kp)
    {
      AddReservedAdds(reserved', KillSegment(killPoints[k]));
      reserved' := AddReserved(reserved', KillSegment(killPoints[k]));
      assert killPoints[..k + 1] == killPoints[..k] + [killPoints[k]];
      assert killPoints[k] in killPoints[..k + 1];
    }
    assert killPoints[..|killPoints|] == killPoints;
  }

  method ReserveFixedRanges(n: nat, regRanges: map<Reg, seq<LiveRange>>, killPoints: seq<KillPoint>)
    returns (reserved: seq<seq<ReservedSegment>>)
    requires forall p :: RangesInBlocks(n, RangesIn(regRanges, Physical(p)))
    requires forall kp :: kp in killPoints ==> kp.block < n
    ensures |reserved| == n
    ensures forall b, s :: 0 <= b < n ==> (s in reserved[b] <==> IsReserved(regRanges, killPoints, b, s))
  {
    reserved := seq(n, _ => []);
    var todo := regRanges.Keys;
    while todo != {}
      invariant |reserved| == n && Filed(reserved) && todo <= regRanges.Keys
      invariant forall t :: Reserves(reserved, t) <==>
                  Physical(t.reg) !in todo && t.range in RangesIn(regRanges, Physical(t.reg))
      decreases todo
    {
      var reg :| reg in todo;
      if reg.Physical? {
        assert RangesInBlocks(n, RangesIn(regRanges, Physical(reg.p)));
        reserved := ReserveRanges(reserved, reg.p, regRanges[reg]);
      }
      todo := todo - {reg};
    }
    reserved := ReserveKillPoints(reserved, killPoints);
    forall b, s | 0 <= b < n
      ensures s in reserved[b] <==> IsReserved(regRanges, killPoints, b, s)
    {
      if s in reserved[b] {
        var k :| 0 <= k < |reserved[b]| && reserved[b][k] == s;
        assert Reserves(reserved, s);
      }
    }
  }

  lemma {:induction false} FoundRangesInBlocks(f: Func, r: Reg, n: nat)
    requires n <= |f.blocks|
    ensures RangesInBlocks(n, RangesUpTo(f, r, n))
  {
    if n > 0 {
      FoundRangesInBlocks(f, r, n - 1);
      if f.blocks[n - 1].instrs != [] {
        ScanStaysInBlock(n - 1, f.blocks[n - 1].instrs, r, r in LiveOuts(f, n - 1), 0);
      }
    }
  }

  // ---- The context allocation starts from ----

  /** The reserved segments are the ranges and kill points of the physical registers. */
  ghost predicate ReservedIs(fx: Fixed) {
    && |fx.reserved| == |fx.f.blocks|
    && forall b, s {:trigger ReservedExactly(fx, b, s)} :: ReservedExactly(fx, b, s)
  }

  ghost predicate ReservedExactly(fx: Fixed, b: nat, s: ReservedSegment) {
    b < |fx.reserved| ==>
      (s in fx.reserved[b] <==>
       s.range.block == b && (s.range in RangesOf(fx.f, Physical(s.reg)) || exists kp :: IsKillPoint(fx.f, kp) && s == KillSegment(kp)))
  }

  lemma ReservedIsComplete(fx: Fixed)
    requires ReservedIs(fx)
    ensures ReservedComplete(fx)
  {
    forall p, range | range in RangesOf(fx.f, Physical(p)) && range.block < |fx.reserved|
      ensures ReservedSegment(p, range) in fx.reserved[range.block]
    {
      assert ReservedExactly(fx, range.block, ReservedSegment(p, range));
    }
    forall kp | IsKillPoint(fx.f, kp)
      ensures ReservedSegment(kp.reg, LiveRange(kp.block, Point(kp.instr, 1), Point(kp.instr, 1))) in fx.reserved[kp.block]
    {
      assert ReservedExactly(fx, kp.block, KillSegment(kp));
    }
  }

  /**
    The register file is large enough for spill code: wherever the worklist gets to, a waiting bundle that was born of a
    spill finds a register or can evict.
   */
  ghost predicate SpillsFit(f: Func, analyzer: Analyzer, base: StackSlotID) {
    forall reserved, initial, s {:trigger SpillsFitAt(f, analyzer, base, reserved, initial, s)} ::
      SpillsFitAt(f, analyzer, base, reserved, initial, s)
  }

  ghost predicate SpillsFitAt(f: Func, analyzer: Analyzer, base: StackSlotID, reserved: seq<seq<ReservedSegment>>,
                              initial: seq<Bundle>, s: Ctx)
  {
    var fx := Fixed(f, reserved, analyzer);
    ReservedIs(fx) && InitialBundles(f, analyzer.regClasses, initial) && ReachableCtx(fx, Ctx(initial, [], base), s) ==>
      NoBornBundleStuck(fx, s)
  }

  lemma FoundRangesQualify(f: Func, regRanges: map<Reg, seq<LiveRange>>)
    requires ValidFunc(f) && VirtualsPlain(f) && RangesFound(f, |f.blocks|, regRanges)
    ensures GoodRanges(f, regRanges)
  {
    forall v
      ensures DisjointRanges(RangesIn(regRanges, Virtual(v))) && RangesInFunc(f, RangesIn(regRanges, Virtual(v)))
    {
      assert RangesFoundFor(f, |f.blocks|, regRanges, Virtual(v));
      assert PlainReg(f, Virtual(v));
      FoundRangesAreGood(f, Virtual(v), |f.blocks|);
    }
  }

  lemma BundlesHoldRanges(f: Func, regRanges: map<Reg, seq<LiveRange>>, segments: multiset<Segment>, s: Segment)
    requires RangesFound(f, |f.blocks|, regRanges) && HoldsRangesOf(regRanges, regRanges.Keys, segments)
    ensures s in segments <==> s.range in RangesOf(f, Virtual(s.reg))
  {
    assert HoldsRange(regRanges, regRanges.Keys, segments, s);
    assert RangesFoundFor(f, |f.blocks|, regRanges, Virtual(s.reg));
  }

  /** What is known when the liveness analysis is done. */
  ghost predicate Analysed(f: Func, liveness: Liveness.LivenessAnalysis)
    reads liveness
  {
    RangesFound(f, |f.blocks|, liveness.regRanges) && liveness.killPoints == KillsUpTo(f, |f.blocks|)
  }

  method Reserve(f: Func, liveness: Liveness.LivenessAnalysis, ghost analyzer: Analyzer) returns (reserved: seq<seq<ReservedSegment>>)
    requires ValidFunc(f) && Analysed(f, liveness)
    ensures ReservedIs(Fixed(f, reserved, analyzer))
  {
    forall p
      ensures RangesInBlocks(|f.blocks|, RangesIn(liveness.regRanges, Physical(p)))
    {
      assert RangesFoundFor(f, |f.blocks|, liveness.regRanges, Physical(p));
      FoundRangesInBlocks(f, Physical(p), |f.blocks|);
    }
    forall kp | kp in liveness.killPoints
      ensures kp.block < |f.blocks|
    {
      KillsAre(f, |f.blocks|, kp);
    }
    reserved := ReserveFixedRanges(|f.blocks|, liveness.regRanges, liveness.killPoints);
    ghost var fx := Fixed(f, reserved, analyzer);
    forall b: nat, s
      ensures ReservedExactly(fx, b, s)
    {
      if b < |reserved| { ReservedSegmentsAre(f, liveness.regRanges, liveness.killPoints, b, s); }
    }
  }

  lemma ReservedSegmentsAre(f: Func, regRanges: map<Reg, seq<LiveRange>>, killPoints: seq<KillPoint>, b: nat, s: ReservedSegment)
    requires ValidFunc(f) && RangesFound(f, |f.blocks|, regRanges) && killPoints == KillsUpTo(f, |f.blocks|)
    ensures IsReserved(regRanges, killPoints, b, s) <==>
            s.range.block == b && (s.range in RangesOf(f, Physical(s.reg)) || exists kp :: IsKillPoint(f, kp) && s == KillSegment(kp))
  {
    assert RangesFoundFor(f, |f.blocks|, regRanges, Physical(s.reg));
    forall kp
      ensures kp in killPoints <==> IsKillPoint(f, kp)
    {
      KillsAre(f, |f.blocks|, kp);
    }
  }

  /** The bundles are what coalescing makes of bundles of one register each. */
  ghost predicate AreCoalesced(f: Func, isMoveFrom: (Instr, VirtualReg) -> bool, bundles: seq<Bundle>) {
    exists created, work :: AllOfOneRegister(created) && SegmentsOf(created) == SegmentsOf(bundles)
                            && Coalesced(f, isMoveFrom, created, work) && bundles == LiveOnly(work)
  }

  method InitialQueue(f: Func, liveness: Liveness.LivenessAnalysis, analyzer: Analyzer) returns (bundles: seq<Bundle>)
    requires ValidFunc(f) && VirtualsPlain(f) && Analysed(f, liveness)
    ensures InitialBundles(f, analyzer.regClasses, bundles) && AreCoalesced(f, analyzer.isMoveFrom, bundles)
  {
    FoundRangesQualify(f, liveness.regRanges);
    var created := CreateBundles(f, liveness.regRanges, analyzer.regClasses);
    ghost var work;
    bundles, work := CoalesceBundles(f, analyzer.isMoveFrom, created, analyzer.regClasses);
    forall s
      ensures s in SegmentsOf(bundles) <==> s.range in RangesOf(f, Virtual(s.reg))
    {
      BundlesHoldRanges(f, liveness.regRanges, SegmentsOf(created), s);
    }
  }

  // ---- The pass ----

  /** From states that agree on what is live, the two programs are in step after any number of steps. */
  ghost predicate RunsAgree(f: Func, home: map<VirtualReg, Home>, code: Code, removable: (nat, seq<RegOp>) -> bool,
                            m: Machine, v: VState, p: PState, n: nat)
    requires ValidFunc(f) && Shaped(f, code)
  {
    StaleReadsHarmless(f, m) && RemovableIsNop(m, removable) && Related(f, home, 0, 0, v, p) ==>
      InStep(f, home, VRun(f, m, v, n), PRun(f, code, m, p, n))
  }

  /** Candidates and suggestions are legal wherever they can be assigned. */
  ghost predicate LegalFor(f: Func, analyzer: Analyzer, legal: (RegClass, PhysicalReg) -> bool) {
    forall reserved | ReservedIs(Fixed(f, reserved, analyzer)) :: LegalRegs(Fixed(f, reserved, analyzer), legal)
  }

  lemma InitialIsSafe(fx: Fixed, legal: (RegClass, PhysicalReg) -> bool, initial: seq<Bundle>, base: StackSlotID)
    requires InitialBundles(fx.f, fx.analyzer.regClasses, initial)
    ensures Safe(fx, legal, Ctx(initial, [], base)) && CtxInFunc(fx.f, Ctx(initial, [], base))
  {
    forall k | 0 <= k < |initial|
      ensures Fit(fx, initial[k]) && InFunc(fx.f, initial[k])
    {
      assert GoodBundle(initial[k], fx.analyzer.regClasses);
      forall n | 0 <= n < |initial[k].segments|
        ensures Occurs(fx.f, initial[k].segments[n])
      {
        InitialSegmentIsRange(fx.f, fx.analyzer.regClasses, initial, initial[k], n);
      }
    }
  }

  lemma AllocsApply(l: Layout, a: nat)
    requires Settled(l) && a < |l.allocs|
    ensures Applicable(l.fx.f, l.allocs[a])
  {
    if l.allocs[a].bundle.evictable {
      EvictableAllocIsInitial(l, a);
      InitialIsGood(l, l.allocs[a].bundle);
    } else {
      var j, b, i, v, op := UnevictableIsBornHere(l, a);
    }
  }

  /** The worklist: every bundle ends up in a register, or was spilled. */
  method Allocate(fx: Fixed, ghost legal: (RegClass, PhysicalReg) -> bool, initial: seq<Bundle>, base: StackSlotID)
    returns (allocs: seq<Alloc>, ghost l: Layout)
    requires ValidFunc(fx.f) && VirtualsPlain(fx.f) && ReservedIs(fx) && LegalRegs(fx, legal)
    requires InitialBundles(fx.f, fx.analyzer.regClasses, initial) && SpillsFit(fx.f, fx.analyzer, base)
    ensures Settled(l) && l.fx == fx && l.legal == legal && l.initial == initial && l.allocs == allocs && l.base == base
    ensures AllHopeless(fx, Ctx(initial, [], base), l.spilled)
  {
    InitialIsSafe(fx, legal, initial, base);
    ReservedIsComplete(fx);
    var ctx := new Context(fx, initial, base);
    forall s | ReachableCtx(fx, ctx.State(), s)
      ensures NoBornBundleStuck(fx, s)
    {
      assert fx == Fixed(fx.f, fx.reserved, fx.analyzer);
      assert SpillsFitAt(fx.f, fx.analyzer, base, fx.reserved, initial, s);
    }
    ghost var spilled := ctx.AllocateAll(legal);
    allocs := ctx.allocs;
    l := Layout(fx, legal, initial, base, allocs, spilled);
  }

  method ApplyAllocs(f: Func, allocs: seq<Alloc>, removable: (nat, seq<RegOp>) -> bool, ghost l: Layout) returns (code: Code)
    requires Settled(l) && l.fx.f == f && l.allocs == allocs
    ensures FinalCode(f, allocs, removable, code)
  {
    forall a | 0 <= a < |allocs|
      ensures Applicable(f, allocs[a])
    {
      AllocsApply(l, a);
    }
    var rewriter := new Rewriter(f);
    rewriter.ApplyAll(allocs);
    rewriter.RemoveUselessInstrs(removable, allocs);
    code := rewriter.code;
  }

  /** A function whose virtual registers are all written before they are read. */
  ghost predicate NoVirtualLiveIn(f: Func)
    requires |f.blocks| > 0
  {
    forall v :: Virtual(v) !in LiveIns(f, 0)
  }

  ghost predicate SamePhysicals(v: RegFile, p: RegFile) {
    forall q :: Get(v, Physical(q)) == Get(p, Physical(q))
  }

  /** Started on the same machine state, both programs are at the same place, in the same environment, after `n` steps. */
  ghost predicate SameRuns(f: Func, code: Code, removable: (nat, seq<RegOp>) -> bool, m: Machine, v: VState, p: PState, n: nat)
    requires ValidFunc(f) && Shaped(f, code)
  {
    StaleReadsHarmless(f, m) && RemovableIsNop(m, removable) && v.env == p.env && SamePhysicals(v.regs, p.regs) ==>
      VRun(f, m, v, n).0 == PRun(f, code, m, p, n).0 && VRun(f, m, v, n).1.env == PRun(f, code, m, p, n).1.env
  }

  /**
    Register allocation of one function. The result keeps every value where the rewritten operands look for it, so that
    the program means what it meant before.
   */
  method Run(f: Func, analyzer: Analyzer, removable: (nat, seq<RegOp>) -> bool, base: StackSlotID,
             ghost legal: (RegClass, PhysicalReg) -> bool)
    returns (code: Code, ghost l: Layout)
    requires ValidFunc(f) && VirtualsPlain(f) && LegalFor(f, analyzer, legal) && SpillsFit(f, analyzer, base)
    ensures Settled(l) && l.fx.f == f && l.fx.analyzer == analyzer && l.legal == legal && l.base == base
    ensures FinalCode(f, l.allocs, removable, code) && Shaped(f, code)
    ensures AreCoalesced(f, analyzer.isMoveFrom, l.initial) && AllHopeless(l.fx, Ctx(l.initial, [], base), l.spilled)
    ensures (forall v :: AllWrittenOnce(f, v)) && InputCovered(f) && NoVirtualLiveIn(f) ==>
              forall m, v, p, n: nat :: SameRuns(f, code, removable, m, v, p, n)
    ensures SpillsWrittenOnce(f, l.spilled) && InputCovered(f) && NoVirtualLiveIn(f) ==>
              forall m, v, p, n: nat :: SameRuns(f, code, removable, m, v, p, n)
    ensures SpillsWrittenOnce(f, l.spilled) && InputCovered(f) ==> CodeSound(f, Homes(l), code)
    ensures SpillsWrittenOnce(f, l.spilled) && InputCovered(f) ==>
              forall m, v, p, n :: RunsAgree(f, Homes(l), code, removable, m, v, p, n)
  {
    var liveness := new Liveness.LivenessAnalysis(f);
    liveness.Compute();
    var reserved := Reserve(f, liveness, analyzer);
    var fx := Fixed(f, reserved, analyzer);
    var initial := InitialQueue(f, liveness, analyzer);
    var allocs;
    allocs, l := Allocate(fx, legal, initial, base);
    code := ApplyAllocs(f, allocs, removable, l);
    if SpillsWrittenOnce(f, l.spilled) && InputCovered(f) {
      AllocationIsSound(l, removable, code);
      forall m, v, p, n: nat
        ensures RunsAgree(f, Homes(l), code, removable, m, v, p, n)
      {
        CodeRunsAgree(f, Homes(l), code, removable, m, v, p, n);
      }
      if NoVirtualLiveIn(f) {
        forall m, v, p, n: nat
          ensures SameRuns(f, code, removable, m, v, p, n)
        {
          RunsAreSame(l, code, removable, m, v, p, n);
        }
      }
    }
  }

  lemma CodeRunsAgree(f: Func, home: map<VirtualReg, Home>, code: Code, removable: (nat, seq<RegOp>) -> bool,
                      m: Machine, v: VState, p: PState, n: nat)
    requires ValidFunc(f) && CodeSound(f, home, code) && RemovedAreRemovable(code, removable)
    ensures RunsAgree(f, home, code, removable, m, v, p, n)
  {
    if StaleReadsHarmless(f, m) && RemovableIsNop(m, removable) && Related(f, home, 0, 0, v, p) {
      RunsStayInStep(f, home, code, m, removable, v, p, n);
    }
  }

  lemma RunsAreSame(l: Layout, code: Code, removable: (nat, seq<RegOp>) -> bool, m: Machine, v: VState, p: PState, n: nat)
    requires Placed(l) && InputCovered(l.fx.f) && FinalCode(l.fx.f, l.allocs, removable, code) && NoVirtualLiveIn(l.fx.f)
    ensures SameRuns(l.fx.f, code, removable, m, v, p, n)
  {
    if StaleReadsHarmless(l.fx.f, m) && RemovableIsNop(m, removable) && v.env == p.env && SamePhysicals(v.regs, p.regs) {
      SameObservations(l, code, removable, m, v, p, n);
    }
  }

  /** If no virtual register is live into the entry, the same physical registers are enough to start with. */
  lemma StartsRelated(f: Func, home: map<VirtualReg, Home>, v: VState, p: PState)
    requires ValidFunc(f) && NoVirtualLiveIn(f) && v.env == p.env && SamePhysicals(v.regs, p.regs)
    ensures Related(f, home, 0, 0, v, p)
  {
    forall r
      ensures Holds(f, home, 0, 0, v, p, r)
    {
      assert Stale(f, 0, 0, r) || r in LiveIns(f, 0);
    }
  }

  /** Started on the same machine state, such a function sees and does the same as before allocation, step by step. */
  lemma SameObservations(l: Layout, code: Code, removable: (nat, seq<RegOp>) -> bool, m: Machine, v: VState, p: PState, n: nat)
    requires Placed(l) && InputCovered(l.fx.f) && FinalCode(l.fx.f, l.allocs, removable, code)
    requires StaleReadsHarmless(l.fx.f, m) && RemovableIsNop(m, removable)
    requires NoVirtualLiveIn(l.fx.f) && v.env == p.env && SamePhysicals(v.regs, p.regs)
    ensures VRun(l.fx.f, m, v, n).0 == PRun(l.fx.f, code, m, p, n).0
    ensures VRun(l.fx.f, m, v, n).1.env == PRun(l.fx.f, code, m, p, n).1.env
  {
    AllocationIsSound(l, removable, code);
    StartsRelated(l.fx.f, Homes(l), v, p);
    RunsStayInStep(l.fx.f, Homes(l), code, m, removable, v, p, n);
  }
}
