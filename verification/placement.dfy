/** From a finished allocation to correct code: every register has a home, and the rewritten instructions respect it. */
module Placement {
  import opened Graph
  import opened RegAllocFunc
  import opened LivenessSpec
  import opened LiveRanges
  import opened FuncRanges
  import opened Bundles
  import opened Worklist
  import opened AllocContext
  import opened Spills
  import opened Rewrite
  import opened Machine
  import opened Simulation

  // ---- What the input has to satisfy ----

  /** Virtual registers are listed in the form that live ranges are computed for. */
  ghost predicate VirtualsPlain(f: Func) {
    forall v :: PlainReg(f, Virtual(v))
  }

  /** This is so if no instruction writes a virtual register and names it again. */
  lemma WrittenOnceIsPlain(f: Func)
    requires ValidFunc(f) && forall v :: AllWrittenOnce(f, v)
    ensures VirtualsPlain(f)
  {
    forall v, b, i | 0 <= b < |f.blocks| && 0 <= i < |f.blocks[b].instrs|
      ensures PlainFor(f.blocks[b].instrs[i], Virtual(v))
    {
      assert KillsPhysicalOnly(f.blocks[b].instrs[i]) && AllWrittenOnce(f, v);
    }
  }

  /** No early double read of a register that is not live into its block. */
  ghost predicate VirtualsCovered(f: Func) {
    forall b, v {:trigger VirtualCovered(f, b, v)} :: VirtualCovered(f, b, v)
  }

  ghost predicate VirtualCovered(f: Func, b: nat, v: VirtualReg) {
    b < |f.blocks| && Reachable(f, b) ==>
      Virtual(v) in LiveIns(f, b) || !TwoEarlyReads(f.blocks[b].instrs, Virtual(v))
  }

  /** What is reserved for physical registers, their ranges and kill points, covers where they hold a value. */
  ghost predicate PhysicalsCovered(f: Func) {
    forall b, i, p {:trigger PhysicalCovered(f, b, i, p)} ::
      0 <= b < |f.blocks| && Reachable(f, b) && 0 <= i < |f.blocks[b].instrs| ==> PhysicalCovered(f, b, i, p)
  }

  ghost predicate PhysicalCovered(f: Func, b: nat, i: nat, p: PhysicalReg)
    requires b < |f.blocks| && i < |f.blocks[b].instrs|
  {
    var r := Physical(p);
    && (Tracked(f, b, i, r) ==> CoveredBy(RangesOf(f, r), b, 2 * i))
    && (Tracked(f, b, i + 1, r) || WritesReg(f.blocks[b].instrs[i], r) ==>
          CoveredBy(RangesOf(f, r), b, 2 * i + 1) || Has(f.blocks[b].instrs[i], r, Kill))
  }

  /** A physical register whose operands have the plain form is covered like a virtual one. */
  lemma PlainPhysicalIsCovered(f: Func, b: nat, i: nat, p: PhysicalReg)
    requires PlainReg(f, Physical(p)) && b < |f.blocks| && i < |f.blocks[b].instrs|
    requires Physical(p) in LiveIns(f, b) || !TwoEarlyReads(f.blocks[b].instrs, Physical(p))
    ensures PhysicalCovered(f, b, i, p)
  {
    LivePointsCovered(f, b, i, Physical(p));
    OperandsCoveredIff(f, b, Physical(p));
  }

  // ---- The facts about the allocator's context ----

  ghost predicate ReservedComplete(fx: Fixed) {
    && |fx.reserved| == |fx.f.blocks|
    && (forall p, range :: range in RangesOf(fx.f, Physical(p)) && range.block < |fx.reserved| ==>
          ReservedSegment(p, range) in fx.reserved[range.block])
    && forall kp :: IsKillPoint(fx.f, kp) ==>
         ReservedSegment(kp.reg, LiveRange(kp.block, Point(kp.instr, 1), Point(kp.instr, 1))) in fx.reserved[kp.block]
  }

  /** The bundles allocation starts from hold exactly the ranges of the virtual registers. */
  ghost predicate InitialBundles(f: Func, regClasses: VirtualReg -> RegClass, initial: seq<Bundle>) {
    && GoodBundles(initial, regClasses) && AllInFunc(f, initial)
    && (forall k | 0 <= k < |initial| :: !initial[k].deleted)
    && forall s :: s in SegmentsOf(initial) <==> s.range in RangesOf(f, Virtual(s.reg))
  }

  lemma InitialBundleIsGood(f: Func, regClasses: VirtualReg -> RegClass, initial: seq<Bundle>, x: Bundle)
    requires InitialBundles(f, regClasses, initial) && x in initial
    ensures x.evictable && !x.deleted && GoodBundle(x, regClasses) && InFunc(f, x)
  {
    var k :| 0 <= k < |initial| && initial[k] == x;
    assert GoodBundle(initial[k], regClasses);
  }

  lemma InitialSegmentIsRange(f: Func, regClasses: VirtualReg -> RegClass, initial: seq<Bundle>, x: Bundle, k: nat)
    requires InitialBundles(f, regClasses, initial) && x in initial && k < |x.segments|
    ensures x.segments[k].range in RangesOf(f, Virtual(x.segments[k].reg))
  {
    InitialBundleIsGood(f, regClasses, initial, x);
    SegmentsOfMember(initial, x.segments[k]);
    var j :| 0 <= j < |initial| && initial[j] == x;
    assert !initial[j].deleted && x.segments[k] in initial[j].segments;
  }

  lemma InitialBundleSharesNothing(f: Func, regClasses: VirtualReg -> RegClass, initial: seq<Bundle>, x: Bundle)
    requires VirtualsPlain(f) && InitialBundles(f, regClasses, initial) && x in initial
    ensures SegmentsShareNothing(x)
  {
    InitialBundleIsGood(f, regClasses, initial, x);
    forall j, k | 0 <= j < k < |x.segments|
      ensures ShareNothing(x.segments[j], x.segments[k])
    {
      var s, t := x.segments[j], x.segments[k];
      InitialSegmentIsRange(f, regClasses, initial, x, j);
      InitialSegmentIsRange(f, regClasses, initial, x, k);
      forall b: nat, i: nat | s.reg == t.reg && s.range.Spans(b, i)
        ensures !t.range.Spans(b, i)
      {
        if t.range.Spans(b, i) {
          RangesDoNotShareInstructions(f, Virtual(s.reg), s.range, t.range, b, i);
          assert s.range.Intersects(t.range);
        }
      }
    }
  }

  /** A finished allocation, with the initial bundles and the bundles that were spilled, in order. */
  datatype Layout = Layout(fx: Fixed, legal: (RegClass, PhysicalReg) -> bool, initial: seq<Bundle>, base: StackSlotID,
                           allocs: seq<Alloc>, spilled: seq<Bundle>)

  ghost predicate Settled(l: Layout) {
    && ValidFunc(l.fx.f) && VirtualsPlain(l.fx.f) && ReservedComplete(l.fx)
    && InitialBundles(l.fx.f, l.fx.analyzer.regClasses, l.initial)
    && Allocated(l.fx, l.legal, l.initial, l.base, l.allocs, l.spilled)
  }

  /** One in which spilled registers do not lose what is written to them. */
  ghost predicate Placed(l: Layout) {
    Settled(l) && SpillsWrittenOnce(l.fx.f, l.spilled)
  }

  // ---- Where bundles come from ----

  ghost predicate HoldsReg(l: Layout, a: nat, v: VirtualReg) {
    a < |l.allocs| && l.allocs[a].bundle.evictable && v in RegsOf(l.allocs[a].bundle)
  }

  ghost predicate SpilledReg(l: Layout, j: nat, v: VirtualReg) {
    j < |l.spilled| && v in RegsOf(l.spilled[j])
  }

  lemma EmptyQueueBalance(f: Func, allocs: seq<Alloc>, slot: StackSlotID, spilled: seq<Bundle>, base: StackSlotID, initial: seq<Bundle>, x: Bundle)
    ensures Conserved(f, Ctx([], allocs, slot), spilled, base, initial) ==>
              Count(BundlesOf(allocs), x) + Count(spilled, x) == Count(initial, x) + Count(BornAll(f, spilled, base), x)
  {
    var s := Ctx([], allocs, slot);
    if Conserved(f, s, spilled, base, initial) { BalanceAt(f, s, spilled, base, initial, x); }
  }

  lemma BalanceAt(f: Func, s: Ctx, spilled: seq<Bundle>, base: StackSlotID, initial: seq<Bundle>, x: Bundle)
    requires s.bundles == [] && ConservedAt(f, s, spilled, base, initial, x)
    ensures Count(BundlesOf(s.allocs), x) + Count(spilled, x) == Count(initial, x) + Count(BornAll(f, spilled, base), x)
  {
  }

  lemma AllocatedBalance(fx: Fixed, legal: (RegClass, PhysicalReg) -> bool, initial: seq<Bundle>, base: StackSlotID,
                         allocs: seq<Alloc>, spilled: seq<Bundle>, x: Bundle)
    ensures Allocated(fx, legal, initial, base, allocs, spilled) ==>
              Count(BundlesOf(allocs), x) + Count(spilled, x) == Count(initial, x) + Count(BornAll(fx.f, spilled, base), x)
  {
    EmptyQueueBalance(fx.f, allocs, base + |spilled|, spilled, base, initial, x);
  }

  lemma Balance(l: Layout, x: Bundle)
    requires Settled(l)
    ensures Count(BundlesOf(l.allocs), x) + Count(l.spilled, x)
         == Count(l.initial, x) + Count(BornAll(l.fx.f, l.spilled, l.base), x)
  {
    AllocatedBalance(l.fx, l.legal, l.initial, l.base, l.allocs, l.spilled, x);
  }

  lemma InitialIsGood(l: Layout, x: Bundle)
    requires Settled(l) && x in l.initial
    ensures x.evictable && !x.deleted && GoodBundle(x, l.fx.analyzer.regClasses) && InFunc(l.fx.f, x)
  {
    InitialBundleIsGood(l.fx.f, l.fx.analyzer.regClasses, l.initial, x);
  }

  /** Only unevictable bundles are born of spills, so an evictable bundle in play is an initial one. */
  lemma EvictableIsInitial(l: Layout, x: Bundle)
    requires Settled(l) && x.evictable && (x in BundlesOf(l.allocs) || x in l.spilled)
    ensures x in l.initial
  {
    Balance(l, x);
    CountPositive(BundlesOf(l.allocs), x);
    CountPositive(l.spilled, x);
    CountPositive(l.initial, x);
    CountPositive(BornAll(l.fx.f, l.spilled, l.base), x);
    NoneBornEvictable(l.fx.f, l.spilled, l.base, x);
  }

  lemma SpilledIsInitial(l: Layout, j: nat)
    requires Settled(l) && j < |l.spilled|
    ensures l.spilled[j] in l.initial
  {
    EvictableIsInitial(l, l.spilled[j]);
  }

  lemma EvictableAllocIsInitial(l: Layout, a: nat)
    requires Settled(l) && a < |l.allocs| && l.allocs[a].bundle.evictable
    ensures l.allocs[a].bundle in l.initial
  {
    BundlesOfAllocs(l.allocs);
    assert BundlesOf(l.allocs)[a] == l.allocs[a].bundle;
    EvictableIsInitial(l, l.allocs[a].bundle);
  }

  lemma SpilledIsSpillable(l: Layout, j: nat)
    requires Settled(l) && j < |l.spilled|
    ensures Spillable(l.fx.f, l.spilled[j])
  {
    SpilledIsInitial(l, j);
    InitialBundleSharesNothing(l.fx.f, l.fx.analyzer.regClasses, l.initial, l.spilled[j]);
    InitialIsGood(l, l.spilled[j]);
  }

  lemma InitialSegment(l: Layout, x: Bundle, k: nat)
    requires Placed(l) && x in l.initial && k < |x.segments|
    ensures x.segments[k].range in RangesOf(l.fx.f, Virtual(x.segments[k].reg))
  {
    InitialSegmentIsRange(l.fx.f, l.fx.analyzer.regClasses, l.initial, x, k);
  }

  /** A virtual register belongs to one initial bundle. */
  lemma OneOwner(l: Layout, x: Bundle, y: Bundle, v: VirtualReg)
    requires Placed(l) && x in l.initial && y in l.initial && v in RegsOf(x) && v in RegsOf(y)
    ensures x == y
  {
    var j :| 0 <= j < |l.initial| && l.initial[j] == x;
    var k :| 0 <= k < |l.initial| && l.initial[k] == y;
  }

  /** Every initial bundle with a register is allocated or spilled, and only once. */
  lemma AllocatedOrSpilledOnce(l: Layout, x: Bundle, v: VirtualReg)
    requires Placed(l) && x in l.initial && v in RegsOf(x)
    ensures Count(BundlesOf(l.allocs), x) + Count(l.spilled, x) == 1
  {
    InitialIsGood(l, x);
    Balance(l, x);
    CountPositive(BornAll(l.fx.f, l.spilled, l.base), x);
    NoneBornEvictable(l.fx.f, l.spilled, l.base, x);
    CountPositive(l.initial, x);
    forall j, k | 0 <= j < k < |l.initial|
      ensures l.initial[j] != x || l.initial[k] != x
    {
      assert Separate(l.initial[j], l.initial[k]);
    }
    CountAtMostOne(l.initial, x);
  }

  lemma OneAlloc(l: Layout, a: nat, b: nat, v: VirtualReg)
    requires Placed(l) && a < |l.allocs| && b < |l.allocs|
    requires l.allocs[a].bundle.evictable && l.allocs[b].bundle.evictable
    requires v in RegsOf(l.allocs[a].bundle) && v in RegsOf(l.allocs[b].bundle)
    ensures a == b
  {
    var x := l.allocs[a].bundle;
    EvictableAllocIsInitial(l, a);
    EvictableAllocIsInitial(l, b);
    OneOwner(l, x, l.allocs[b].bundle, v);
    AllocatedOrSpilledOnce(l, x, v);
    BundlesOfAllocs(l.allocs);
    if a < b { CountAtLeastTwo(BundlesOf(l.allocs), a, b, x); }
    if b < a { CountAtLeastTwo(BundlesOf(l.allocs), b, a, x); }
  }

  lemma OneSpill(l: Layout, j: nat, k: nat, v: VirtualReg)
    requires Placed(l) && j < |l.spilled| && k < |l.spilled|
    requires v in RegsOf(l.spilled[j]) && v in RegsOf(l.spilled[k])
    ensures j == k
  {
    SpilledIsInitial(l, j);
    SpilledIsInitial(l, k);
    OneOwner(l, l.spilled[j], l.spilled[k], v);
    AllocatedOrSpilledOnce(l, l.spilled[j], v);
    if j < k { CountAtLeastTwo(l.spilled, j, k, l.spilled[j]); }
    if k < j { CountAtLeastTwo(l.spilled, k, j, l.spilled[j]); }
  }

  lemma AllocatedIsNotSpilled(l: Layout, a: nat, j: nat, v: VirtualReg)
    requires Placed(l) && HoldsReg(l, a, v)
    ensures !SpilledReg(l, j, v)
  {
    if SpilledReg(l, j, v) {
      var x := l.spilled[j];
      SpilledIsInitial(l, j);
      EvictableAllocIsInitial(l, a);
      OneOwner(l, x, l.allocs[a].bundle, v);
      AllocatedOrSpilledOnce(l, x, v);
      BundlesOfAllocs(l.allocs);
      assert BundlesOf(l.allocs)[a] == x;
      CountPositive(BundlesOf(l.allocs), x);
      CountPositive(l.spilled, x);
    }
  }

  lemma NotInitialCounts(l: Layout, x: Bundle)
    requires Settled(l) && !x.evictable
    ensures Count(BundlesOf(l.allocs), x) == Count(BornAll(l.fx.f, l.spilled, l.base), x)
  {
    Balance(l, x);
    CountPositive(l.initial, x);
    if x in l.initial { InitialIsGood(l, x); }
    CountPositive(l.spilled, x);
  }

  ghost predicate IsAllocated(l: Layout, x: Bundle) {
    exists a :: 0 <= a < |l.allocs| && l.allocs[a].bundle == x
  }

  lemma AllocatedCounts(l: Layout, x: Bundle)
    ensures Count(BundlesOf(l.allocs), x) > 0 <==> IsAllocated(l, x)
  {
    CountPositive(BundlesOf(l.allocs), x);
    BundlesOfAllocs(l.allocs);
    if x in BundlesOf(l.allocs) {
      var a :| 0 <= a < |l.allocs| && BundlesOf(l.allocs)[a] == x;
    }
    if a :| 0 <= a < |l.allocs| && l.allocs[a].bundle == x {
      assert BundlesOf(l.allocs)[a] == x;
    }
  }

  /** The unevictable allocations are those of the bundles born of spills. */
  lemma UnevictableIsBorn(l: Layout, x: Bundle)
    requires Settled(l) && !x.evictable
    ensures IsAllocated(l, x) <==> BornForSome(l.fx.f, l.spilled, l.base, x)
  {
    NotInitialCounts(l, x);
    AllocatedCounts(l, x);
    CountPositive(BornAll(l.fx.f, l.spilled, l.base), x);
    BornAllAre(l.fx.f, l.spilled, l.base, x);
  }

  lemma AllSpillable(l: Layout)
    requires Settled(l)
    ensures forall j | 0 <= j < |l.spilled| :: Spillable(l.fx.f, l.spilled[j])
  {
    forall j | 0 <= j < |l.spilled|
      ensures Spillable(l.fx.f, l.spilled[j])
    {
      SpilledIsSpillable(l, j);
    }
  }

  lemma BornAllocIsBorn(l: Layout, a: nat)
    requires Settled(l) && a < |l.allocs| && !l.allocs[a].bundle.evictable
    ensures BornForSome(l.fx.f, l.spilled, l.base, l.allocs[a].bundle)
  {
    UnevictableIsBorn(l, l.allocs[a].bundle);
  }

  /** The spill, segment and operand an unevictable allocation was born of. */
  lemma BornAllocOrigin(l: Layout, a: nat) returns (j: nat, k: nat, i: nat, op: nat)
    requires Settled(l) && a < |l.allocs| && !l.allocs[a].bundle.evictable
    ensures OriginAt(l.fx.f, l.spilled, l.base, l.allocs[a].bundle, j, k, i, op)
  {
    AllSpillable(l);
    BornAllocIsBorn(l, a);
    j, k, i, op := OriginOf(l.fx.f, l.spilled, l.base, l.allocs[a].bundle);
  }

  /** Every bundle born of a spill has been allocated. */
  lemma BornIsAllocated(l: Layout, j: nat, x: Bundle)
    requires Settled(l) && j < |l.spilled| && BornFor(l.fx.f, l.spilled[j], l.base + j, x)
    ensures IsAllocated(l, x)
  {
    BornIsBornForSome(l.fx.f, l.spilled, l.base, j, x);
    BornIsAllocatedIf(l, x);
  }

  lemma BornIsBornForSome(f: Func, spilled: seq<Bundle>, base: StackSlotID, j: nat, x: Bundle)
    requires j < |spilled| && BornFor(f, spilled[j], base + j, x)
    ensures BornForSome(f, spilled, base, x) && !x.evictable
  {
    BornIsUnevictable(f, spilled[j], base + j, x);
  }

  lemma BornIsAllocatedIf(l: Layout, x: Bundle)
    ensures Settled(l) && !x.evictable && BornForSome(l.fx.f, l.spilled, l.base, x) ==> IsAllocated(l, x)
  {
    if Settled(l) && !x.evictable { UnevictableIsBorn(l, x); }
  }

  /** A bundle that stores to a slot has one allocation. */
  lemma OneStoringAlloc(l: Layout, a: nat, b: nat)
    requires Placed(l) && a < |l.allocs| && b < |l.allocs|
    requires l.allocs[a].bundle == l.allocs[b].bundle && l.allocs[a].bundle.dstStackSlot.Some?
    requires !l.allocs[a].bundle.evictable
    ensures a == b
  {
    var x := l.allocs[a].bundle;
    AllSpillable(l);
    BornAllOnce(l.fx.f, l.spilled, l.base, x);
    NotInitialCounts(l, x);
    BundlesOfAllocs(l.allocs);
    if a < b { CountAtLeastTwo(BundlesOf(l.allocs), a, b, x); }
    if b < a { CountAtLeastTwo(BundlesOf(l.allocs), b, a, x); }
  }

  // ---- Homes ----

  /** The register of the bundle that holds `v`, or the slot it was spilled to. */
  ghost function HomeFor(l: Layout, v: VirtualReg): Home {
    if a: nat :| HoldsReg(l, a, v) then InReg(l.allocs[a].physicalReg)
    else if j: nat :| SpilledReg(l, j, v) then InSlot(l.base + j)
    else Nowhere
  }

  ghost function Homes(l: Layout): map<VirtualReg, Home> {
    map r: Reg | r in AllRegs(l.fx.f) && r.Virtual? :: r.v := HomeFor(l, r.v)
  }

  lemma HomeOfAllocated(l: Layout, a: nat, v: VirtualReg)
    requires Placed(l) && HoldsReg(l, a, v)
    ensures HomeFor(l, v) == InReg(l.allocs[a].physicalReg)
  {
    forall b: nat | HoldsReg(l, b, v)
      ensures b == a
    {
      OneAlloc(l, a, b, v);
    }
  }

  lemma HomeOfSpilled(l: Layout, j: nat, v: VirtualReg)
    requires Placed(l) && SpilledReg(l, j, v)
    ensures HomeFor(l, v) == InSlot(l.base + j)
  {
    forall a: nat
      ensures !HoldsReg(l, a, v)
    {
      if HoldsReg(l, a, v) { AllocatedIsNotSpilled(l, a, j, v); }
    }
    forall k: nat | SpilledReg(l, k, v)
      ensures k == j
    {
      OneSpill(l, j, k, v);
    }
  }

  lemma HomeInReg(l: Layout, v: VirtualReg) returns (a: nat)
    requires HomeFor(l, v).InReg?
    ensures HoldsReg(l, a, v) && l.allocs[a].physicalReg == HomeFor(l, v).p
  {
    a :| HoldsReg(l, a, v) && l.allocs[a].physicalReg == HomeFor(l, v).p;
  }

  lemma HomeInSlot(l: Layout, v: VirtualReg) returns (j: nat)
    requires HomeFor(l, v).InSlot?
    ensures SpilledReg(l, j, v) && HomeFor(l, v).s == l.base + j
  {
    j :| SpilledReg(l, j, v) && HomeFor(l, v).s == l.base + j;
  }

  lemma SegmentHasOwner(l: Layout, s: Segment) returns (x: Bundle, k: nat)
    requires Placed(l) && s.range in RangesOf(l.fx.f, Virtual(s.reg))
    ensures x in l.initial && s.reg in RegsOf(x) && k < |x.segments| && x.segments[k] == s
  {
    SegmentsOfMember(l.initial, s);
    var n :| 0 <= n < |l.initial| && !l.initial[n].deleted && s in l.initial[n].segments;
    x := l.initial[n];
    k :| 0 <= k < |x.segments| && x.segments[k] == s;
  }

  /** An initial bundle holds its registers in one allocation, or was spilled. */
  lemma InitialIsPlaced(l: Layout, x: Bundle, v: VirtualReg)
    requires Placed(l) && x in l.initial && v in RegsOf(x)
    ensures (exists a: nat :: HoldsReg(l, a, v) && l.allocs[a].bundle == x) || (exists j: nat :: SpilledReg(l, j, v) && l.spilled[j] == x)
  {
    AllocatedOrSpilledOnce(l, x, v);
    InitialIsGood(l, x);
    AllocatedCounts(l, x);
    CountPositive(l.spilled, x);
    if Count(BundlesOf(l.allocs), x) > 0 {
      var a :| 0 <= a < |l.allocs| && l.allocs[a].bundle == x;
      assert HoldsReg(l, a, v);
    } else {
      var j :| 0 <= j < |l.spilled| && l.spilled[j] == x;
      assert SpilledReg(l, j, v);
    }
  }
}
