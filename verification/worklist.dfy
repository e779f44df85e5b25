/**
  The allocation worklist as a transition system: a popped bundle is assigned, evicts an existing allocation, or is
  spilled (src/banjo/codegen/reg_alloc_pass.cpp, alloc_bundle and its helpers).
 */
module Worklist {
  import opened RegAllocFunc
  import opened FuncRanges
  import opened Bundles

  /** What the target tells the allocator. */
  datatype Analyzer = Analyzer(
    candidates: RegClass -> seq<PhysicalReg>,
    suggest: seq<Segment> -> seq<PhysicalReg>,
    regClasses: VirtualReg -> RegClass,
    isMoveFrom: (Instr, VirtualReg) -> bool)

  /** The fixed part of the allocator's context; `reserved` holds the reserved segments of each block. */
  datatype Fixed = Fixed(f: Func, reserved: seq<seq<ReservedSegment>>, analyzer: Analyzer)

  datatype Ctx = Ctx(bundles: seq<Bundle>, allocs: seq<Alloc>, nextSlot: StackSlotID)

  // ---- Assigning ----

  ghost predicate MeetsReserved(reserved: seq<seq<ReservedSegment>>, b: Bundle, p: PhysicalReg) {
    exists k, l :: 0 <= k < |b.segments| && b.segments[k].range.block < |reserved|
                   && 0 <= l < |reserved[b.segments[k].range.block]|
                   && reserved[b.segments[k].range.block][l].reg == p
                   && b.segments[k].range.Intersects(reserved[b.segments[k].range.block][l].range)
  }

  ghost predicate MeetsAlloc(allocs: seq<Alloc>, b: Bundle, p: PhysicalReg) {
    exists k :: 0 <= k < |allocs| && allocs[k].physicalReg == p && Clash(allocs[k].bundle, b)
  }

  ghost predicate AllocPossible(fx: Fixed, allocs: seq<Alloc>, b: Bundle, p: PhysicalReg) {
    !MeetsReserved(fx.reserved, b, p) && !MeetsAlloc(allocs, b, p)
  }

  /** The first register of the list that is free wherever the bundle needs it. */
  ghost function FirstPossible(fx: Fixed, allocs: seq<Alloc>, b: Bundle, regs: seq<PhysicalReg>): Option<PhysicalReg> {
    if regs == [] then None
    else if AllocPossible(fx, allocs, b, regs[0]) then Some(regs[0])
    else FirstPossible(fx, allocs, b, regs[1..])
  }

  ghost function ChosenReg(fx: Fixed, allocs: seq<Alloc>, b: Bundle): Option<PhysicalReg> {
    var suggested := FirstPossible(fx, allocs, b, fx.analyzer.suggest(b.segments));
    if suggested.Some? then suggested else FirstPossible(fx, allocs, b, fx.analyzer.candidates(b.regClass))
  }

  // ---- Evicting ----

  ghost predicate InsideSegments(range: LiveRange, outer: Bundle) {
    exists l :: 0 <= l < |outer.segments| && outer.segments[l].range.Contains(range)
  }

  ghost predicate Inside(b: Bundle, outer: Bundle) {
    forall k | 0 <= k < |b.segments| :: InsideSegments(b.segments[k].range, outer)
  }

  ghost predicate CanEvict(b: Bundle, alloc: Alloc) {
    alloc.bundle.evictable && alloc.bundle.regClass == b.regClass && Inside(b, alloc.bundle)
  }

  ghost function FirstEvictable(allocs: seq<Alloc>, b: Bundle, k: nat): Option<nat>
    requires k <= |allocs|
    decreases |allocs| - k
  {
    if k == |allocs| then None
    else if CanEvict(b, allocs[k]) then Some(k)
    else FirstEvictable(allocs, b, k + 1)
  }

  ghost function Victim(allocs: seq<Alloc>, b: Bundle): Option<nat> {
    if b.evictable then None else FirstEvictable(allocs, b, 0)
  }

  // ---- Spilling ----

  /** The bundle that stands for one operand of a spilled register. */
  function BornBundle(block: nat, instr: nat, v: VirtualReg, u: Usage, c: RegClass, slot: StackSlotID): Bundle
    requires u != Kill
  {
    match u
    case Def =>
      Bundle([Segment(v, LiveRange(block, Point(instr, 1), Point(instr, 1)))], c, false, None, Some(slot))
    case Use =>
      Bundle([Segment(v, LiveRange(block, Point(instr, 0), Point(instr, 0)))], c, false, Some(slot), None)
    case UseDef =>
      Bundle([Segment(v, LiveRange(block, Point(instr, 0), Point(instr, 1)))], c, false, Some(slot), Some(slot))
  }

  function BornOfOps(block: nat, instr: nat, ops: seq<RegOp>, v: VirtualReg, c: RegClass, slot: StackSlotID, k: nat): seq<Bundle>
    requires k <= |ops|
  {
    if k == 0 then []
    else
      BornOfOps(block, instr, ops, v, c, slot, k - 1) +
      if ops[k - 1].reg == Virtual(v) && ops[k - 1].usage != Kill
      then [BornBundle(block, instr, v, ops[k - 1].usage, c, slot)] else []
  }

  /** Instructions `lo` up to but not including `hi`. */
  function BornOfInstrs(block: nat, instrs: seq<Instr>, v: VirtualReg, c: RegClass, slot: StackSlotID, lo: nat, hi: nat): seq<Bundle>
    requires lo <= hi <= |instrs|
  {
    if lo == hi then []
    else
      BornOfInstrs(block, instrs, v, c, slot, lo, hi - 1) +
      BornOfOps(block, hi - 1, instrs[hi - 1].regs, v, c, slot, |instrs[hi - 1].regs|)
  }

  function BornOfSegment(f: Func, s: Segment, c: RegClass, slot: StackSlotID): seq<Bundle> {
    var range := s.range;
    if range.block < |f.blocks| && range.start.instr <= range.end.instr < |f.blocks[range.block].instrs| then
      BornOfInstrs(range.block, f.blocks[range.block].instrs, s.reg, c, slot, range.start.instr, range.end.instr + 1)
    else []
  }

  function BornOf(f: Func, b: Bundle, slot: StackSlotID, k: nat): seq<Bundle>
    requires k <= |b.segments|
  {
    if k == 0 then [] else BornOf(f, b, slot, k - 1) + BornOfSegment(f, b.segments[k - 1], b.regClass, slot)
  }

  function Born(f: Func, b: Bundle, slot: StackSlotID): seq<Bundle> {
    BornOf(f, b, slot, |b.segments|)
  }

  // ---- The step ----

  ghost function AllocBundle(fx: Fixed, s: Ctx, b: Bundle): Ctx {
    var reg := ChosenReg(fx, s.allocs, b);
    var victim := Victim(s.allocs, b);
    if reg.Some? then
      s.(allocs := s.allocs + [Alloc(reg.value, b)])
    else if victim.Some? && victim.value < |s.allocs| then
      s.(bundles := s.bundles + [s.allocs[victim.value].bundle],
         allocs := s.allocs[victim.value := s.allocs[victim.value].(bundle := b)])
    else
      s.(bundles := s.bundles + Born(fx.f, b, s.nextSlot), nextSlot := s.nextSlot + 1)
  }

  function Remove<T>(q: seq<T>, k: nat): seq<T>
    requires k < |q|
  {
    q[..k] + q[k + 1..]
  }

  /** Popping entry `k` of the queue and allocating it. */
  ghost function StepAt(fx: Fixed, s: Ctx, k: nat): Ctx
    requires k < |s.bundles|
  {
    AllocBundle(fx, s.(bundles := Remove(s.bundles, k)), s.bundles[k])
  }

  ghost predicate Step(fx: Fixed, s: Ctx, s': Ctx) {
    exists k :: 0 <= k < |s.bundles| && s' == StepAt(fx, s, k)
  }

  ghost predicate Run(fx: Fixed, run: seq<Ctx>) {
    |run| > 0 && forall k :: 0 <= k < |run| - 1 ==> Step(fx, run[k], run[k + 1])
  }

  ghost predicate ReachableCtx(fx: Fixed, s0: Ctx, s: Ctx) {
    exists run :: Run(fx, run) && run[0] == s0 && run[|run| - 1] == s
  }

  /** Every bundle born of a spill that waits in the queue can be assigned or can evict. */
  ghost predicate NoBornBundleStuck(fx: Fixed, s: Ctx) {
    forall k | 0 <= k < |s.bundles| ::
      !s.bundles[k].evictable ==> ChosenReg(fx, s.allocs, s.bundles[k]).Some? || Victim(s.allocs, s.bundles[k]).Some?
  }

  // ---- Safety ----

  /** The bundle holds ranges of registers of its class. */
  ghost predicate OfClass(regClasses: VirtualReg -> RegClass, b: Bundle) {
    forall k | 0 <= k < |b.segments| :: regClasses(b.segments[k].reg) == b.regClass
  }

  /** The segment is a range of its register, or the part of an instruction in which one of its operands needs it. */
  ghost predicate Occurs(f: Func, s: Segment) {
    s.range in RangesOf(f, Virtual(s.reg)) || exists i: nat, j: nat :: IsOperandRange(f, s, i, j)
  }

  ghost predicate IsOperandRange(f: Func, s: Segment, i: nat, j: nat) {
    var b := s.range.block;
    && b < |f.blocks| && i < |f.blocks[b].instrs| && j < |f.blocks[b].instrs[i].regs|
    && f.blocks[b].instrs[i].regs[j].reg == Virtual(s.reg) && f.blocks[b].instrs[i].regs[j].usage != Kill
    && BornBundle(b, i, s.reg, f.blocks[b].instrs[i].regs[j].usage, 0, 0).segments == [s]
  }

  ghost predicate Occurring(fx: Fixed, b: Bundle) {
    OfClass(fx.analyzer.regClasses, b) && forall k | 0 <= k < |b.segments| :: Occurs(fx.f, b.segments[k])
  }

  /**
    Candidates are legal for their class. So are suggestions for the class of the registers they are made for, unless the
    suggested register is in use where they need it.
   */
  ghost predicate LegalRegs(fx: Fixed, legal: (RegClass, PhysicalReg) -> bool) {
    && (forall c, p :: p in fx.analyzer.candidates(c) ==> legal(c, p))
    && forall b: Bundle, p :: Occurring(fx, b) && p in fx.analyzer.suggest(b.segments) ==>
         legal(b.regClass, p) || MeetsReserved(fx.reserved, b, p)
  }

  ghost predicate SafeAlloc(fx: Fixed, legal: (RegClass, PhysicalReg) -> bool, a: Alloc) {
    !MeetsReserved(fx.reserved, a.bundle, a.physicalReg) && legal(a.bundle.regClass, a.physicalReg)
  }

  ghost predicate Apart(a: Alloc, b: Alloc) {
    a.physicalReg == b.physicalReg ==> !Clash(a.bundle, b.bundle)
  }

  ghost predicate AllApart(allocs: seq<Alloc>) {
    forall j, k :: 0 <= j < k < |allocs| ==> Apart(allocs[j], allocs[k])
  }

  ghost predicate WellShaped(b: Bundle) {
    InternallyDisjoint(b) && forall k | 0 <= k < |b.segments| :: b.segments[k].range.WellFormed()
  }

  ghost predicate Fit(fx: Fixed, b: Bundle) {
    WellShaped(b) && Occurring(fx, b)
  }

  /** No register holds two things at once, no reserved segment is touched, every register fits its class. */
  ghost predicate Safe(fx: Fixed, legal: (RegClass, PhysicalReg) -> bool, s: Ctx) {
    && AllApart(s.allocs)
    && (forall k | 0 <= k < |s.allocs| :: SafeAlloc(fx, legal, s.allocs[k]) && Fit(fx, s.allocs[k].bundle))
    && forall k | 0 <= k < |s.bundles| :: Fit(fx, s.bundles[k])
  }

  lemma {:induction false} FirstPossibleIsPossible(fx: Fixed, allocs: seq<Alloc>, b: Bundle, regs: seq<PhysicalReg>)
    ensures var r := FirstPossible(fx, allocs, b, regs);
            && (r.Some? ==> r.value in regs && AllocPossible(fx, allocs, b, r.value))
            && (r.None? ==> forall p :: p in regs ==> !AllocPossible(fx, allocs, b, p))
  {
    if regs != [] { FirstPossibleIsPossible(fx, allocs, b, regs[1..]); }
  }

  lemma ChosenRegIsLegal(fx: Fixed, legal: (RegClass, PhysicalReg) -> bool, allocs: seq<Alloc>, b: Bundle)
    requires LegalRegs(fx, legal) && Occurring(fx, b) && ChosenReg(fx, allocs, b).Some?
    ensures var p := ChosenReg(fx, allocs, b).value; AllocPossible(fx, allocs, b, p) && legal(b.regClass, p)
  {
    FirstPossibleIsPossible(fx, allocs, b, fx.analyzer.suggest(b.segments));
    FirstPossibleIsPossible(fx, allocs, b, fx.analyzer.candidates(b.regClass));
  }

  lemma {:induction false} FirstEvictableCanBeEvicted(allocs: seq<Alloc>, b: Bundle, k: nat)
    requires k <= |allocs|
    ensures var v := FirstEvictable(allocs, b, k);
            && (v.Some? ==> k <= v.value < |allocs| && CanEvict(b, allocs[v.value]))
            && (v.None? ==> forall j :: k <= j < |allocs| ==> !CanEvict(b, allocs[j]))
    decreases |allocs| - k
  {
    if k < |allocs| { FirstEvictableCanBeEvicted(allocs, b, k + 1); }
  }

  lemma ClashSymmetric(a: Bundle, b: Bundle)
    ensures Clash(a, b) <==> Clash(b, a)
  {
    if Clash(a, b) {
      var j, k :| 0 <= j < |a.segments| && 0 <= k < |b.segments| && a.segments[j].range.Intersects(b.segments[k].range);
      assert b.segments[k].range.Intersects(a.segments[j].range);
    }
    if Clash(b, a) {
      var j, k :| 0 <= j < |b.segments| && 0 <= k < |a.segments| && b.segments[j].range.Intersects(a.segments[k].range);
      assert a.segments[k].range.Intersects(b.segments[j].range);
    }
  }

  /** A bundle inside another one clashes with nothing the other does not clash with. */
  lemma InsideClashesLess(b: Bundle, outer: Bundle, other: Bundle)
    requires Inside(b, outer) && Clash(b, other)
    requires WellShaped(b)
    ensures Clash(outer, other)
  {
    var j, k :| 0 <= j < |b.segments| && 0 <= k < |other.segments| && b.segments[j].range.Intersects(other.segments[k].range);
    var l :| 0 <= l < |outer.segments| && outer.segments[l].range.Contains(b.segments[j].range);
    assert outer.segments[l].range.Intersects(other.segments[k].range);
  }

  lemma InsideMeetsLess(reserved: seq<seq<ReservedSegment>>, b: Bundle, outer: Bundle, p: PhysicalReg)
    requires Inside(b, outer) && MeetsReserved(reserved, b, p)
    ensures MeetsReserved(reserved, outer, p)
  {
    var k, l :| 0 <= k < |b.segments| && b.segments[k].range.block < |reserved|
      && 0 <= l < |reserved[b.segments[k].range.block]|
      && reserved[b.segments[k].range.block][l].reg == p
      && b.segments[k].range.Intersects(reserved[b.segments[k].range.block][l].range);
    var m :| 0 <= m < |outer.segments| && outer.segments[m].range.Contains(b.segments[k].range);
    assert outer.segments[m].range.Intersects(reserved[outer.segments[m].range.block][l].range);
  }

  lemma AssignKeepsSafe(fx: Fixed, legal: (RegClass, PhysicalReg) -> bool, s: Ctx, b: Bundle, p: PhysicalReg)
    requires Safe(fx, legal, s) && Fit(fx, b) && AllocPossible(fx, s.allocs, b, p) && legal(b.regClass, p)
    ensures Safe(fx, legal, s.(allocs := s.allocs + [Alloc(p, b)]))
  {
    forall k | 0 <= k < |s.allocs|
      ensures Apart(s.allocs[k], Alloc(p, b))
    {
    }
  }

  /** Eviction is safe because the new segments lie inside those of the allocation they replace. */
  lemma EvictKeepsSafe(fx: Fixed, legal: (RegClass, PhysicalReg) -> bool, s: Ctx, b: Bundle, v: nat)
    requires Safe(fx, legal, s) && Fit(fx, b) && v < |s.allocs| && CanEvict(b, s.allocs[v])
    ensures Safe(fx, legal, s.(bundles := s.bundles + [s.allocs[v].bundle], allocs := s.allocs[v := s.allocs[v].(bundle := b)]))
  {
    var outer := s.allocs[v];
    var inner := outer.(bundle := b);
    forall k | 0 <= k < |s.allocs| && k != v
      ensures k < v ==> Apart(s.allocs[k], inner)
      ensures v < k ==> Apart(inner, s.allocs[k])
    {
      if k < v { assert Apart(s.allocs[k], outer); } else { assert Apart(outer, s.allocs[k]); }
      ClashSymmetric(s.allocs[k].bundle, outer.bundle);
      ClashSymmetric(s.allocs[k].bundle, b);
      if Clash(b, s.allocs[k].bundle) { InsideClashesLess(b, outer.bundle, s.allocs[k].bundle); }
    }
    if MeetsReserved(fx.reserved, b, outer.physicalReg) {
      InsideMeetsLess(fx.reserved, b, outer.bundle, outer.physicalReg);
    }
  }

  lemma {:induction false} BornOfOpsAre(block: nat, instr: nat, ops: seq<RegOp>, v: VirtualReg, c: RegClass, slot: StackSlotID,
                                        k: nat, x: Bundle)
    requires k <= |ops|
    ensures x in BornOfOps(block, instr, ops, v, c, slot, k) <==>
            exists j :: 0 <= j < k && ops[j].reg == Virtual(v) && ops[j].usage != Kill
                        && x == BornBundle(block, instr, v, ops[j].usage, c, slot)
  {
    if k > 0 { BornOfOpsAre(block, instr, ops, v, c, slot, k - 1, x); }
  }

  /** `x` stands for operand `(i, j)` of block `b`. */
  ghost predicate BornFrom(f: Func, v: VirtualReg, c: RegClass, slot: StackSlotID, b: nat, i: nat, j: nat, x: Bundle) {
    && b < |f.blocks| && i < |f.blocks[b].instrs| && j < |f.blocks[b].instrs[i].regs|
    && f.blocks[b].instrs[i].regs[j].reg == Virtual(v) && f.blocks[b].instrs[i].regs[j].usage != Kill
    && x == BornBundle(b, i, v, f.blocks[b].instrs[i].regs[j].usage, c, slot)
  }

  /** `x` stands for an operand of one of the instructions. */
  ghost predicate BornBetween(f: Func, v: VirtualReg, c: RegClass, slot: StackSlotID, b: nat, lo: nat, hi: nat, x: Bundle) {
    exists i: nat, j: nat :: lo <= i < hi && BornFrom(f, v, c, slot, b, i, j, x)
  }

  lemma BornAtLast(f: Func, v: VirtualReg, c: RegClass, slot: StackSlotID, b: nat, lo: nat, hi: nat, x: Bundle)
    requires b < |f.blocks| && lo < hi <= |f.blocks[b].instrs|
    ensures var ops := f.blocks[b].instrs[hi - 1].regs;
            BornBetween(f, v, c, slot, b, lo, hi, x) <==>
            BornBetween(f, v, c, slot, b, lo, hi - 1, x) || x in BornOfOps(b, hi - 1, ops, v, c, slot, |ops|)
  {
    var ops := f.blocks[b].instrs[hi - 1].regs;
    BornOfOpsAre(b, hi - 1, ops, v, c, slot, |ops|, x);
    if x in BornOfOps(b, hi - 1, ops, v, c, slot, |ops|) {
      var j :| 0 <= j < |ops| && ops[j].reg == Virtual(v) && ops[j].usage != Kill && x == BornBundle(b, hi - 1, v, ops[j].usage, c, slot);
      assert BornFrom(f, v, c, slot, b, hi - 1, j, x);
    }
  }

  lemma {:induction false} BornOfInstrsAre(f: Func, b: nat, v: VirtualReg, c: RegClass, slot: StackSlotID, lo: nat, hi: nat, x: Bundle)
    requires b < |f.blocks| && lo <= hi <= |f.blocks[b].instrs|
    ensures x in BornOfInstrs(b, f.blocks[b].instrs, v, c, slot, lo, hi) <==> BornBetween(f, v, c, slot, b, lo, hi, x)
    decreases hi
  {
    if lo < hi {
      BornOfInstrsAre(f, b, v, c, slot, lo, hi - 1, x);
      BornAtLast(f, v, c, slot, b, lo, hi, x);
    }
  }

  /** `x` stands for an operand inside segment `s`. */
  ghost predicate BornInSegment(f: Func, s: Segment, c: RegClass, slot: StackSlotID, x: Bundle) {
    exists i: nat, j: nat :: s.range.start.instr <= i <= s.range.end.instr && BornFrom(f, s.reg, c, slot, s.range.block, i, j, x)
  }

  lemma BornOfSegmentAre(f: Func, s: Segment, c: RegClass, slot: StackSlotID, x: Bundle)
    requires s.range.block < |f.blocks| && s.range.end.instr < |f.blocks[s.range.block].instrs|
    ensures x in BornOfSegment(f, s, c, slot) <==> BornInSegment(f, s, c, slot, x)
  {
    if s.range.start.instr <= s.range.end.instr {
      BornOfInstrsAre(f, s.range.block, s.reg, c, slot, s.range.start.instr, s.range.end.instr + 1, x);
    }
  }

  /** One of the first `n` segments has it. */
  ghost predicate BornInOne(f: Func, b: Bundle, slot: StackSlotID, n: nat, x: Bundle)
    requires n <= |b.segments|
  {
    exists k :: 0 <= k < n && BornInSegment(f, b.segments[k], b.regClass, slot, x)
  }

  lemma BornInLast(f: Func, b: Bundle, slot: StackSlotID, n: nat, x: Bundle)
    requires 0 < n <= |b.segments| && InFunc(f, b)
    ensures BornInOne(f, b, slot, n, x) <==>
            BornInOne(f, b, slot, n - 1, x) || x in BornOfSegment(f, b.segments[n - 1], b.regClass, slot)
  {
    BornOfSegmentAre(f, b.segments[n - 1], b.regClass, slot, x);
  }

  /** The bundles born of a spill are those that stand for an operand inside a spilled segment. */
  lemma {:induction false} BornOfAre(f: Func, b: Bundle, slot: StackSlotID, n: nat, x: Bundle)
    requires n <= |b.segments| && InFunc(f, b)
    ensures x in BornOf(f, b, slot, n) <==> BornInOne(f, b, slot, n, x)
  {
    if n > 0 {
      BornOfAre(f, b, slot, n - 1, x);
      BornInLast(f, b, slot, n, x);
    }
  }

  lemma BornBundleShape(block: nat, instr: nat, v: VirtualReg, u: Usage, c: RegClass, slot: StackSlotID)
    requires u != Kill
    ensures var x := BornBundle(block, instr, v, u, c, slot);
            && WellShaped(x) && !x.evictable && x.regClass == c && |x.segments| == 1 && x.segments[0].reg == v
            && x.segments[0].range.block == block && x.segments[0].range.start.instr == x.segments[0].range.end.instr == instr
  {
  }

  /** Bundles born of a spill are small and may not be evicted. */
  lemma BornAreUnevictable(f: Func, b: Bundle, slot: StackSlotID, x: Bundle)
    requires InFunc(f, b) && x in Born(f, b, slot)
    ensures !x.evictable && WellShaped(x) && InFunc(f, x)
  {
    BornOfAre(f, b, slot, |b.segments|, x);
    var k :| 0 <= k < |b.segments| && BornInSegment(f, b.segments[k], b.regClass, slot, x);
    var s := b.segments[k];
    var i: nat, j: nat :| s.range.start.instr <= i <= s.range.end.instr
      && BornFrom(f, s.reg, b.regClass, slot, s.range.block, i, j, x);
    BornBundleShape(s.range.block, i, s.reg, f.blocks[s.range.block].instrs[i].regs[j].usage, b.regClass, slot);
  }

  /** What stands for an operand of a register is of the register's class. */
  lemma BornFromIsFit(fx: Fixed, v: VirtualReg, c: RegClass, slot: StackSlotID, b: nat, i: nat, j: nat, x: Bundle)
    requires BornFrom(fx.f, v, c, slot, b, i, j, x) && fx.analyzer.regClasses(v) == c
    ensures Fit(fx, x)
  {
    BornBundleShape(b, i, v, fx.f.blocks[b].instrs[i].regs[j].usage, c, slot);
    assert IsOperandRange(fx.f, x.segments[0], i, j);
  }

  lemma BornInSegmentIsFit(fx: Fixed, s: Segment, c: RegClass, slot: StackSlotID, x: Bundle)
    requires BornInSegment(fx.f, s, c, slot, x) && fx.analyzer.regClasses(s.reg) == c
    ensures Fit(fx, x)
  {
    var i: nat, j: nat :| s.range.start.instr <= i <= s.range.end.instr && BornFrom(fx.f, s.reg, c, slot, s.range.block, i, j, x);
    BornFromIsFit(fx, s.reg, c, slot, s.range.block, i, j, x);
  }

  /** They are of the class of the bundle that was spilled, and stand for operands. */
  lemma BornAreFit(fx: Fixed, b: Bundle, slot: StackSlotID, x: Bundle)
    requires InFunc(fx.f, b) && Occurring(fx, b) && x in Born(fx.f, b, slot)
    ensures Fit(fx, x) && InFunc(fx.f, x)
  {
    BornAreUnevictable(fx.f, b, slot, x);
    BornOfAre(fx.f, b, slot, |b.segments|, x);
    var k :| 0 <= k < |b.segments| && BornInSegment(fx.f, b.segments[k], b.regClass, slot, x);
    BornInSegmentIsFit(fx, b.segments[k], b.regClass, slot, x);
  }

  /** The bundles in play lie inside the function. */
  ghost predicate CtxInFunc(f: Func, s: Ctx) {
    && (forall k | 0 <= k < |s.bundles| :: InFunc(f, s.bundles[k]))
    && forall k | 0 <= k < |s.allocs| :: InFunc(f, s.allocs[k].bundle)
  }

  lemma SpillKeepsSafe(fx: Fixed, legal: (RegClass, PhysicalReg) -> bool, s: Ctx, b: Bundle)
    requires Safe(fx, legal, s) && CtxInFunc(fx.f, s) && InFunc(fx.f, b) && Occurring(fx, b)
    ensures var s' := s.(bundles := s.bundles + Born(fx.f, b, s.nextSlot), nextSlot := s.nextSlot + 1);
            Safe(fx, legal, s') && CtxInFunc(fx.f, s')
  {
    var born := Born(fx.f, b, s.nextSlot);
    forall k | 0 <= k < |born|
      ensures Fit(fx, born[k]) && InFunc(fx.f, born[k])
    {
      BornAreFit(fx, b, s.nextSlot, born[k]);
    }
  }

  lemma AllocBundleKeepsSafe(fx: Fixed, legal: (RegClass, PhysicalReg) -> bool, s: Ctx, b: Bundle)
    requires LegalRegs(fx, legal)
    requires Safe(fx, legal, s) && CtxInFunc(fx.f, s) && Fit(fx, b) && InFunc(fx.f, b)
    ensures Safe(fx, legal, AllocBundle(fx, s, b)) && CtxInFunc(fx.f, AllocBundle(fx, s, b))
  {
    FirstEvictableCanBeEvicted(s.allocs, b, 0);
    if ChosenReg(fx, s.allocs, b).Some? {
      ChosenRegIsLegal(fx, legal, s.allocs, b);
      AssignKeepsSafe(fx, legal, s, b, ChosenReg(fx, s.allocs, b).value);
    } else if Victim(s.allocs, b).Some? {
      EvictKeepsSafe(fx, legal, s, b, Victim(s.allocs, b).value);
    } else {
      SpillKeepsSafe(fx, legal, s, b);
    }
  }

  /** Every step of the worklist, whichever bundle is popped, keeps the allocation safe. */
  lemma StepKeepsSafe(fx: Fixed, legal: (RegClass, PhysicalReg) -> bool, s: Ctx, s': Ctx)
    requires LegalRegs(fx, legal)
    requires Safe(fx, legal, s) && CtxInFunc(fx.f, s) && Step(fx, s, s')
    ensures Safe(fx, legal, s') && CtxInFunc(fx.f, s')
  {
    var k :| 0 <= k < |s.bundles| && s' == StepAt(fx, s, k);
    PoppedIsSafe(fx, legal, s, k);
    AllocBundleKeepsSafe(fx, legal, s.(bundles := Remove(s.bundles, k)), s.bundles[k]);
  }

  lemma PoppedIsSafe(fx: Fixed, legal: (RegClass, PhysicalReg) -> bool, s: Ctx, k: nat)
    requires Safe(fx, legal, s) && CtxInFunc(fx.f, s) && k < |s.bundles|
    ensures var popped := s.(bundles := Remove(s.bundles, k)); Safe(fx, legal, popped) && CtxInFunc(fx.f, popped)
    ensures Fit(fx, s.bundles[k]) && InFunc(fx.f, s.bundles[k])
  {
  }

  /** Every step keeps it. */
  ghost predicate StepsKeep(fx: Fixed, inv: Ctx -> bool) {
    forall s, s' :: inv(s) && Step(fx, s, s') ==> inv(s')
  }

  /** What every step keeps holds in every state of a run. */
  lemma {:induction false} RunKeeps(fx: Fixed, inv: Ctx -> bool, run: seq<Ctx>, k: nat)
    requires StepsKeep(fx, inv) && Run(fx, run) && k < |run| && inv(run[0])
    ensures inv(run[k])
  {
    if k > 0 {
      RunKeeps(fx, inv, run, k - 1);
      assert Step(fx, run[k - 1], run[k - 1 + 1]);
    }
  }

  /** Safety over whole runs. */
  lemma RunKeepsSafe(fx: Fixed, legal: (RegClass, PhysicalReg) -> bool, run: seq<Ctx>, k: nat)
    requires LegalRegs(fx, legal)
    requires Run(fx, run) && k < |run| && Safe(fx, legal, run[0]) && CtxInFunc(fx.f, run[0])
    ensures Safe(fx, legal, run[k]) && CtxInFunc(fx.f, run[k])
  {
    var inv: Ctx -> bool := s => Safe(fx, legal, s) && CtxInFunc(fx.f, s);
    forall s, s' | inv(s) && Step(fx, s, s')
      ensures inv(s')
    {
      StepKeepsSafe(fx, legal, s, s');
    }
    RunKeeps(fx, inv, run, k);
  }

  /** A bundle born of a spill keeps its register for good. */
  lemma BornAllocsStay(fx: Fixed, s: Ctx, s': Ctx, k: nat)
    requires Step(fx, s, s') && k < |s.allocs| && !s.allocs[k].bundle.evictable
    ensures k < |s'.allocs| && s'.allocs[k] == s.allocs[k]
  {
    var j :| 0 <= j < |s.bundles| && s' == StepAt(fx, s, j);
    FirstEvictableCanBeEvicted(s.allocs, s.bundles[j], 0);
  }

  // ---- Conservation ----

  function BundlesOf(allocs: seq<Alloc>): (q: seq<Bundle>)
    ensures |q| == |allocs|
  {
    if allocs == [] then [] else BundlesOf(allocs[..|allocs| - 1]) + [allocs[|allocs| - 1].bundle]
  }

  /** How often a bundle occurs in a sequence. */
  function Count(q: seq<Bundle>, x: Bundle): nat {
    if q == [] then 0 else (if q[|q| - 1] == x then 1 else 0) + Count(q[..|q| - 1], x)
  }

  lemma {:induction false} CountConcat(p: seq<Bundle>, q: seq<Bundle>, x: Bundle)
    ensures Count(p + q, x) == Count(p, x) + Count(q, x)
  {
    if q == [] {
      assert p + q == p;
    } else {
      assert (p + q)[..|p + q| - 1] == p + q[..|q| - 1];
      CountConcat(p, q[..|q| - 1], x);
    }
  }

  lemma CountRemove(q: seq<Bundle>, k: nat, x: Bundle)
    requires k < |q|
    ensures Count(Remove(q, k), x) + (if q[k] == x then 1 else 0) == Count(q, x)
  {
    CountConcat(q[..k], q[k + 1..], x);
    CountConcat(q[..k], [q[k]], x);
    CountConcat(q[..k] + [q[k]], q[k + 1..], x);
    assert q == q[..k] + [q[k]] + q[k + 1..];
    assert [q[k]][..0] == [];
  }

  lemma {:induction false} CountPositive(q: seq<Bundle>, x: Bundle)
    ensures Count(q, x) > 0 <==> x in q
  {
    if q != [] {
      CountPositive(q[..|q| - 1], x);
      assert q == q[..|q| - 1] + [q[|q| - 1]];
    }
  }

  lemma {:induction false} BundlesOfAllocs(allocs: seq<Alloc>)
    ensures |BundlesOf(allocs)| == |allocs|
    ensures forall k :: 0 <= k < |allocs| ==> BundlesOf(allocs)[k] == allocs[k].bundle
  {
    if allocs != [] { BundlesOfAllocs(allocs[..|allocs| - 1]); }
  }

  /** All bundles born of the spills so far; the `j`-th spill got slot `base + j`. */
  function BornAll(f: Func, spilled: seq<Bundle>, base: StackSlotID): seq<Bundle> {
    if spilled == [] then []
    else BornAll(f, spilled[..|spilled| - 1], base) + Born(f, spilled[|spilled| - 1], base + |spilled| - 1)
  }

  /** Queue, allocations and spilled bundles are exactly the initial bundles and those born of the spills. */
  ghost predicate Conserved(f: Func, s: Ctx, spilled: seq<Bundle>, base: StackSlotID, initial: seq<Bundle>) {
    && s.nextSlot == base + |spilled|
    && forall x {:trigger ConservedAt(f, s, spilled, base, initial, x)} :: ConservedAt(f, s, spilled, base, initial, x)
  }

  ghost predicate ConservedAt(f: Func, s: Ctx, spilled: seq<Bundle>, base: StackSlotID, initial: seq<Bundle>, x: Bundle) {
    Count(s.bundles, x) + Count(BundlesOf(s.allocs), x) + Count(spilled, x)
    == Count(initial, x) + Count(BornAll(f, spilled, base), x)
  }

  /** The bundles given up for good after `b` has been processed. */
  ghost function SpilledAfter(fx: Fixed, s: Ctx, b: Bundle, spilled: seq<Bundle>): seq<Bundle> {
    if ChosenReg(fx, s.allocs, b).None? && Victim(s.allocs, b).None? then spilled + [b] else spilled
  }

  lemma {:induction false} BundlesOfConcat(allocs: seq<Alloc>, a: Alloc)
    ensures BundlesOf(allocs + [a]) == BundlesOf(allocs) + [a.bundle]
  {
    assert (allocs + [a])[..|allocs|] == allocs;
  }

  lemma BundlesOfUpdate(allocs: seq<Alloc>, v: nat, b: Bundle)
    requires v < |allocs|
    ensures BundlesOf(allocs[v := allocs[v].(bundle := b)]) == BundlesOf(allocs)[..v] + [b] + BundlesOf(allocs)[v + 1..]
    ensures |BundlesOf(allocs)| == |allocs| && BundlesOf(allocs)[v] == allocs[v].bundle
  {
    BundlesOfAllocs(allocs);
    BundlesOfAllocs(allocs[v := allocs[v].(bundle := b)]);
  }

  lemma CountAround(q: seq<Bundle>, k: nat, b: Bundle, x: Bundle)
    requires k < |q|
    ensures Count(q[..k] + [b] + q[k + 1..], x) == Count(q[..k], x) + Count([b], x) + Count(q[k + 1..], x)
  {
    CountConcat(q[..k], [b], x);
    CountConcat(q[..k] + [b], q[k + 1..], x);
  }

  lemma CountReplace(q: seq<Bundle>, k: nat, b: Bundle, x: Bundle)
    requires k < |q|
    ensures Count(q[..k] + [b] + q[k + 1..], x) + Count([q[k]], x) == Count(q, x) + Count([b], x)
  {
    CountAround(q, k, b, x);
    CountAround(q, k, q[k], x);
    assert q == q[..k] + [q[k]] + q[k + 1..];
  }

  lemma CountOne(b: Bundle, x: Bundle)
    ensures Count([b], x) == if b == x then 1 else 0
  {
    assert [b][..0] == [];
  }

  lemma AssignConserves(allocs: seq<Alloc>, a: Alloc, x: Bundle)
    ensures Count(BundlesOf(allocs + [a]), x) == Count(BundlesOf(allocs), x) + if a.bundle == x then 1 else 0
  {
    BundlesOfConcat(allocs, a);
    CountConcat(BundlesOf(allocs), [a.bundle], x);
    CountOne(a.bundle, x);
  }

  lemma EvictConserves(allocs: seq<Alloc>, v: nat, b: Bundle, q: seq<Bundle>, x: Bundle)
    requires v < |allocs|
    ensures Count(BundlesOf(allocs[v := allocs[v].(bundle := b)]), x) + Count(q + [allocs[v].bundle], x)
         == Count(BundlesOf(allocs), x) + Count(q, x) + if b == x then 1 else 0
  {
    BundlesOfUpdate(allocs, v, b);
    CountReplace(BundlesOf(allocs), v, b, x);
    CountConcat(q, [allocs[v].bundle], x);
    CountOne(b, x);
  }

  lemma BornAllAppend(f: Func, spilled: seq<Bundle>, base: StackSlotID, b: Bundle)
    ensures BornAll(f, spilled + [b], base) == BornAll(f, spilled, base) + Born(f, b, base + |spilled|)
  {
    assert (spilled + [b])[..|spilled|] == spilled;
  }

  lemma AssignCase(f: Func, s: Ctx, k: nat, p: PhysicalReg, spilled: seq<Bundle>, base: StackSlotID, initial: seq<Bundle>, x: Bundle)
    requires k < |s.bundles| && ConservedAt(f, s, spilled, base, initial, x)
    ensures ConservedAt(f, Ctx(Remove(s.bundles, k), s.allocs + [Alloc(p, s.bundles[k])], s.nextSlot), spilled, base, initial, x)
  {
    CountRemove(s.bundles, k, x);
    AssignConserves(s.allocs, Alloc(p, s.bundles[k]), x);
  }

  lemma EvictCase(f: Func, s: Ctx, k: nat, v: nat, spilled: seq<Bundle>, base: StackSlotID, initial: seq<Bundle>, x: Bundle)
    requires k < |s.bundles| && v < |s.allocs| && ConservedAt(f, s, spilled, base, initial, x)
    ensures ConservedAt(f, Ctx(Remove(s.bundles, k) + [s.allocs[v].bundle],
                               s.allocs[v := s.allocs[v].(bundle := s.bundles[k])], s.nextSlot), spilled, base, initial, x)
  {
    CountRemove(s.bundles, k, x);
    EvictConserves(s.allocs, v, s.bundles[k], Remove(s.bundles, k), x);
  }

  lemma SpillCase(f: Func, s: Ctx, k: nat, spilled: seq<Bundle>, base: StackSlotID, initial: seq<Bundle>, x: Bundle)
    requires k < |s.bundles| && s.nextSlot == base + |spilled| && ConservedAt(f, s, spilled, base, initial, x)
    ensures ConservedAt(f, Ctx(Remove(s.bundles, k) + Born(f, s.bundles[k], s.nextSlot), s.allocs, s.nextSlot + 1),
                        spilled + [s.bundles[k]], base, initial, x)
  {
    CountRemove(s.bundles, k, x);
    var b := s.bundles[k];
    var born := Born(f, b, s.nextSlot);
    BornAllAppend(f, spilled, base, b);
    CountConcat(Remove(s.bundles, k), born, x);
    CountConcat(BornAll(f, spilled, base), born, x);
    CountConcat(spilled, [b], x);
    CountOne(b, x);
  }

  /** The three ways a step can go. */
  lemma StepAtIs(fx: Fixed, s: Ctx, k: nat)
    requires k < |s.bundles|
    ensures var b, q, reg, victim := s.bundles[k], Remove(s.bundles, k), ChosenReg(fx, s.allocs, s.bundles[k]), Victim(s.allocs, s.bundles[k]);
            && (reg.Some? ==> StepAt(fx, s, k) == Ctx(q, s.allocs + [Alloc(reg.value, b)], s.nextSlot))
            && (victim.Some? ==> victim.value < |s.allocs|)
            && (reg.None? && victim.Some? ==>
                  StepAt(fx, s, k) == Ctx(q + [s.allocs[victim.value].bundle],
                                          s.allocs[victim.value := s.allocs[victim.value].(bundle := b)], s.nextSlot))
            && (reg.None? && victim.None? ==> StepAt(fx, s, k) == Ctx(q + Born(fx.f, b, s.nextSlot), s.allocs, s.nextSlot + 1))
  {
    FirstEvictableCanBeEvicted(s.allocs, s.bundles[k], 0);
  }

  lemma StepConservesAt(fx: Fixed, s: Ctx, s': Ctx, k: nat, spilled: seq<Bundle>, spilled': seq<Bundle>, base: StackSlotID,
                        initial: seq<Bundle>, x: Bundle)
    requires k < |s.bundles| && s.nextSlot == base + |spilled| && ConservedAt(fx.f, s, spilled, base, initial, x)
    requires s' == StepAt(fx, s, k) && spilled' == SpilledAfter(fx, s, s.bundles[k], spilled)
    ensures ConservedAt(fx.f, s', spilled', base, initial, x)
  {
    var reg, victim := ChosenReg(fx, s.allocs, s.bundles[k]), Victim(s.allocs, s.bundles[k]);
    StepAtIs(fx, s, k);
    if reg.Some? {
      AssignCase(fx.f, s, k, reg.value, spilled, base, initial, x);
    } else if victim.Some? {
      EvictCase(fx.f, s, k, victim.value, spilled, base, initial, x);
    } else {
      SpillCase(fx.f, s, k, spilled, base, initial, x);
    }
  }

  /** No step loses or duplicates a bundle. */
  lemma StepConserves(fx: Fixed, s: Ctx, k: nat, spilled: seq<Bundle>, base: StackSlotID, initial: seq<Bundle>)
    requires k < |s.bundles| && Conserved(fx.f, s, spilled, base, initial)
    ensures Conserved(fx.f, StepAt(fx, s, k), SpilledAfter(fx, s, s.bundles[k], spilled), base, initial)
  {
    var s', spilled' := StepAt(fx, s, k), SpilledAfter(fx, s, s.bundles[k], spilled);
    FirstEvictableCanBeEvicted(s.allocs, s.bundles[k], 0);
    forall x
      ensures ConservedAt(fx.f, s', spilled', base, initial, x)
    {
      assert ConservedAt(fx.f, s, spilled, base, initial, x);
      StepConservesAt(fx, s, s', k, spilled, spilled', base, initial, x);
    }
  }

  // ---- Termination ----

  function Evictables(q: seq<Bundle>): nat {
    if q == [] then 0 else (if q[|q| - 1].evictable then 1 else 0) + Evictables(q[..|q| - 1])
  }

  lemma {:induction false} EvictablesConcat(p: seq<Bundle>, q: seq<Bundle>)
    ensures Evictables(p + q) == Evictables(p) + Evictables(q)
  {
    if q == [] {
      assert p + q == p;
    } else {
      assert (p + q)[..|p + q| - 1] == p + q[..|q| - 1];
      EvictablesConcat(p, q[..|q| - 1]);
    }
  }

  lemma {:induction false} EvictablesBound(q: seq<Bundle>)
    ensures Evictables(q) <= |q|
  {
    if q != [] { EvictablesBound(q[..|q| - 1]); }
  }

  lemma EvictablesReplace(q: seq<Bundle>, k: nat, mid: seq<Bundle>)
    requires k < |q|
    ensures Evictables(q[..k] + mid + q[k + 1..]) + Evictables([q[k]]) == Evictables(q) + Evictables(mid)
  {
    EvictablesConcat(q[..k], mid);
    EvictablesConcat(q[..k] + mid, q[k + 1..]);
    EvictablesConcat(q[..k], [q[k]]);
    EvictablesConcat(q[..k] + [q[k]], q[k + 1..]);
    assert q == q[..k] + [q[k]] + q[k + 1..];
  }

  lemma {:induction false} NoEvictables(q: seq<Bundle>)
    requires forall x :: x in q ==> !x.evictable
    ensures Evictables(q) == 0
  {
    if q != [] { NoEvictables(q[..|q| - 1]); }
  }

  /** Bundles that can still be assigned, evicted or spilled as evictable ones. */
  function Chances(s: Ctx): nat {
    Evictables(s.bundles) + Evictables(BundlesOf(s.allocs))
  }

  function Fixedly(s: Ctx): int {
    |s.bundles| - Evictables(s.bundles)
  }

  /** The lexicographic measure that every step decreases, unless it spills a bundle born of a spill. */
  ghost predicate Smaller(s': Ctx, s: Ctx) {
    || Chances(s') < Chances(s)
    || (Chances(s') == Chances(s) && 0 <= Fixedly(s') < Fixedly(s))
    || (Chances(s') == Chances(s) && Fixedly(s') == Fixedly(s) && |s'.bundles| < |s.bundles|)
  }

  lemma EvictablesOne(b: Bundle)
    ensures Evictables([b]) == if b.evictable then 1 else 0
  {
    assert [b][..0] == [];
  }

  lemma StepDecreases(fx: Fixed, s: Ctx, k: nat)
    requires k < |s.bundles| && CtxInFunc(fx.f, s) && NoBornBundleStuck(fx, s)
    ensures Smaller(StepAt(fx, s, k), s)
  {
    var b, q := s.bundles[k], Remove(s.bundles, k);
    var s' := StepAt(fx, s, k);
    assert q == s.bundles[..k] + [] + s.bundles[k + 1..];
    EvictablesReplace(s.bundles, k, []);
    EvictablesOne(b);
    EvictablesBound(s'.bundles);
    FirstEvictableCanBeEvicted(s.allocs, b, 0);
    if ChosenReg(fx, s.allocs, b).Some? {
      BundlesOfConcat(s.allocs, Alloc(ChosenReg(fx, s.allocs, b).value, b));
      EvictablesConcat(BundlesOf(s.allocs), [b]);
    } else if Victim(s.allocs, b).Some? {
      var v := Victim(s.allocs, b).value;
      BundlesOfUpdate(s.allocs, v, b);
      EvictablesReplace(BundlesOf(s.allocs), v, [b]);
      EvictablesConcat(q, [s.allocs[v].bundle]);
      EvictablesOne(s.allocs[v].bundle);
    } else {
      var born := Born(fx.f, b, s.nextSlot);
      forall x | x in born
        ensures !x.evictable
      {
        BornAreUnevictable(fx.f, b, s.nextSlot, x);
      }
      NoEvictables(born);
      EvictablesConcat(q, born);
    }
  }
}
