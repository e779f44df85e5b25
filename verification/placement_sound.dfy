/** The rewritten instructions respect every register's home. */
module PlacementSound {
  import opened RegAllocFunc
  import opened LivenessSpec
  import opened LiveRanges
  import opened FuncRanges
  import opened Bundles
  import opened Worklist
  import opened AllocContext
  import opened Spills
  import opened Rewrite
  import opened Machine
  import opened Simulation
  import opened Placement

  // ---- Who occupies a physical register ----

  ghost predicate OccupiedByAlloc(l: Layout, a: nat, k: nat, v: VirtualReg, p: PhysicalReg, b: nat, w: nat) {
    && a < |l.allocs| && l.allocs[a].physicalReg == p && k < |l.allocs[a].bundle.segments|
    && l.allocs[a].bundle.segments[k].reg == v && l.allocs[a].bundle.segments[k].range.Covers(b, w)
  }

  ghost predicate OccupiedByReserved(l: Layout, k: nat, p: PhysicalReg, b: nat, w: nat) {
    && b < |l.fx.reserved| && k < |l.fx.reserved[b]|
    && l.fx.reserved[b][k].reg == p && l.fx.reserved[b][k].range.Covers(b, w)
  }

  /** `r` owns physical register `p` at point `w` of block `b`. */
  ghost predicate Occupies(l: Layout, r: Reg, p: PhysicalReg, b: nat, w: nat) {
    match r
    case Virtual(v) => exists a: nat, k: nat :: OccupiedByAlloc(l, a, k, v, p, b, w)
    case Physical(q) => q == p && exists k: nat :: OccupiedByReserved(l, k, p, b, w)
  }

  lemma AllocsDoNotClash(l: Layout, a: nat, a': nat)
    requires Placed(l) && a < |l.allocs| && a' < |l.allocs| && a != a'
    requires l.allocs[a].physicalReg == l.allocs[a'].physicalReg
    ensures !Clash(l.allocs[a].bundle, l.allocs[a'].bundle)
  {
    ClashSymmetric(l.allocs[a].bundle, l.allocs[a'].bundle);
    assert if a < a' then Apart(l.allocs[a], l.allocs[a']) else Apart(l.allocs[a'], l.allocs[a]);
  }

  lemma AllocsDoNotCollide(l: Layout, a: nat, k: nat, v: VirtualReg, a': nat, k': nat, v': VirtualReg, p: PhysicalReg, b: nat, w: nat)
    requires Placed(l) && OccupiedByAlloc(l, a, k, v, p, b, w) && OccupiedByAlloc(l, a', k', v', p, b, w)
    ensures a == a' && k == k' && v == v'
  {
    var x, y := l.allocs[a].bundle, l.allocs[a'].bundle;
    assert Fit(l.fx, x) && Fit(l.fx, y);
    assert x.segments[k].range.Intersects(y.segments[k'].range) && y.segments[k'].range.Intersects(x.segments[k].range);
    assert Clash(x, y);
    if a != a' { AllocsDoNotClash(l, a, a'); }
  }

  lemma SharedPointMeetsReserved(l: Layout, a: nat, k: nat, v: VirtualReg, m: nat, p: PhysicalReg, b: nat, w: nat)
    requires OccupiedByAlloc(l, a, k, v, p, b, w) && OccupiedByReserved(l, m, p, b, w)
    ensures MeetsReserved(l.fx.reserved, l.allocs[a].bundle, p)
  {
    var s := l.allocs[a].bundle.segments[k];
    assert s.range.Intersects(l.fx.reserved[s.range.block][m].range);
  }

  lemma AllocsAvoidReserved(l: Layout, a: nat, k: nat, v: VirtualReg, m: nat, p: PhysicalReg, b: nat, w: nat)
    requires Placed(l) && OccupiedByAlloc(l, a, k, v, p, b, w)
    ensures !OccupiedByReserved(l, m, p, b, w)
  {
    assert SafeAlloc(l.fx, l.legal, l.allocs[a]);
    if OccupiedByReserved(l, m, p, b, w) { SharedPointMeetsReserved(l, a, k, v, m, p, b, w); }
  }

  /** A physical register belongs to one register at a time. */
  lemma OneOccupant(l: Layout, r: Reg, r': Reg, p: PhysicalReg, b: nat, w: nat)
    requires Placed(l) && Occupies(l, r, p, b, w) && Occupies(l, r', p, b, w)
    ensures r == r'
  {
    if r.Virtual? && r'.Virtual? {
      var a: nat, k: nat :| OccupiedByAlloc(l, a, k, r.v, p, b, w);
      var a': nat, k': nat :| OccupiedByAlloc(l, a', k', r'.v, p, b, w);
      AllocsDoNotCollide(l, a, k, r.v, a', k', r'.v, p, b, w);
    } else if r.Virtual? && r'.Physical? {
      var a: nat, k: nat :| OccupiedByAlloc(l, a, k, r.v, p, b, w);
      var m: nat :| OccupiedByReserved(l, m, p, b, w);
      AllocsAvoidReserved(l, a, k, r.v, m, p, b, w);
    } else if r.Physical? && r'.Virtual? {
      var a: nat, k: nat :| OccupiedByAlloc(l, a, k, r'.v, p, b, w);
      var m: nat :| OccupiedByReserved(l, m, p, b, w);
      AllocsAvoidReserved(l, a, k, r'.v, m, p, b, w);
    }
  }

  /** A covered virtual register occupies its home register. */
  lemma CoveredVirtualOccupies(l: Layout, v: VirtualReg, b: nat, w: nat)
    requires Placed(l) && CoveredBy(RangesOf(l.fx.f, Virtual(v)), b, w) && HomeFor(l, v).InReg?
    ensures Occupies(l, Virtual(v), HomeFor(l, v).p, b, w)
  {
    var ranges := RangesOf(l.fx.f, Virtual(v));
    var n :| 0 <= n < |ranges| && ranges[n].Covers(b, w);
    var x, k := SegmentHasOwner(l, Segment(v, ranges[n]));
    InitialIsPlaced(l, x, v);
    var a := HomeInReg(l, v);
    if a': nat :| HoldsReg(l, a', v) && l.allocs[a'].bundle == x {
      HomeOfAllocated(l, a', v);
      assert OccupiedByAlloc(l, a', k, v, HomeFor(l, v).p, b, w);
    } else {
      var j: nat :| SpilledReg(l, j, v) && l.spilled[j] == x;
      AllocatedIsNotSpilled(l, a, j, v);
    }
  }

  lemma CoveredPhysicalOccupies(l: Layout, p: PhysicalReg, b: nat, w: nat)
    requires Placed(l) && b < |l.fx.f.blocks| && CoveredBy(RangesOf(l.fx.f, Physical(p)), b, w)
    ensures Occupies(l, Physical(p), p, b, w)
  {
    var ranges := RangesOf(l.fx.f, Physical(p));
    var n :| 0 <= n < |ranges| && ranges[n].Covers(b, w);
    var k :| 0 <= k < |l.fx.reserved[b]| && l.fx.reserved[b][k] == ReservedSegment(p, ranges[n]);
    assert OccupiedByReserved(l, k, p, b, w);
  }

  lemma KilledOccupies(l: Layout, b: nat, i: nat, p: PhysicalReg)
    requires Placed(l) && b < |l.fx.f.blocks| && i < |l.fx.f.blocks[b].instrs|
    requires Has(l.fx.f.blocks[b].instrs[i], Physical(p), Kill)
    ensures Occupies(l, Physical(p), p, b, 2 * i + 1)
  {
    var kp := KillPoint(p, b, i);
    assert IsKillPoint(l.fx.f, kp);
    var segment := ReservedSegment(p, LiveRange(b, Point(i, 1), Point(i, 1)));
    assert segment in l.fx.reserved[b];
    var k :| 0 <= k < |l.fx.reserved[b]| && l.fx.reserved[b][k] == segment;
    assert OccupiedByReserved(l, k, p, b, 2 * i + 1);
  }

  /** What the theorem about meaning needs of the input. */
  ghost predicate InputCovered(f: Func) {
    VirtualsCovered(f) && PhysicalsCovered(f)
  }

  lemma OperandCovered(l: Layout, b: nat, i: nat, v: VirtualReg)
    requires Placed(l) && InputCovered(l.fx.f)
    requires b < |l.fx.f.blocks| && Reachable(l.fx.f, b) && i < |l.fx.f.blocks[b].instrs|
    ensures ReadsReg(l.fx.f.blocks[b].instrs[i], Virtual(v)) ==> CoveredBy(RangesOf(l.fx.f, Virtual(v)), b, 2 * i)
    ensures WritesReg(l.fx.f.blocks[b].instrs[i], Virtual(v)) ==> CoveredBy(RangesOf(l.fx.f, Virtual(v)), b, 2 * i + 1)
  {
    OperandsCoveredIff(l.fx.f, b, Virtual(v));
    assert VirtualCovered(l.fx.f, b, v);
  }

  lemma TrackedVirtualCovered(f: Func, b: nat, i: nat, v: VirtualReg)
    requires VirtualsPlain(f) && b < |f.blocks| && i < |f.blocks[b].instrs|
    ensures Tracked(f, b, i, Virtual(v)) ==> CoveredBy(RangesOf(f, Virtual(v)), b, 2 * i)
    ensures Tracked(f, b, i + 1, Virtual(v)) ==> CoveredBy(RangesOf(f, Virtual(v)), b, 2 * i + 1)
  {
    LivePointsCovered(f, b, i, Virtual(v));
  }

  lemma TrackedVirtualOccupies(l: Layout, b: nat, i: nat, v: VirtualReg)
    requires Placed(l) && b < |l.fx.f.blocks| && i < |l.fx.f.blocks[b].instrs| && HomeFor(l, v).InReg?
    ensures Tracked(l.fx.f, b, i, Virtual(v)) ==> Occupies(l, Virtual(v), HomeFor(l, v).p, b, 2 * i)
    ensures Tracked(l.fx.f, b, i + 1, Virtual(v)) ==> Occupies(l, Virtual(v), HomeFor(l, v).p, b, 2 * i + 1)
  {
    TrackedVirtualCovered(l.fx.f, b, i, v);
    if CoveredBy(RangesOf(l.fx.f, Virtual(v)), b, 2 * i) { CoveredVirtualOccupies(l, v, b, 2 * i); }
    if CoveredBy(RangesOf(l.fx.f, Virtual(v)), b, 2 * i + 1) { CoveredVirtualOccupies(l, v, b, 2 * i + 1); }
  }

  lemma TrackedPhysicalOccupies(l: Layout, b: nat, i: nat, p: PhysicalReg)
    requires Placed(l) && b < |l.fx.f.blocks| && i < |l.fx.f.blocks[b].instrs| && PhysicalCovered(l.fx.f, b, i, p)
    ensures Tracked(l.fx.f, b, i, Physical(p)) ==> Occupies(l, Physical(p), p, b, 2 * i)
    ensures Tracked(l.fx.f, b, i + 1, Physical(p)) || WritesReg(l.fx.f.blocks[b].instrs[i], Physical(p)) ==>
              Occupies(l, Physical(p), p, b, 2 * i + 1)
  {
    if CoveredBy(RangesOf(l.fx.f, Physical(p)), b, 2 * i) { CoveredPhysicalOccupies(l, p, b, 2 * i); }
    if CoveredBy(RangesOf(l.fx.f, Physical(p)), b, 2 * i + 1) { CoveredPhysicalOccupies(l, p, b, 2 * i + 1); }
    if Has(l.fx.f.blocks[b].instrs[i], Physical(p), Kill) { KilledOccupies(l, b, i, p); }
  }

  /** A register tracked around an instruction occupies its home register. */
  lemma TrackedOccupies(l: Layout, b: nat, i: nat, r: Reg)
    requires Placed(l) && PhysicalsCovered(l.fx.f)
    requires b < |l.fx.f.blocks| && Reachable(l.fx.f, b) && i < |l.fx.f.blocks[b].instrs|
    requires HomeOf(Homes(l), r).InReg?
    ensures Tracked(l.fx.f, b, i, r) ==> Occupies(l, r, HomeOf(Homes(l), r).p, b, 2 * i)
    ensures Tracked(l.fx.f, b, i + 1, r) ==> Occupies(l, r, HomeOf(Homes(l), r).p, b, 2 * i + 1)
  {
    match r
    case Virtual(v) =>
      HomesAre(l, v);
      TrackedVirtualOccupies(l, b, i, v);
    case Physical(p) =>
      assert PhysicalCovered(l.fx.f, b, i, p);
      TrackedPhysicalOccupies(l, b, i, p);
  }

  lemma HomesAre(l: Layout, v: VirtualReg)
    ensures Virtual(v) in AllRegs(l.fx.f) ==> HomeOf(Homes(l), Virtual(v)) == HomeFor(l, v)
    ensures Virtual(v) !in AllRegs(l.fx.f) ==> HomeOf(Homes(l), Virtual(v)) == Nowhere
  {
  }

  // ---- Which allocation an operand goes to ----

  /** Allocation `a` was born of the spill of `v` for an operand of instruction `(b, i)` with usage `u`. */
  ghost predicate BornHere(l: Layout, a: nat, j: nat, b: nat, i: nat, v: VirtualReg, u: Usage) {
    && a < |l.allocs| && SpilledReg(l, j, v) && u != Kill
    && l.allocs[a].bundle == BornBundle(b, i, v, u, l.spilled[j].regClass, l.base + j)
  }

  /** An unevictable allocation knows its instruction, register and usage. */
  lemma UnevictableIsBornHere(l: Layout, a: nat) returns (j: nat, b: nat, i: nat, v: VirtualReg, op: nat)
    requires Settled(l) && a < |l.allocs| && !l.allocs[a].bundle.evictable
    ensures b < |l.fx.f.blocks| && i < |l.fx.f.blocks[b].instrs| && op < |l.fx.f.blocks[b].instrs[i].regs|
    ensures var o := l.fx.f.blocks[b].instrs[i].regs[op]; o.reg == Virtual(v) && BornHere(l, a, j, b, i, v, o.usage)
  {
    var k;
    j, k, i, op := BornAllocOrigin(l, a);
    var s := l.spilled[j].segments[k];
    b, v := s.range.block, s.reg;
    assert s in l.spilled[j].segments;
  }

  /** Whoever replaces an operand of `v` holds `v`, or was born of the spill of `v` at that instruction. */
  lemma ReplacerOwns(l: Layout, a: nat, b: nat, i: nat, v: VirtualReg)
    requires Placed(l) && a < |l.allocs| && Replaces(l.allocs[a], b, i, v)
    requires b < |l.fx.f.blocks| && i < |l.fx.f.blocks[b].instrs|
    ensures HoldsReg(l, a, v) || exists j: nat, op: nat ::
              && op < |l.fx.f.blocks[b].instrs[i].regs| && l.fx.f.blocks[b].instrs[i].regs[op].reg == Virtual(v)
              && BornHere(l, a, j, b, i, v, l.fx.f.blocks[b].instrs[i].regs[op].usage)
  {
    var x := l.allocs[a].bundle;
    var k :| 0 <= k < |x.segments| && x.segments[k].reg == v && x.segments[k].range.Spans(b, i);
    if x.evictable {
      assert x.segments[k] in x.segments;
    } else {
      var j, b', i', v', op := UnevictableIsBornHere(l, a);
      BornSpansItself(x, b', i', v', l.fx.f.blocks[b'].instrs[i'].regs[op].usage, l.spilled[j].regClass, l.base + j, k, b, i, v);
    }
  }

  lemma BornSpansItself(x: Bundle, b': nat, i': nat, v': VirtualReg, u: Usage, c: RegClass, slot: StackSlotID, k: nat,
                        b: nat, i: nat, v: VirtualReg)
    requires u != Kill && x == BornBundle(b', i', v', u, c, slot)
    requires k < |x.segments| && x.segments[k].reg == v && x.segments[k].range.Spans(b, i)
    ensures b' == b && i' == i && v' == v
  {
  }

  /** Operands of one instruction that name the same virtual register have the same usage. */
  lemma SameUsage(instr: Instr, v: VirtualReg, j: nat, k: nat)
    requires WrittenOnce(instr, v) && j < |instr.regs| && k < |instr.regs| && instr.regs[j].reg == instr.regs[k].reg == Virtual(v)
    ensures instr.regs[j].usage == instr.regs[k].usage
    ensures instr.regs[j].usage != Use ==> j == k
  {
  }

  ghost predicate IsOperand(f: Func, b: nat, i: nat, j: nat, v: VirtualReg, u: Usage) {
    && b < |f.blocks| && i < |f.blocks[b].instrs| && j < |f.blocks[b].instrs[i].regs|
    && f.blocks[b].instrs[i].regs[j] == RegOp(Virtual(v), u)
  }

  lemma OperandIsNotKill(l: Layout, b: nat, i: nat, j: nat, v: VirtualReg, u: Usage)
    requires Placed(l) && IsOperand(l.fx.f, b, i, j, v, u)
    ensures u != Kill
  {
    assert KillsPhysicalOnly(l.fx.f.blocks[b].instrs[i]);
    assert l.fx.f.blocks[b].instrs[i].regs[j] in l.fx.f.blocks[b].instrs[i].regs;
  }

  lemma SpilledIsWrittenOnce(l: Layout, s: nat, b: nat, i: nat, v: VirtualReg)
    requires Placed(l) && SpilledReg(l, s, v) && b < |l.fx.f.blocks| && i < |l.fx.f.blocks[b].instrs|
    ensures WrittenOnce(l.fx.f.blocks[b].instrs[i], v)
  {
    assert RegsWrittenOnce(l.fx.f, l.spilled[s]);
    assert AllWrittenOnce(l.fx.f, v);
  }

  lemma SpilledOperandIsBorn(l: Layout, b: nat, i: nat, j: nat, v: VirtualReg, u: Usage, s: nat, k: nat, slot: StackSlotID)
    requires Placed(l) && IsOperand(l.fx.f, b, i, j, v, u) && s < |l.spilled| && slot == l.base + s
    requires Spanned(l.spilled[s], k, b, i, v)
    ensures u != Kill && BornFor(l.fx.f, l.spilled[s], slot, BornBundle(b, i, v, u, l.spilled[s].regClass, slot))
  {
    OperandIsNotKill(l, b, i, j, v, u);
    SpilledIsSpillable(l, s);
    OperandIsBorn(l.fx.f, l.spilled[s], slot, b, i, j, v, u, k);
  }

  predicate Spanned(x: Bundle, k: nat, b: nat, i: nat, v: VirtualReg) {
    k < |x.segments| && x.segments[k].reg == v && x.segments[k].range.Spans(b, i)
  }

  lemma OperandIsBorn(f: Func, x: Bundle, slot: StackSlotID, b: nat, i: nat, j: nat, v: VirtualReg, u: Usage, k: nat)
    requires u != Kill
    ensures InFunc(f, x) && IsOperand(f, b, i, j, v, u) && Spanned(x, k, b, i, v) ==>
              BornFor(f, x, slot, BornBundle(b, i, v, u, x.regClass, slot))
  {
    if InFunc(f, x) && IsOperand(f, b, i, j, v, u) && Spanned(x, k, b, i, v) { SpannedOperandIsBorn(f, x, slot, k, b, i, j); }
  }

  /** An operand of a spilled register inside one of its ranges has an allocation of its own. */
  lemma SpilledOperandHasAlloc(l: Layout, b: nat, i: nat, j: nat, v: VirtualReg, u: Usage, s: nat, k: nat)
    requires Placed(l) && IsOperand(l.fx.f, b, i, j, v, u) && s < |l.spilled| && k < |l.spilled[s].segments|
    requires l.spilled[s].segments[k].reg == v && l.spilled[s].segments[k].range.Spans(b, i)
    ensures exists a :: 0 <= a < |l.allocs| && Replaces(l.allocs[a], b, i, v)
  {
    OperandIsNotKill(l, b, i, j, v, u);
    var c, slot := l.spilled[s].regClass, l.base + s;
    var x := BornBundle(b, i, v, u, c, slot);
    SpilledOperandIsBorn(l, b, i, j, v, u, s, k, slot);
    BornIsBornForSome(l.fx.f, l.spilled, l.base, s, x);
    BornIsAllocatedIf(l, x);
    SomeAllocReplaces(l, x, b, i, v, u, c, slot);
  }

  lemma SomeAllocReplaces(l: Layout, x: Bundle, b: nat, i: nat, v: VirtualReg, u: Usage, c: RegClass, slot: StackSlotID)
    requires u != Kill && x == BornBundle(b, i, v, u, c, slot) && IsAllocated(l, x)
    ensures exists a :: 0 <= a < |l.allocs| && Replaces(l.allocs[a], b, i, v)
  {
    var a :| 0 <= a < |l.allocs| && l.allocs[a].bundle == x;
    BornReplaces(l.allocs[a], b, i, v, u, c, slot);
  }

  lemma BornReplaces(a: Alloc, b: nat, i: nat, v: VirtualReg, u: Usage, c: RegClass, slot: StackSlotID)
    requires u != Kill && a.bundle == BornBundle(b, i, v, u, c, slot)
    ensures Replaces(a, b, i, v)
  {
    assert a.bundle.segments[0].reg == v && a.bundle.segments[0].range.Spans(b, i);
  }

  /** An operand inside one of its register's ranges is replaced. */
  lemma SpannedOperandIsReplaced(l: Layout, b: nat, i: nat, j: nat, v: VirtualReg, u: Usage, range: LiveRange)
    requires Placed(l) && IsOperand(l.fx.f, b, i, j, v, u) && range in RangesOf(l.fx.f, Virtual(v)) && range.Spans(b, i)
    ensures FirstReplacer(l.allocs, |l.allocs|, b, i, v).Some?
  {
    var x, k := SegmentHasOwner(l, Segment(v, range));
    InitialIsPlaced(l, x, v);
    FirstReplacerReplaces(l.allocs, |l.allocs|, b, i, v);
    if a: nat :| HoldsReg(l, a, v) && l.allocs[a].bundle == x {
      assert Replaces(l.allocs[a], b, i, v);
    } else {
      var s: nat :| SpilledReg(l, s, v) && l.spilled[s] == x;
      SpilledOperandHasAlloc(l, b, i, j, v, u, s, k);
    }
  }

  lemma InitialReplacesInRange(l: Layout, a: nat, b: nat, i: nat, v: VirtualReg)
    requires Placed(l) && a < |l.allocs| && l.allocs[a].bundle.evictable && Replaces(l.allocs[a], b, i, v)
    ensures exists range :: range in RangesOf(l.fx.f, Virtual(v)) && range.Spans(b, i)
  {
    var x := l.allocs[a].bundle;
    var k :| 0 <= k < |x.segments| && x.segments[k].reg == v && x.segments[k].range.Spans(b, i);
    EvictableAllocIsInitial(l, a);
    InitialSegment(l, x, k);
  }

  lemma BornReplacesInRange(l: Layout, a: nat, b: nat, i: nat, v: VirtualReg)
    requires Placed(l) && a < |l.allocs| && !l.allocs[a].bundle.evictable && Replaces(l.allocs[a], b, i, v)
    ensures exists range :: range in RangesOf(l.fx.f, Virtual(v)) && range.Spans(b, i)
  {
    var s, k, i', op := BornAllocOrigin(l, a);
    SpilledIsInitial(l, s);
    InitialSegment(l, l.spilled[s], k);
    BornReplacesAtOrigin(l, a, s, k, i', op, b, i, v);
  }

  lemma BornReplacesAtOrigin(l: Layout, a: nat, s: nat, k: nat, i': nat, op: nat, b: nat, i: nat, v: VirtualReg)
    requires a < |l.allocs| && OriginAt(l.fx.f, l.spilled, l.base, l.allocs[a].bundle, s, k, i', op)
    requires Replaces(l.allocs[a], b, i, v)
    ensures l.spilled[s].segments[k].reg == v && l.spilled[s].segments[k].range.Spans(b, i)
  {
    var seg := l.spilled[s].segments[k];
    BornBundleShape(seg.range.block, i', seg.reg, l.fx.f.blocks[seg.range.block].instrs[i'].regs[op].usage,
                    l.spilled[s].regClass, l.base + s);
  }

  /** An operand outside all ranges of its register keeps naming the virtual register. */
  lemma ReplacedOperandIsSpanned(l: Layout, b: nat, i: nat, j: nat, v: VirtualReg, u: Usage)
    requires Placed(l) && IsOperand(l.fx.f, b, i, j, v, u) && FirstReplacer(l.allocs, |l.allocs|, b, i, v).Some?
    ensures exists range :: range in RangesOf(l.fx.f, Virtual(v)) && range.Spans(b, i)
  {
    var a := FirstReplacer(l.allocs, |l.allocs|, b, i, v).value;
    FirstReplacerReplaces(l.allocs, |l.allocs|, b, i, v);
    if l.allocs[a].bundle.evictable { InitialReplacesInRange(l, a, b, i, v); } else { BornReplacesInRange(l, a, b, i, v); }
  }

  /** No virtual operand survives rewriting, except exactly those outside every range of their register. */
  lemma OperandSurvivesIff(l: Layout, b: nat, i: nat, j: nat, v: VirtualReg, u: Usage)
    requires Placed(l) && IsOperand(l.fx.f, b, i, j, v, u)
    ensures var x := Rewritten(l.allocs, |l.allocs|, b, i, l.fx.f.blocks[b].instrs[i]);
            j < |x.regs| && (x.regs[j].reg.Physical? <==> exists range :: range in RangesOf(l.fx.f, Virtual(v)) && range.Spans(b, i))
  {
    RewrittenOperand(l.allocs, |l.allocs|, b, i, l.fx.f.blocks[b].instrs[i], j);
    FirstReplacerReplaces(l.allocs, |l.allocs|, b, i, v);
    if range :| range in RangesOf(l.fx.f, Virtual(v)) && range.Spans(b, i) {
      SpannedOperandIsReplaced(l, b, i, j, v, u, range);
    }
    if FirstReplacer(l.allocs, |l.allocs|, b, i, v).Some? {
      ReplacedOperandIsSpanned(l, b, i, j, v, u);
    }
  }

  /** The allocation an operand goes to: the one holding its register, or the one born for this very operand. */
  ghost predicate GoesTo(l: Layout, a: nat, b: nat, i: nat, j: nat, v: VirtualReg, u: Usage) {
    HoldsReg(l, a, v) || exists s: nat :: BornHere(l, a, s, b, i, v, u)
  }

  lemma OperandGoesTo(l: Layout, b: nat, i: nat, j: nat, v: VirtualReg, u: Usage, range: LiveRange) returns (a: nat)
    requires Placed(l) && IsOperand(l.fx.f, b, i, j, v, u) && range in RangesOf(l.fx.f, Virtual(v)) && range.Spans(b, i)
    ensures a < |l.allocs| && GoesTo(l, a, b, i, j, v, u)
    ensures OperandIs(Rewritten(l.allocs, |l.allocs|, b, i, l.fx.f.blocks[b].instrs[i]), j, RegOp(Physical(l.allocs[a].physicalReg), u))
  {
    var instr := l.fx.f.blocks[b].instrs[i];
    SpannedOperandIsReplaced(l, b, i, j, v, u, range);
    FirstReplacerReplaces(l.allocs, |l.allocs|, b, i, v);
    a := FirstReplacer(l.allocs, |l.allocs|, b, i, v).value;
    RewrittenOperand(l.allocs, |l.allocs|, b, i, instr, j);
    ReplacerOwns(l, a, b, i, v);
    if !HoldsReg(l, a, v) {
      var s: nat, op: nat :| op < |instr.regs| && instr.regs[op].reg == Virtual(v) && BornHere(l, a, s, b, i, v, instr.regs[op].usage);
      OperandIsNotKill(l, b, i, j, v, u);
      SpilledIsWrittenOnce(l, s, b, i, v);
      SameUsage(instr, v, j, op);
      assert BornHere(l, a, s, b, i, v, u);
    }
  }

  // ---- The rewritten instruction ----

  ghost function RewrittenInstr(l: Layout, b: nat, i: nat): RInstr
    requires b < |l.fx.f.blocks| && i < |l.fx.f.blocks[b].instrs|
  {
    Rewritten(l.allocs, |l.allocs|, b, i, l.fx.f.blocks[b].instrs[i])
  }

  lemma PointIsSpanned(ranges: seq<LiveRange>, b: nat, i: nat, w: nat) returns (range: LiveRange)
    requires CoveredBy(ranges, b, w) && w / 2 == i
    requires forall k | 0 <= k < |ranges| :: ranges[k].WellFormed()
    ensures range in ranges && range.Covers(b, w) && range.Spans(b, i)
  {
    var k :| 0 <= k < |ranges| && ranges[k].Covers(b, w);
    range := ranges[k];
  }

  /** Where a virtual operand goes, and that it has a range around it. */
  lemma VirtualOperandGoesTo(l: Layout, b: nat, i: nat, j: nat, v: VirtualReg, u: Usage) returns (a: nat)
    requires Placed(l) && InputCovered(l.fx.f) && Reachable(l.fx.f, b) && IsOperand(l.fx.f, b, i, j, v, u)
    ensures a < |l.allocs| && GoesTo(l, a, b, i, j, v, u) && u != Kill
    ensures OperandIs(RewrittenInstr(l, b, i), j, RegOp(Physical(l.allocs[a].physicalReg), u))
    ensures IsWrite(u) ==> CoveredBy(RangesOf(l.fx.f, Virtual(v)), b, 2 * i + 1)
  {
    OperandIsNotKill(l, b, i, j, v, u);
    OperandCovered(l, b, i, v);
    assert l.fx.f.blocks[b].instrs[i].regs[j] in l.fx.f.blocks[b].instrs[i].regs;
    FoundRangesAreGood(l.fx.f, Virtual(v), |l.fx.f.blocks|);
    var range := PointIsSpanned(RangesOf(l.fx.f, Virtual(v)), b, i, if IsRead(u) then 2 * i else 2 * i + 1);
    a := OperandGoesTo(l, b, i, j, v, u, range);
  }

  lemma OperandReg(l: Layout, b: nat, i: nat, j: nat, v: VirtualReg, u: Usage)
    requires IsOperand(l.fx.f, b, i, j, v, u)
    ensures HomeOf(Homes(l), Virtual(v)) == HomeFor(l, v)
  {
    assert Virtual(v) in InstrsRegs(l.fx.f.blocks[b].instrs) by {
      assert l.fx.f.blocks[b].instrs[i].regs[j].reg == Virtual(v);
    }
    HomesAre(l, v);
  }

  lemma BornOccupies(l: Layout, a: nat, s: nat, b: nat, i: nat, v: VirtualReg, u: Usage)
    requires BornHere(l, a, s, b, i, v, u)
    ensures IsRead(u) ==> Occupies(l, Virtual(v), l.allocs[a].physicalReg, b, 2 * i)
    ensures IsWrite(u) ==> Occupies(l, Virtual(v), l.allocs[a].physicalReg, b, 2 * i + 1)
  {
    if IsRead(u) { assert OccupiedByAlloc(l, a, 0, v, l.allocs[a].physicalReg, b, 2 * i); }
    if IsWrite(u) { assert OccupiedByAlloc(l, a, 0, v, l.allocs[a].physicalReg, b, 2 * i + 1); }
  }

  lemma GoesToBorn(l: Layout, a: nat, b: nat, i: nat, j: nat, v: VirtualReg, u: Usage) returns (s: nat)
    requires GoesTo(l, a, b, i, j, v, u) && !HoldsReg(l, a, v)
    ensures BornHere(l, a, s, b, i, v, u)
  {
    s :| BornHere(l, a, s, b, i, v, u);
  }

  /** The register a written operand goes to is occupied by the register it names. */
  lemma WrittenOperandOccupies(l: Layout, b: nat, i: nat, j: nat)
    requires Placed(l) && InputCovered(l.fx.f) && Reachable(l.fx.f, b)
    requires b < |l.fx.f.blocks| && i < |l.fx.f.blocks[b].instrs| && j < |l.fx.f.blocks[b].instrs[i].regs|
    requires IsWrite(l.fx.f.blocks[b].instrs[i].regs[j].usage)
    ensures var x := RewrittenInstr(l, b, i);
            j < |x.regs| && x.regs[j].reg.Physical?
            && Occupies(l, l.fx.f.blocks[b].instrs[i].regs[j].reg, x.regs[j].reg.p, b, 2 * i + 1)
  {
    var op := l.fx.f.blocks[b].instrs[i].regs[j];
    assert op in l.fx.f.blocks[b].instrs[i].regs;
    match op.reg
    case Virtual(v) =>
      var a := VirtualOperandGoesTo(l, b, i, j, v, op.usage);
      if HoldsReg(l, a, v) {
        HomeOfAllocated(l, a, v);
        CoveredVirtualOccupies(l, v, b, 2 * i + 1);
      } else {
        var s := GoesToBorn(l, a, b, i, j, v, op.usage);
        BornOccupies(l, a, s, b, i, v, op.usage);
      }
    case Physical(p) =>
      RewrittenOperand(l.allocs, |l.allocs|, b, i, l.fx.f.blocks[b].instrs[i], j);
      if op.usage == Kill {
        KilledOccupies(l, b, i, p);
      } else {
        assert PhysicalCovered(l.fx.f, b, i, p);
        TrackedPhysicalOccupies(l, b, i, p);
      }
  }

  lemma InRegOperandSound(home: map<VirtualReg, Home>, instr: Instr, x: RInstr, j: nat, p: PhysicalReg)
    requires j < |instr.regs| && |x.regs| == |instr.regs|
    requires OperandIs(x, j, RegOp(Physical(p), instr.regs[j].usage)) && HomeOf(home, instr.regs[j].reg) == InReg(p)
    ensures OperandSound(home, instr, x, j)
  {
  }

  lemma InSlotOperandSound(home: map<VirtualReg, Home>, instr: Instr, x: RInstr, j: nat, p: PhysicalReg, s: StackSlotID)
    requires j < |instr.regs| && |x.regs| == |instr.regs|
    requires OperandIs(x, j, RegOp(Physical(p), instr.regs[j].usage)) && HomeOf(home, instr.regs[j].reg) == InSlot(s)
    requires IsRead(instr.regs[j].usage) ==> SlotMove(p, s) in x.loads
    requires IsWrite(instr.regs[j].usage) ==> SlotMove(p, s) in x.stores
    ensures OperandSound(home, instr, x, j)
  {
  }

  lemma HomeOfHeldOperand(l: Layout, a: nat, b: nat, i: nat, j: nat, v: VirtualReg, u: Usage)
    requires Placed(l) && IsOperand(l.fx.f, b, i, j, v, u) && HoldsReg(l, a, v)
    ensures HomeOf(Homes(l), Virtual(v)) == InReg(l.allocs[a].physicalReg)
  {
    HomeOfAllocated(l, a, v);
    OperandReg(l, b, i, j, v, u);
  }

  lemma HomeOfBornOperand(l: Layout, a: nat, s: nat, b: nat, i: nat, j: nat, v: VirtualReg, u: Usage)
    requires Placed(l) && IsOperand(l.fx.f, b, i, j, v, u) && BornHere(l, a, s, b, i, v, u)
    ensures HomeOf(Homes(l), Virtual(v)) == InSlot(l.base + s)
  {
    HomeOfSpilled(l, s, v);
    OperandReg(l, b, i, j, v, u);
  }

  lemma VirtualOperandIsSound(l: Layout, b: nat, i: nat, j: nat, v: VirtualReg, u: Usage)
    requires Placed(l) && InputCovered(l.fx.f) && Reachable(l.fx.f, b) && IsOperand(l.fx.f, b, i, j, v, u)
    requires |RewrittenInstr(l, b, i).regs| == |l.fx.f.blocks[b].instrs[i].regs|
    ensures OperandSound(Homes(l), l.fx.f.blocks[b].instrs[i], RewrittenInstr(l, b, i), j)
  {
    var a := VirtualOperandGoesTo(l, b, i, j, v, u);
    if HoldsReg(l, a, v) {
      HomeOfHeldOperand(l, a, b, i, j, v, u);
      VirtualOperandFits(l, a, 0, b, i, j, v, u);
    } else {
      var s := GoesToBorn(l, a, b, i, j, v, u);
      HomeOfBornOperand(l, a, s, b, i, j, v, u);
      VirtualOperandFits(l, a, s, b, i, j, v, u);
    }
  }

  lemma VirtualOperandFits(l: Layout, a: nat, s: nat, b: nat, i: nat, j: nat, v: VirtualReg, u: Usage)
    requires IsOperand(l.fx.f, b, i, j, v, u) && a < |l.allocs|
    requires |RewrittenInstr(l, b, i).regs| == |l.fx.f.blocks[b].instrs[i].regs|
    requires OperandIs(RewrittenInstr(l, b, i), j, RegOp(Physical(l.allocs[a].physicalReg), u))
    requires HomeOf(Homes(l), Virtual(v)) == InReg(l.allocs[a].physicalReg)
          || (BornHere(l, a, s, b, i, v, u) && HomeOf(Homes(l), Virtual(v)) == InSlot(l.base + s))
    ensures OperandSound(Homes(l), l.fx.f.blocks[b].instrs[i], RewrittenInstr(l, b, i), j)
  {
    var instr, x := l.fx.f.blocks[b].instrs[i], RewrittenInstr(l, b, i);
    if HomeOf(Homes(l), Virtual(v)).InReg? {
      InRegOperandSound(Homes(l), instr, x, j, l.allocs[a].physicalReg);
    } else {
      BornMoves(l, a, s, b, i, v, u);
      InSlotOperandSound(Homes(l), instr, x, j, l.allocs[a].physicalReg, l.base + s);
    }
  }

  lemma OperandIsSound(l: Layout, b: nat, i: nat, j: nat)
    requires Placed(l) && InputCovered(l.fx.f) && Reachable(l.fx.f, b)
    requires b < |l.fx.f.blocks| && i < |l.fx.f.blocks[b].instrs| && j < |l.fx.f.blocks[b].instrs[i].regs|
    requires |RewrittenInstr(l, b, i).regs| == |l.fx.f.blocks[b].instrs[i].regs|
    ensures OperandSound(Homes(l), l.fx.f.blocks[b].instrs[i], RewrittenInstr(l, b, i), j)
  {
    var instr := l.fx.f.blocks[b].instrs[i];
    match instr.regs[j].reg
    case Virtual(v) => VirtualOperandIsSound(l, b, i, j, v, instr.regs[j].usage);
    case Physical(p) =>
      RewrittenOperand(l.allocs, |l.allocs|, b, i, instr, j);
      InRegOperandSound(Homes(l), instr, RewrittenInstr(l, b, i), j, p);
  }

  /** The load and the store of an operand's own allocation are placed around its instruction. */
  lemma BornMoves(l: Layout, a: nat, s: nat, b: nat, i: nat, v: VirtualReg, u: Usage)
    requires BornHere(l, a, s, b, i, v, u) && b < |l.fx.f.blocks| && i < |l.fx.f.blocks[b].instrs|
    ensures IsRead(u) ==> SlotMove(l.allocs[a].physicalReg, l.base + s) in RewrittenInstr(l, b, i).loads
    ensures IsWrite(u) ==> SlotMove(l.allocs[a].physicalReg, l.base + s) in RewrittenInstr(l, b, i).stores
  {
    var move := SlotMove(l.allocs[a].physicalReg, l.base + s);
    RewrittenParts(l.allocs, |l.allocs|, b, i, l.fx.f.blocks[b].instrs[i]);
    LoadsAre(l.allocs, |l.allocs|, b, i, move);
    StoresAre(l.allocs, |l.allocs|, b, i, move);
    if IsRead(u) { assert LoadsHere(l.allocs[a], b, i); }
    if IsWrite(u) { assert StoresHere(l.allocs[a], b, i); }
  }

  /** An allocation that loads or stores at an instruction was born for one of its operands. */
  lemma MoverIsBornHere(l: Layout, a: nat, b: nat, i: nat) returns (s: nat, v: VirtualReg, op: nat)
    requires Placed(l) && a < |l.allocs| && (LoadsHere(l.allocs[a], b, i) || StoresHere(l.allocs[a], b, i))
    ensures b < |l.fx.f.blocks| && i < |l.fx.f.blocks[b].instrs| && op < |l.fx.f.blocks[b].instrs[i].regs|
    ensures var o := l.fx.f.blocks[b].instrs[i].regs[op]; o.reg == Virtual(v) && BornHere(l, a, s, b, i, v, o.usage)
  {
    if l.allocs[a].bundle.evictable {
      EvictableAllocIsInitial(l, a);
      InitialIsGood(l, l.allocs[a].bundle);
    }
    var b', i';
    s, b', i', v, op := UnevictableIsBornHere(l, a);
    BornBundleShape(b', i', v, l.fx.f.blocks[b'].instrs[i'].regs[op].usage, l.spilled[s].regClass, l.base + s);
  }

  lemma LoadsAreClear(l: Layout, b: nat, i: nat)
    requires Placed(l) && InputCovered(l.fx.f) && Reachable(l.fx.f, b)
    requires b < |l.fx.f.blocks| && i < |l.fx.f.blocks[b].instrs|
    ensures LoadsClear(l.fx.f, Homes(l), b, i, RewrittenInstr(l, b, i))
  {
    var x := RewrittenInstr(l, b, i);
    forall r, k | 0 <= k < |x.loads| && Tracked(l.fx.f, b, i, r)
      ensures HomeOf(Homes(l), r) != InReg(x.loads[k].reg)
    {
      LoadIsClear(l, b, i, r, x.loads[k]);
    }
  }

  /** Register `v` has been spilled, and physical register `p` is its for instruction `i`. */
  ghost predicate Transit(l: Layout, b: nat, i: nat, w: nat, v: VirtualReg, p: PhysicalReg) {
    Occupies(l, Virtual(v), p, b, w) && HomeOf(Homes(l), Virtual(v)).InSlot?
  }

  lemma BornTransits(l: Layout, a: nat, s: nat, b: nat, i: nat, v: VirtualReg, u: Usage, op: nat)
    requires Placed(l) && IsOperand(l.fx.f, b, i, op, v, u) && BornHere(l, a, s, b, i, v, u)
    ensures IsRead(u) ==> Transit(l, b, i, 2 * i, v, l.allocs[a].physicalReg)
    ensures IsWrite(u) ==> Transit(l, b, i, 2 * i + 1, v, l.allocs[a].physicalReg)
    ensures HomeOf(Homes(l), Virtual(v)) == InSlot(l.base + s)
  {
    HomeOfBornOperand(l, a, s, b, i, op, v, u);
    BornOccupies(l, a, s, b, i, v, u);
  }

  lemma LoaderTransits(l: Layout, a: nat, b: nat, i: nat) returns (v: VirtualReg)
    requires Placed(l) && a < |l.allocs| && LoadsHere(l.allocs[a], b, i)
    ensures Transit(l, b, i, 2 * i, v, l.allocs[a].physicalReg)
  {
    var s, w, op := MoverIsBornHere(l, a, b, i);
    var u := l.fx.f.blocks[b].instrs[i].regs[op].usage;
    v := w;
    BornTransits(l, a, s, b, i, v, u, op);
  }

  lemma TransitIsNoHome(l: Layout, b: nat, i: nat, r: Reg, v: VirtualReg, p: PhysicalReg)
    requires Placed(l) && PhysicalsCovered(l.fx.f) && Reachable(l.fx.f, b)
    requires b < |l.fx.f.blocks| && i < |l.fx.f.blocks[b].instrs|
    requires Transit(l, b, i, 2 * i, v, p) && Tracked(l.fx.f, b, i, r)
    ensures HomeOf(Homes(l), r) != InReg(p)
  {
    if HomeOf(Homes(l), r) == InReg(p) {
      TrackedOccupies(l, b, i, r);
      OneOccupant(l, r, Virtual(v), p, b, 2 * i);
    }
  }

  lemma LoadIsClear(l: Layout, b: nat, i: nat, r: Reg, move: SlotMove)
    requires Placed(l) && InputCovered(l.fx.f) && Reachable(l.fx.f, b)
    requires b < |l.fx.f.blocks| && i < |l.fx.f.blocks[b].instrs| && move in RewrittenInstr(l, b, i).loads
    requires Tracked(l.fx.f, b, i, r)
    ensures HomeOf(Homes(l), r) != InReg(move.reg)
  {
    RewrittenParts(l.allocs, |l.allocs|, b, i, l.fx.f.blocks[b].instrs[i]);
    LoadsAre(l.allocs, |l.allocs|, b, i, move);
    var a :| 0 <= a < |l.allocs| && LoadsHere(l.allocs[a], b, i)
      && move == SlotMove(l.allocs[a].physicalReg, l.allocs[a].bundle.srcStackSlot.value);
    var v := LoaderTransits(l, a, b, i);
    TransitIsNoHome(l, b, i, r, v, move.reg);
  }

  lemma LoadsAreDistinct(l: Layout, b: nat, i: nat)
    requires Placed(l) && b < |l.fx.f.blocks| && i < |l.fx.f.blocks[b].instrs|
    ensures LoadsApart(RewrittenInstr(l, b, i))
  {
    forall j, k | 0 <= j < k < |l.allocs|
      ensures LoadsHere(l.allocs[j], b, i) && LoadsHere(l.allocs[k], b, i) ==> l.allocs[j].physicalReg != l.allocs[k].physicalReg
    {
      if LoadsHere(l.allocs[j], b, i) && LoadsHere(l.allocs[k], b, i) {
        TwoLoadersDiffer(l, j, k, b, i);
      }
    }
    LoadsAreApart(l.allocs, |l.allocs|, b, i);
    RewrittenParts(l.allocs, |l.allocs|, b, i, l.fx.f.blocks[b].instrs[i]);
  }

  lemma SameRegisterSameAlloc(l: Layout, a: nat, v: VirtualReg, a': nat, v': VirtualReg, b: nat, w: nat)
    requires Placed(l) && a < |l.allocs| && a' < |l.allocs|
    requires OccupiedByAlloc(l, a, 0, v, l.allocs[a].physicalReg, b, w)
    requires OccupiedByAlloc(l, a', 0, v', l.allocs[a'].physicalReg, b, w)
    ensures l.allocs[a].physicalReg == l.allocs[a'].physicalReg ==> a == a'
  {
    var p := l.allocs[a].physicalReg;
    if l.allocs[a'].physicalReg == p { AllocsDoNotCollide(l, a, 0, v, a', 0, v', p, b, w); }
  }

  lemma TwoLoadersDiffer(l: Layout, j: nat, k: nat, b: nat, i: nat)
    requires Placed(l) && j < k < |l.allocs| && LoadsHere(l.allocs[j], b, i) && LoadsHere(l.allocs[k], b, i)
    ensures l.allocs[j].physicalReg != l.allocs[k].physicalReg
  {
    var _, v, _ := MoverIsBornHere(l, j, b, i);
    var _, v', _ := MoverIsBornHere(l, k, b, i);
    SameRegisterSameAlloc(l, j, v, k, v', b, 2 * i);
  }

  lemma WritesAreClear(l: Layout, b: nat, i: nat)
    requires Placed(l) && InputCovered(l.fx.f) && Reachable(l.fx.f, b)
    requires b < |l.fx.f.blocks| && i < |l.fx.f.blocks[b].instrs|
    requires |RewrittenInstr(l, b, i).regs| == |l.fx.f.blocks[b].instrs[i].regs|
    ensures WritesClear(l.fx.f, Homes(l), b, i, RewrittenInstr(l, b, i))
  {
    var x, ops := RewrittenInstr(l, b, i), l.fx.f.blocks[b].instrs[i].regs;
    forall r, j | 0 <= j < |ops| && IsWrite(ops[j].usage) && Tracked(l.fx.f, b, i + 1, r)
      ensures HomeOf(Homes(l), r).InReg? && x.regs[j].reg == Physical(HomeOf(Homes(l), r).p) ==> ops[j].reg == r
    {
      if HomeOf(Homes(l), r).InReg? && x.regs[j].reg == Physical(HomeOf(Homes(l), r).p) {
        WrittenOperandOccupies(l, b, i, j);
        TrackedOccupies(l, b, i, r);
        OneOccupant(l, r, ops[j].reg, HomeOf(Homes(l), r).p, b, 2 * i + 1);
      }
    }
    forall j, k | 0 <= j < |ops| && 0 <= k < |ops| && IsWrite(ops[j].usage) && IsWrite(ops[k].usage)
      ensures x.regs[j].reg == x.regs[k].reg ==> ops[j].reg == ops[k].reg
    {
      WrittenOperandOccupies(l, b, i, j);
      WrittenOperandOccupies(l, b, i, k);
      if x.regs[j].reg == x.regs[k].reg {
        OneOccupant(l, ops[j].reg, ops[k].reg, x.regs[j].reg.p, b, 2 * i + 1);
      }
    }
  }

  // ---- Stores ----

  /** Two registers of one spilled bundle are never covered at the same point. */
  lemma SlotHoldsOne(l: Layout, s: nat, v: VirtualReg, v': VirtualReg, b: nat, w: nat)
    requires Placed(l)
    ensures SpilledAndCovered(l, s, v, b, w) && SpilledAndCovered(l, s, v', b, w) ==> v == v'
  {
    if SpilledAndCovered(l, s, v, b, w) && SpilledAndCovered(l, s, v', b, w) {
      var k := CoveringSegment(l, s, v, b, w);
      var k' := CoveringSegment(l, s, v', b, w);
      SpilledIsInitial(l, s);
      InitialIsGood(l, l.spilled[s]);
      OneSegmentPerPoint(l.spilled[s], k, k', b, w);
    }
  }

  ghost predicate SpilledAndCovered(l: Layout, s: nat, v: VirtualReg, b: nat, w: nat) {
    SpilledReg(l, s, v) && CoveredBy(RangesOf(l.fx.f, Virtual(v)), b, w)
  }

  lemma OneSegmentPerPoint(x: Bundle, k: nat, k': nat, b: nat, w: nat)
    requires InternallyDisjoint(x) && k < |x.segments| && k' < |x.segments|
    requires x.segments[k].range.Covers(b, w) && x.segments[k'].range.Covers(b, w)
    ensures k == k'
  {
    assert x.segments[k].range.Intersects(x.segments[k'].range) && x.segments[k'].range.Intersects(x.segments[k].range);
  }

  lemma CoveringSegment(l: Layout, s: nat, v: VirtualReg, b: nat, w: nat) returns (k: nat)
    requires Placed(l) && SpilledReg(l, s, v) && CoveredBy(RangesOf(l.fx.f, Virtual(v)), b, w)
    ensures k < |l.spilled[s].segments| && l.spilled[s].segments[k].reg == v && l.spilled[s].segments[k].range.Covers(b, w)
  {
    var ranges := RangesOf(l.fx.f, Virtual(v));
    var n :| 0 <= n < |ranges| && ranges[n].Covers(b, w);
    var x;
    x, k := SegmentHasOwner(l, Segment(v, ranges[n]));
    SpilledIsInitial(l, s);
    OneOwner(l, x, l.spilled[s], v);
  }

  /** A register in the slot of a spill is one of the spilled registers. */
  lemma SlotOwner(l: Layout, r: Reg, s: nat)
    ensures HomeOf(Homes(l), r).InSlot? && HomeOf(Homes(l), r).s == l.base + s ==> r.Virtual? && SpilledReg(l, s, r.v)
  {
    if HomeOf(Homes(l), r).InSlot? && HomeOf(Homes(l), r).s == l.base + s {
      HomesAre(l, r.v);
      var s' := HomeInSlot(l, r.v);
    }
  }

  lemma WrittenIsCovered(l: Layout, b: nat, i: nat, v: VirtualReg, u: Usage, op: nat)
    requires Placed(l) && InputCovered(l.fx.f) && Reachable(l.fx.f, b) && IsOperand(l.fx.f, b, i, op, v, u) && IsWrite(u)
    ensures CoveredBy(RangesOf(l.fx.f, Virtual(v)), b, 2 * i + 1)
  {
    OperandIsNotKill(l, b, i, op, v, u);
    OperandCovered(l, b, i, v);
    assert l.fx.f.blocks[b].instrs[i].regs[op] in l.fx.f.blocks[b].instrs[i].regs;
  }

  /** A tracked register of a spill is covered where it is tracked. */
  lemma TrackedSpillIsCovered(l: Layout, s: nat, b: nat, i: nat, v: VirtualReg)
    requires Placed(l) && b < |l.fx.f.blocks| && i < |l.fx.f.blocks[b].instrs|
    ensures Tracked(l.fx.f, b, i + 1, Virtual(v)) && SpilledReg(l, s, v) ==> SpilledAndCovered(l, s, v, b, 2 * i + 1)
  {
    TrackedVirtualCovered(l.fx.f, b, i, v);
  }

  lemma StoredIsCovered(l: Layout, a: nat, s: nat, b: nat, i: nat, v: VirtualReg, u: Usage, op: nat)
    requires Placed(l) && InputCovered(l.fx.f) && Reachable(l.fx.f, b) && IsOperand(l.fx.f, b, i, op, v, u)
    requires BornHere(l, a, s, b, i, v, u) && IsWrite(u)
    ensures SpilledAndCovered(l, s, v, b, 2 * i + 1)
  {
    WrittenIsCovered(l, b, i, v, u, op);
  }

  /** A tracked register in a slot that is stored to is the one the store is for. */
  lemma StoredRegister(l: Layout, s: nat, b: nat, i: nat, v: VirtualReg, r: Reg)
    requires Placed(l) && b < |l.fx.f.blocks| && i < |l.fx.f.blocks[b].instrs|
    ensures SpilledAndCovered(l, s, v, b, 2 * i + 1) && Tracked(l.fx.f, b, i + 1, r) ==>
              HomeOf(Homes(l), r).InSlot? && HomeOf(Homes(l), r).s == l.base + s ==> r == Virtual(v)
  {
    SlotOwner(l, r, s);
    if r.Virtual? {
      TrackedSpillIsCovered(l, s, b, i, r.v);
      SlotHoldsOne(l, s, v, r.v, b, 2 * i + 1);
    }
  }

  /** An operand of a spilled register that is written goes to the one allocation born for it. */
  lemma WrittenOperandGoesTo(l: Layout, a: nat, s: nat, b: nat, i: nat, v: VirtualReg, u: Usage, op: nat)
    requires Placed(l) && InputCovered(l.fx.f) && Reachable(l.fx.f, b) && IsOperand(l.fx.f, b, i, op, v, u)
    requires BornHere(l, a, s, b, i, v, u) && IsWrite(u)
    ensures OperandIs(RewrittenInstr(l, b, i), op, RegOp(Physical(l.allocs[a].physicalReg), u))
  {
    var a' := VirtualOperandGoesTo(l, b, i, op, v, u);
    WriterIsOne(l, a, a', s, b, i, v, u, op);
  }

  lemma WriterIsOne(l: Layout, a: nat, a': nat, s: nat, b: nat, i: nat, v: VirtualReg, u: Usage, op: nat)
    requires Placed(l) && BornHere(l, a, s, b, i, v, u) && IsWrite(u) && a' < |l.allocs| && GoesTo(l, a', b, i, op, v, u)
    ensures a == a'
  {
    if HoldsReg(l, a', v) { AllocatedIsNotSpilled(l, a', s, v); }
    var s' := GoesToBorn(l, a', b, i, op, v, u);
    OneSpill(l, s, s', v);
    BornBundleShape(b, i, v, u, l.spilled[s].regClass, l.base + s);
    OneStoringAlloc(l, a, a');
  }

  lemma OnlyWriter(instr: Instr, v: VirtualReg, x: RInstr, op: nat, q: PhysicalReg)
    requires WrittenOnce(instr, v) && op < |instr.regs| && instr.regs[op].reg == Virtual(v) && IsWrite(instr.regs[op].usage)
    requires |x.regs| == |instr.regs| && x.regs[op].reg == Physical(q)
    ensures StoredOperand(instr.regs, x, instr.regs[op].reg, q)
  {
    forall j | 0 <= j < |instr.regs| && IsWrite(instr.regs[j].usage) && instr.regs[j].reg == instr.regs[op].reg
      ensures x.regs[j].reg == Physical(q)
    {
      SameUsage(instr, v, op, j);
    }
  }

  lemma StorerTells(l: Layout, a: nat, b: nat, i: nat) returns (s: nat, v: VirtualReg, op: nat, u: Usage)
    requires Placed(l) && a < |l.allocs| && StoresHere(l.allocs[a], b, i)
    ensures IsOperand(l.fx.f, b, i, op, v, u) && BornHere(l, a, s, b, i, v, u) && IsWrite(u)
    ensures l.allocs[a].bundle.dstStackSlot == Some(l.base + s) && WrittenOnce(l.fx.f.blocks[b].instrs[i], v)
  {
    s, v, op := MoverIsBornHere(l, a, b, i);
    u := l.fx.f.blocks[b].instrs[i].regs[op].usage;
    SpilledIsWrittenOnce(l, s, b, i, v);
  }

  /** The operand an allocation stores, once rewritten. */
  lemma StorerHoldsOperand(l: Layout, a: nat, b: nat, i: nat, s: nat, v: VirtualReg, op: nat, u: Usage)
    requires Placed(l) && InputCovered(l.fx.f) && Reachable(l.fx.f, b) && IsOperand(l.fx.f, b, i, op, v, u)
    requires BornHere(l, a, s, b, i, v, u) && IsWrite(u) && WrittenOnce(l.fx.f.blocks[b].instrs[i], v)
    requires |RewrittenInstr(l, b, i).regs| == |l.fx.f.blocks[b].instrs[i].regs|
    ensures StoredOperand(l.fx.f.blocks[b].instrs[i].regs, RewrittenInstr(l, b, i), Virtual(v), l.allocs[a].physicalReg)
  {
    WrittenOperandGoesTo(l, a, s, b, i, v, u, op);
    OnlyWriter(l.fx.f.blocks[b].instrs[i], v, RewrittenInstr(l, b, i), op, l.allocs[a].physicalReg);
  }

  /** Which register of which spill a storing allocation stores. */
  lemma StoringAllocTells(l: Layout, a: nat, b: nat, i: nat) returns (s: nat, v: VirtualReg)
    requires Placed(l) && InputCovered(l.fx.f) && Reachable(l.fx.f, b)
    requires b < |l.fx.f.blocks| && i < |l.fx.f.blocks[b].instrs| && a < |l.allocs| && StoresHere(l.allocs[a], b, i)
    requires |RewrittenInstr(l, b, i).regs| == |l.fx.f.blocks[b].instrs[i].regs|
    ensures SpilledAndCovered(l, s, v, b, 2 * i + 1) && l.allocs[a].bundle.dstStackSlot == Some(l.base + s)
    ensures StoredOperand(l.fx.f.blocks[b].instrs[i].regs, RewrittenInstr(l, b, i), Virtual(v), l.allocs[a].physicalReg)
  {
    var op, u;
    s, v, op, u := StorerTells(l, a, b, i);
    StoredIsCovered(l, a, s, b, i, v, u, op);
    StorerHoldsOperand(l, a, b, i, s, v, op, u);
  }

  lemma StoreTells(l: Layout, b: nat, i: nat, move: SlotMove) returns (s: nat, v: VirtualReg)
    requires Placed(l) && InputCovered(l.fx.f) && Reachable(l.fx.f, b)
    requires b < |l.fx.f.blocks| && i < |l.fx.f.blocks[b].instrs| && move in RewrittenInstr(l, b, i).stores
    requires |RewrittenInstr(l, b, i).regs| == |l.fx.f.blocks[b].instrs[i].regs|
    ensures SpilledAndCovered(l, s, v, b, 2 * i + 1) && move.slot == l.base + s
    ensures StoredOperand(l.fx.f.blocks[b].instrs[i].regs, RewrittenInstr(l, b, i), Virtual(v), move.reg)
  {
    RewrittenParts(l.allocs, |l.allocs|, b, i, l.fx.f.blocks[b].instrs[i]);
    StoresAre(l.allocs, |l.allocs|, b, i, move);
    var a :| 0 <= a < |l.allocs| && StoresHere(l.allocs[a], b, i)
      && move == SlotMove(l.allocs[a].physicalReg, l.allocs[a].bundle.dstStackSlot.value);
    s, v := StoringAllocTells(l, a, b, i);
  }

  lemma StoresAreClear(l: Layout, b: nat, i: nat)
    requires Placed(l) && InputCovered(l.fx.f) && Reachable(l.fx.f, b)
    requires b < |l.fx.f.blocks| && i < |l.fx.f.blocks[b].instrs|
    requires |RewrittenInstr(l, b, i).regs| == |l.fx.f.blocks[b].instrs[i].regs|
    ensures StoresClear(l.fx.f, Homes(l), b, i, RewrittenInstr(l, b, i))
  {
    var x, ops := RewrittenInstr(l, b, i), l.fx.f.blocks[b].instrs[i].regs;
    forall r, k | 0 <= k < |x.stores| && Tracked(l.fx.f, b, i + 1, r) && HomeOf(Homes(l), r) == InSlot(x.stores[k].slot)
      ensures StoredOperand(ops, x, r, x.stores[k].reg)
    {
      var s, v := StoreTells(l, b, i, x.stores[k]);
      StoredRegister(l, s, b, i, v, r);
    }
  }

  // ---- The whole function ----

  /** Every rewritten instruction reads, writes, loads and stores where the values belong. */
  lemma InstrIsSound(l: Layout, b: nat, i: nat)
    requires Placed(l) && InputCovered(l.fx.f) && Reachable(l.fx.f, b)
    requires b < |l.fx.f.blocks| && i < |l.fx.f.blocks[b].instrs|
    ensures InstrSound(l.fx.f, Homes(l), b, i, RewrittenInstr(l, b, i))
  {
    var instr, x := l.fx.f.blocks[b].instrs[i], RewrittenInstr(l, b, i);
    RewrittenParts(l.allocs, |l.allocs|, b, i, instr);
    forall j | 0 <= j < |instr.regs|
      ensures OperandSound(Homes(l), instr, x, j)
    {
      OperandIsSound(l, b, i, j);
    }
    LoadsAreDistinct(l, b, i);
    LoadsAreClear(l, b, i);
    WritesAreClear(l, b, i);
    StoresAreClear(l, b, i);
  }

  lemma RemovalKeepsSound(f: Func, home: map<VirtualReg, Home>, b: nat, i: nat, x: RInstr, removable: (nat, seq<RegOp>) -> bool)
    requires b < |f.blocks| && i < |f.blocks[b].instrs| && InstrSound(f, home, b, i, x)
    ensures InstrSound(f, home, b, i, Marked(x, removable))
  {
    var instr, y := f.blocks[b].instrs[i], Marked(x, removable);
    forall j | 0 <= j < |instr.regs|
      ensures OperandSound(home, instr, y, j)
    {
      assert OperandSound(home, instr, x, j);
    }
    forall r, k | 0 <= k < |y.stores| && Tracked(f, b, i + 1, r) && HomeOf(home, r) == InSlot(y.stores[k].slot)
      ensures StoredOperand(instr.regs, y, r, y.stores[k].reg)
    {
      assert StoredOperand(instr.regs, x, r, x.stores[k].reg);
    }
  }

  /** Allocation done safely, and applied, gives code that keeps every value where it belongs. */
  lemma AllocationIsSound(l: Layout, removable: (nat, seq<RegOp>) -> bool, code: Code)
    requires Placed(l) && InputCovered(l.fx.f) && FinalCode(l.fx.f, l.allocs, removable, code)
    ensures CodeSound(l.fx.f, Homes(l), code) && RemovedAreRemovable(code, removable)
  {
    forall b, i | 0 <= b < |code| && Reachable(l.fx.f, b) && 0 <= i < |code[b]|
      ensures InstrSound(l.fx.f, Homes(l), b, i, code[b][i])
    {
      InstrIsSound(l, b, i);
      RemovalKeepsSound(l.fx.f, Homes(l), b, i, RewrittenInstr(l, b, i), removable);
    }
  }
}
