/** The allocator's mutable context and the methods that work on it (src/banjo/codegen/reg_alloc_pass.cpp). */
module AllocContext {
  import opened RegAllocFunc
  import opened Bundles
  import opened Worklist
  import opened AllocStep

  lemma ReachableAtOnce(fx: Fixed, s: Ctx)
    ensures ReachableCtx(fx, s, s)
  {
    assert Run(fx, [s]);
  }

  lemma ReachableNext(fx: Fixed, s0: Ctx, s: Ctx, s': Ctx)
    requires ReachableCtx(fx, s0, s) && Step(fx, s, s')
    ensures ReachableCtx(fx, s0, s')
  {
    var run :| Run(fx, run) && run[0] == s0 && run[|run| - 1] == s;
    var longer := run + [s'];
    forall k | 0 <= k < |longer| - 1
      ensures Step(fx, longer[k], longer[k + 1])
    {
    }
    assert Run(fx, longer) && longer[0] == s0 && longer[|longer| - 1] == s';
  }

  /** What is known when the queue has run dry. */
  ghost predicate Allocated(fx: Fixed, legal: (RegClass, PhysicalReg) -> bool, initial: seq<Bundle>, base: StackSlotID,
                            allocs: seq<Alloc>, spilled: seq<Bundle>)
  {
    var s := Ctx([], allocs, base + |spilled|);
    && Safe(fx, legal, s) && CtxInFunc(fx.f, s)
    && Conserved(fx.f, s, spilled, base, initial)
    && AllEvictable(spilled)
  }

  ghost predicate SpillableSegment(f: Func, s: Segment) {
    s.range.WellFormed() && s.range.block < |f.blocks| && s.range.end.instr < |f.blocks[s.range.block].instrs|
  }

  lemma SegmentsSpillable(f: Func, b: Bundle, k: nat)
    requires InFunc(f, b) && WellShaped(b) && k < |b.segments|
    ensures SpillableSegment(f, b.segments[k])
  {
  }

  ghost predicate AllEvictable(bundles: seq<Bundle>) {
    forall k | 0 <= k < |bundles| :: bundles[k].evictable
  }

  class Context {
    const fx: Fixed
    var bundles: seq<Bundle>
    var allocs: seq<Alloc>
    var nextSlot: StackSlotID

    constructor (fx: Fixed, bundles: seq<Bundle>, nextSlot: StackSlotID)
      ensures this.fx == fx && State() == Ctx(bundles, [], nextSlot)
    {
      this.fx, this.bundles, this.allocs, this.nextSlot := fx, bundles, [], nextSlot;
    }

    function State(): Ctx
      reads this
    {
      Ctx(bundles, allocs, nextSlot)
    }

    method MeetsReservedSegment(b: Bundle, p: PhysicalReg) returns (meets: bool)
      ensures meets <==> MeetsReserved(fx.reserved, b, p)
    {
      for k := 0 to |b.segments|
        invariant forall j, l :: 0 <= j < k && b.segments[j].range.block < |fx.reserved|
                    && 0 <= l < |fx.reserved[b.segments[j].range.block]|
                    && fx.reserved[b.segments[j].range.block][l].reg == p
                    ==> !b.segments[j].range.Intersects(fx.reserved[b.segments[j].range.block][l].range)
      {
        var segment := b.segments[k];
        if segment.range.block < |fx.reserved| {
          var reserved := fx.reserved[segment.range.block];
          for l := 0 to |reserved|
            invariant forall m :: 0 <= m < l && reserved[m].reg == p ==> !segment.range.Intersects(reserved[m].range)
          {
            if p == reserved[l].reg && segment.range.Intersects(reserved[l].range) {
              return true;
            }
          }
        }
      }
      return false;
    }

    method MeetsAllocation(b: Bundle, p: PhysicalReg) returns (meets: bool)
      ensures meets <==> MeetsAlloc(allocs, b, p)
    {
      for k := 0 to |allocs|
        invariant forall j :: 0 <= j < k && allocs[j].physicalReg == p ==> !Clash(allocs[j].bundle, b)
      {
        if allocs[k].physicalReg == p {
          var clash := Intersect(allocs[k].bundle, b);
          if clash {
            return true;
          }
        }
      }
      return false;
    }

    method IsAllocPossible(b: Bundle, p: PhysicalReg) returns (possible: bool)
      ensures possible <==> AllocPossible(fx, allocs, b, p)
    {
      var reserved := MeetsReservedSegment(b, p);
      if reserved {
        return false;
      }
      var taken := MeetsAllocation(b, p);
      return !taken;
    }

    /** Takes the first register of the list that is free. */
    method TryAssign(b: Bundle, regs: seq<PhysicalReg>) returns (done: bool)
      modifies this`allocs
      ensures done <==> FirstPossible(fx, old(allocs), b, regs).Some?
      ensures allocs == if done then old(allocs) + [Alloc(FirstPossible(fx, old(allocs), b, regs).value, b)] else old(allocs)
    {
      for k := 0 to |regs|
        invariant allocs == old(allocs) && FirstPossible(fx, allocs, b, regs) == FirstPossible(fx, allocs, b, regs[k..])
      {
        var possible := IsAllocPossible(b, regs[k]);
        assert regs[k..][0] == regs[k] && regs[k..][1..] == regs[k + 1..];
        if possible {
          allocs := allocs + [Alloc(regs[k], b)];
          return true;
        }
      }
      return false;
    }

    method CanEvictAlloc(b: Bundle, alloc: Alloc) returns (can: bool)
      ensures can <==> CanEvict(b, alloc)
    {
      if !alloc.bundle.evictable || alloc.bundle.regClass != b.regClass {
        return false;
      }
      var outer := alloc.bundle.segments;
      for k := 0 to |b.segments|
        invariant forall j | 0 <= j < k :: InsideSegments(b.segments[j].range, alloc.bundle)
      {
        var found := false;
        for l := 0 to |outer|
          invariant found <==> exists m :: 0 <= m < l && outer[m].range.Contains(b.segments[k].range)
        {
          if outer[l].range.Contains(b.segments[k].range) {
            found := true;
          }
        }
        if !found {
          assert !InsideSegments(b.segments[k].range, alloc.bundle);
          return false;
        }
      }
      return true;
    }

    method TryEvict(b: Bundle) returns (done: bool)
      modifies this`bundles, this`allocs
      ensures done <==> Victim(old(allocs), b).Some?
      ensures !done ==> State() == old(State())
      ensures done ==>
                var v := Victim(old(allocs), b).value;
                && v < |old(allocs)|
                && bundles == old(bundles) + [old(allocs)[v].bundle]
                && allocs == old(allocs)[v := old(allocs)[v].(bundle := b)]
    {
      if b.evictable {
        return false;
      }
      for k := 0 to |allocs|
        invariant State() == old(State()) && FirstEvictable(allocs, b, 0) == FirstEvictable(allocs, b, k)
      {
        var can := CanEvictAlloc(b, allocs[k]);
        if can {
          bundles := bundles + [allocs[k].bundle];
          allocs := allocs[k := allocs[k].(bundle := b)];
          return true;
        }
      }
      return false;
    }

    /** Gives up on a register: one small bundle per operand, all sharing a new stack slot. */
    method Spill(b: Bundle)
      requires InFunc(fx.f, b) && WellShaped(b)
      modifies this`bundles, this`nextSlot
      ensures nextSlot == old(nextSlot) + 1
      ensures bundles == old(bundles) + Born(fx.f, b, old(nextSlot))
    {
      var slot := nextSlot;
      nextSlot := nextSlot + 1;
      for k := 0 to |b.segments|
        invariant nextSlot == slot + 1 && bundles == old(bundles) + BornOf(fx.f, b, slot, k)
      {
        SegmentsSpillable(fx.f, b, k);
        SpillSegment(b.segments[k], b.regClass, slot);
      }
    }

    method SpillSegment(segment: Segment, c: RegClass, slot: StackSlotID)
      requires SpillableSegment(fx.f, segment)
      modifies this`bundles
      ensures bundles == old(bundles) + BornOfSegment(fx.f, segment, c, slot)
    {
      var range := segment.range;
      var instrs := fx.f.blocks[range.block].instrs;
      for instr := range.start.instr to range.end.instr + 1
        invariant bundles == old(bundles) + BornOfInstrs(range.block, instrs, segment.reg, c, slot, range.start.instr, instr)
      {
        SpillInstr(range.block, instr, instrs[instr].regs, segment.reg, c, slot);
      }
    }

    method SpillInstr(block: nat, instr: nat, ops: seq<RegOp>, v: VirtualReg, c: RegClass, slot: StackSlotID)
      modifies this`bundles
      ensures bundles == old(bundles) + BornOfOps(block, instr, ops, v, c, slot, |ops|)
    {
      for j := 0 to |ops|
        invariant bundles == old(bundles) + BornOfOps(block, instr, ops, v, c, slot, j)
      {
        if ops[j].reg == Virtual(v) && ops[j].usage != Kill {
          bundles := bundles + [BornBundle(block, instr, v, ops[j].usage, c, slot)];
        }
      }
    }

    method TryAllocate(b: Bundle)
      requires InFunc(fx.f, b) && WellShaped(b)
      modifies this
      ensures State() == AllocBundle(fx, old(State()), b)
      ensures Treated(fx, old(State()), b, State())
    {
      BundleIsTreated(fx, State(), b);
      FirstEvictableCanBeEvicted(allocs, b, 0);
      // First, try to allocate one of the registers suggested by the target.
      var done := TryAssign(b, fx.analyzer.suggest(b.segments));
      if done { return; }
      // Next, try any register allowed for the class.
      done := TryAssign(b, fx.analyzer.candidates(b.regClass));
      if done { return; }
      // Next, try to evict an existing allocation.
      done := TryEvict(b);
      if done { return; }
      // Finally, spill to the stack.
      Spill(b);
    }

    /** Pops and allocates one bundle; which entry the priority queue yields does not matter. */
    method AllocateOne(ghost legal: (RegClass, PhysicalReg) -> bool, ghost s0: Ctx, ghost spilled: seq<Bundle>)
      returns (ghost spilled': seq<Bundle>)
      requires LegalRegs(fx, legal) && bundles != []
      requires LoopInv(fx, legal, s0, State(), spilled) && NoBornBundleStuck(fx, State()) && AllHopeless(fx, s0, spilled)
      modifies this
      ensures LoopInv(fx, legal, s0, State(), spilled') && Smaller(State(), old(State())) && AllHopeless(fx, s0, spilled')
    {
      var k :| 0 <= k < |bundles|;
      SpilledIsHopeless(fx, s0, State(), k, spilled);
      StepFacts(fx, legal, s0, State(), k, spilled);
      ghost var next := StepAt(fx, State(), k);
      spilled' := SpilledAfter(fx, State(), bundles[k], spilled);
      var bundle := bundles[k];
      bundles := Remove(bundles, k);
      TryAllocate(bundle);
      assert State() == next;
    }

    /** Runs the worklist dry. */
    method AllocateAll(ghost legal: (RegClass, PhysicalReg) -> bool) returns (ghost spilled: seq<Bundle>)
      requires LegalRegs(fx, legal) && allocs == []
      requires Safe(fx, legal, State()) && CtxInFunc(fx.f, State())
      requires forall s :: ReachableCtx(fx, State(), s) ==> NoBornBundleStuck(fx, s)
      modifies this
      ensures bundles == [] && nextSlot == old(nextSlot) + |spilled|
      ensures Allocated(fx, legal, old(bundles), old(nextSlot), allocs, spilled)
      ensures ReachableCtx(fx, old(State()), State()) && AllHopeless(fx, old(State()), spilled)
    {
      spilled := [];
      ghost var s0 := State();
      ReachableAtOnce(fx, s0);
      NothingSpilledYet(fx.f, s0);
      while bundles != []
        invariant LoopInv(fx, legal, s0, State(), spilled) && AllHopeless(fx, s0, spilled)
        decreases Chances(State()), Fixedly(State()), |bundles|
      {
        assert NoBornBundleStuck(fx, State());
        spilled := AllocateOne(legal, s0, spilled);
      }
      LoopDone(fx, legal, s0, State(), spilled);
    }
  }

  ghost predicate LoopInv(fx: Fixed, legal: (RegClass, PhysicalReg) -> bool, s0: Ctx, s: Ctx, spilled: seq<Bundle>) {
    && ReachableCtx(fx, s0, s)
    && Safe(fx, legal, s) && CtxInFunc(fx.f, s)
    && Conserved(fx.f, s, spilled, s0.nextSlot, s0.bundles)
    && AllEvictable(spilled)
  }

  lemma LoopDone(fx: Fixed, legal: (RegClass, PhysicalReg) -> bool, s0: Ctx, s: Ctx, spilled: seq<Bundle>)
    requires LoopInv(fx, legal, s0, s, spilled) && s.bundles == []
    ensures Allocated(fx, legal, s0.bundles, s0.nextSlot, s.allocs, spilled)
    ensures s.nextSlot == s0.nextSlot + |spilled|
  {
    assert s == Ctx([], s.allocs, s0.nextSlot + |spilled|);
  }

  lemma NothingSpilledYet(f: Func, s: Ctx)
    requires s.allocs == []
    ensures Conserved(f, s, [], s.nextSlot, s.bundles)
  {
    forall x
      ensures ConservedAt(f, s, [], s.nextSlot, s.bundles, x)
    {
    }
  }

  lemma NextIsSafe(fx: Fixed, legal: (RegClass, PhysicalReg) -> bool, s: Ctx, k: nat)
    requires LegalRegs(fx, legal) && k < |s.bundles|
    ensures Safe(fx, legal, s) && CtxInFunc(fx.f, s) ==>
              Safe(fx, legal, StepAt(fx, s, k)) && CtxInFunc(fx.f, StepAt(fx, s, k))
              && InFunc(fx.f, s.bundles[k]) && WellShaped(s.bundles[k])
  {
    if Safe(fx, legal, s) && CtxInFunc(fx.f, s) {
      assert Step(fx, s, StepAt(fx, s, k));
      StepKeepsSafe(fx, legal, s, StepAt(fx, s, k));
      PoppedIsSafe(fx, legal, s, k);
    }
  }

  lemma NextIsReachable(fx: Fixed, s0: Ctx, s: Ctx, k: nat)
    requires k < |s.bundles|
    ensures ReachableCtx(fx, s0, s) ==> ReachableCtx(fx, s0, StepAt(fx, s, k))
  {
    if ReachableCtx(fx, s0, s) {
      assert Step(fx, s, StepAt(fx, s, k));
      ReachableNext(fx, s0, s, StepAt(fx, s, k));
    }
  }

  lemma NextIsConserved(fx: Fixed, s: Ctx, k: nat, spilled: seq<Bundle>, base: StackSlotID, initial: seq<Bundle>)
    requires k < |s.bundles| && NoBornBundleStuck(fx, s)
    ensures Conserved(fx.f, s, spilled, base, initial) && AllEvictable(spilled) ==>
              var spilled' := SpilledAfter(fx, s, s.bundles[k], spilled);
              Conserved(fx.f, StepAt(fx, s, k), spilled', base, initial) && AllEvictable(spilled')
  {
    if Conserved(fx.f, s, spilled, base, initial) { StepConserves(fx, s, k, spilled, base, initial); }
  }

  /** Everything the loop needs to know about one step. */
  lemma StepFacts(fx: Fixed, legal: (RegClass, PhysicalReg) -> bool, s0: Ctx, s: Ctx, k: nat, spilled: seq<Bundle>)
    requires LegalRegs(fx, legal) && k < |s.bundles|
    requires LoopInv(fx, legal, s0, s, spilled) && NoBornBundleStuck(fx, s)
    ensures LoopInv(fx, legal, s0, StepAt(fx, s, k), SpilledAfter(fx, s, s.bundles[k], spilled))
    ensures Smaller(StepAt(fx, s, k), s)
    ensures InFunc(fx.f, s.bundles[k]) && WellShaped(s.bundles[k])
  {
    NextIsReachable(fx, s0, s, k);
    NextIsSafe(fx, legal, s, k);
    NextIsConserved(fx, s, k, spilled, s0.nextSlot, s0.bundles);
    StepDecreases(fx, s, k);
  }
}
