/**
  A condition under which spill code always fits: every instruction leaves each class enough registers for the operands
  that may take one of them. It can be checked from live ranges before allocation begins.
 */
module RegistersSuffice {
  import opened RegAllocFunc
  import opened LivenessSpec
  import opened LiveRanges
  import opened FuncRanges
  import opened Bundles
  import opened Worklist
  import opened AllocContext
  import opened Spills
  import opened WorklistEnds
  import opened Placement
  import opened RegAllocPass

  // ---- The condition ----

  /** The instruction at which, and the class for which, registers are counted, and the classes that may take them. */
  datatype Site = Site(b: nat, i: nat, c: RegClass, counts: RegClass -> bool)

  ghost predicate ValidSite(f: Func, t: Site) {
    t.b < |f.blocks| && t.i < |f.blocks[t.b].instrs|
  }

  function OpsAt(f: Func, t: Site): seq<RegOp>
    requires t.b < |f.blocks| && t.i < |f.blocks[t.b].instrs|
  {
    f.blocks[t.b].instrs[t.i].regs
  }

  /** Bundles of class `d` may take registers that are candidates of class `c`. */
  predicate Rivals(analyzer: Analyzer, legal: (RegClass, PhysicalReg) -> bool, c: RegClass, d: RegClass) {
    c == d || exists p :: p in analyzer.candidates(c) && legal(d, p)
  }

  function SiteFor(analyzer: Analyzer, legal: (RegClass, PhysicalReg) -> bool, b: nat, i: nat, c: RegClass): Site {
    Site(b, i, c, (d: RegClass) => Rivals(analyzer, legal, c, d))
  }

  predicate Wants(op: RegOp, counts: RegClass -> bool, regClasses: VirtualReg -> RegClass) {
    op.reg.Virtual? && op.usage != Kill && counts(regClasses(op.reg.v))
  }

  /** How many of the first `n` operands are virtual registers of the classes. */
  function Wanted(ops: seq<RegOp>, counts: RegClass -> bool, regClasses: VirtualReg -> RegClass, n: nat): nat
    requires n <= |ops|
  {
    if n == 0 then 0 else Wanted(ops, counts, regClasses, n - 1) + if Wants(ops[n - 1], counts, regClasses) then 1 else 0
  }

  function Around(b: nat, i: nat): LiveRange {
    LiveRange(b, Point(i, 0), Point(i, 1))
  }

  /** The function itself needs the physical register at the instruction. */
  ghost predicate Taken(f: Func, t: Site, p: PhysicalReg)
    requires ValidSite(f, t)
  {
    || Has(f.blocks[t.b].instrs[t.i], Physical(p), Kill)
    || exists range :: range in RangesOf(f, Physical(p)) && range.Intersects(Around(t.b, t.i))
  }

  ghost function Untaken(f: Func, analyzer: Analyzer, t: Site): set<PhysicalReg>
    requires ValidSite(f, t)
  {
    set p | p in analyzer.candidates(t.c) && !Taken(f, t, p)
  }

  /** A register of another class is live around the instruction: what holds it cannot be evicted for the class. */
  ghost predicate Crosses(f: Func, t: Site, regClasses: VirtualReg -> RegClass, v: VirtualReg) {
    Outsider(t, regClasses(v)) && exists range :: range in RangesOf(f, Virtual(v)) && range.Spans(t.b, t.i)
  }

  predicate Outsider(t: Site, c: RegClass) {
    c != t.c && t.counts(c)
  }

  ghost predicate AllCross(f: Func, t: Site, regClasses: VirtualReg -> RegClass, vs: set<VirtualReg>) {
    forall v | v in vs :: Crosses(f, t, regClasses, v)
  }

  /** Registers for all operands, and for all that cross the instruction. */
  ghost predicate EnoughAt(f: Func, analyzer: Analyzer, t: Site)
    requires ValidSite(f, t)
  {
    forall vs {:trigger AllCross(f, t, analyzer.regClasses, vs)} :: AllCross(f, t, analyzer.regClasses, vs) ==>
      Wanted(OpsAt(f, t), t.counts, analyzer.regClasses, |OpsAt(f, t)|) + |vs| <= |Untaken(f, analyzer, t)|
  }

  /** At every instruction each class has at least as many registers left as there are operands that may take one of them. */
  ghost predicate EnoughRegisters(f: Func, analyzer: Analyzer, legal: (RegClass, PhysicalReg) -> bool) {
    forall b, i, c {:trigger SiteFor(analyzer, legal, b, i, c)} :: ValidSite(f, SiteFor(analyzer, legal, b, i, c)) ==>
      EnoughAt(f, analyzer, SiteFor(analyzer, legal, b, i, c))
  }

  /** Only the class itself is counted. */
  function SiteAlone(b: nat, i: nat, c: RegClass): Site {
    Site(b, i, c, (d: RegClass) => d == c)
  }

  /** Every instruction leaves each class as many registers as it has operands of the class. */
  ghost predicate EnoughForClasses(f: Func, analyzer: Analyzer) {
    forall b, i, c {:trigger SiteAlone(b, i, c)} :: ValidSite(f, SiteAlone(b, i, c)) ==> EnoughForOperands(f, analyzer, SiteAlone(b, i, c))
  }

  ghost predicate EnoughForOperands(f: Func, analyzer: Analyzer, t: Site)
    requires ValidSite(f, t)
  {
    Wanted(OpsAt(f, t), t.counts, analyzer.regClasses, |OpsAt(f, t)|) <= |Untaken(f, analyzer, t)|
  }

  /** No register belongs to two classes. */
  ghost predicate ClassesApart(legal: (RegClass, PhysicalReg) -> bool) {
    forall c, d, p :: legal(c, p) && legal(d, p) ==> c == d
  }

  lemma {:induction false} SameWanted(ops: seq<RegOp>, counts: RegClass -> bool, counts': RegClass -> bool, regClasses: VirtualReg -> RegClass,
                                      n: nat)
    requires n <= |ops| && forall d :: counts(d) <==> counts'(d)
    ensures Wanted(ops, counts, regClasses, n) == Wanted(ops, counts', regClasses, n)
  {
    if n > 0 { SameWanted(ops, counts, counts', regClasses, n - 1); }
  }

  lemma NoneCrosses(f: Func, t: Site, regClasses: VirtualReg -> RegClass, vs: set<VirtualReg>)
    requires forall d :: t.counts(d) <==> d == t.c
    ensures AllCross(f, t, regClasses, vs) <==> vs == {}
  {
    if vs != {} {
      var v :| v in vs;
      assert !Crosses(f, t, regClasses, v);
    }
  }

  lemma EnoughForClass(f: Func, analyzer: Analyzer, t: Site)
    requires ValidSite(f, t) && forall d :: t.counts(d) <==> d == t.c
    ensures EnoughAt(f, analyzer, t) <==> EnoughForOperands(f, analyzer, SiteAlone(t.b, t.i, t.c))
  {
    SameWanted(OpsAt(f, t), t.counts, SiteAlone(t.b, t.i, t.c).counts, analyzer.regClasses, |OpsAt(f, t)|);
    assert Untaken(f, analyzer, t) == Untaken(f, analyzer, SiteAlone(t.b, t.i, t.c));
    forall vs
      ensures AllCross(f, t, analyzer.regClasses, vs) <==> vs == {}
    {
      NoneCrosses(f, t, analyzer.regClasses, vs);
    }
    assert AllCross(f, t, analyzer.regClasses, {});
  }

  /** With separate classes only operands of the class itself count. */
  lemma EnoughWhenApart(f: Func, analyzer: Analyzer, legal: (RegClass, PhysicalReg) -> bool)
    requires ClassesApart(legal) && forall c, p :: p in analyzer.candidates(c) ==> legal(c, p)
    ensures EnoughRegisters(f, analyzer, legal) <==> EnoughForClasses(f, analyzer)
  {
    forall b: nat, i: nat, c: RegClass
      ensures var t := SiteFor(analyzer, legal, b, i, c);
              ValidSite(f, t) ==> (EnoughAt(f, analyzer, t) <==> EnoughForOperands(f, analyzer, SiteAlone(b, i, c)))
    {
      var t := SiteFor(analyzer, legal, b, i, c);
      if ValidSite(f, t) { EnoughForClass(f, analyzer, t); }
    }
    if EnoughForClasses(f, analyzer) {
      forall b: nat, i: nat, c: RegClass | ValidSite(f, SiteFor(analyzer, legal, b, i, c))
        ensures EnoughAt(f, analyzer, SiteFor(analyzer, legal, b, i, c))
      {
        assert ValidSite(f, SiteAlone(b, i, c));
      }
    }
    if EnoughRegisters(f, analyzer, legal) {
      forall b: nat, i: nat, c: RegClass | ValidSite(f, SiteAlone(b, i, c))
        ensures EnoughForOperands(f, analyzer, SiteAlone(b, i, c))
      {
        assert ValidSite(f, SiteFor(analyzer, legal, b, i, c));
      }
    }
  }

  // ---- What each bundle may need there ----

  /** How many of the first `n` operands name `v`. */
  function Names(ops: seq<RegOp>, v: VirtualReg, n: nat): nat
    requires n <= |ops|
  {
    if n == 0 then 0 else Names(ops, v, n - 1) + if ops[n - 1].reg == Virtual(v) && ops[n - 1].usage != Kill then 1 else 0
  }

  function SegmentNeed(f: Func, t: Site, s: Segment, n: nat): nat
    requires t.b < |f.blocks| && t.i < |f.blocks[t.b].instrs| && n <= |OpsAt(f, t)|
  {
    if s.range.Spans(t.b, t.i) then Names(OpsAt(f, t), s.reg, n) else 0
  }

  function SegmentsNeed(f: Func, t: Site, segments: seq<Segment>, n: nat): nat
    requires t.b < |f.blocks| && t.i < |f.blocks[t.b].instrs| && n <= |OpsAt(f, t)|
  {
    if segments == [] then 0
    else SegmentsNeed(f, t, segments[..|segments| - 1], n) + SegmentNeed(f, t, segments[|segments| - 1], n)
  }

  predicate Spanning(t: Site, segments: seq<Segment>) {
    exists k :: 0 <= k < |segments| && segments[k].range.Spans(t.b, t.i)
  }

  function Passing(t: Site, x: Bundle): nat {
    if Outsider(t, x.regClass) && x.evictable && Spanning(t, x.segments) then 1 else 0
  }

  /**
    A bundle may need a register for each operand it would be split into, and one as it is if its class is another; a bundle
    born of a spill needs one.
   */
  function Need(f: Func, t: Site, x: Bundle): nat
    requires t.b < |f.blocks| && t.i < |f.blocks[t.b].instrs|
  {
    if !t.counts(x.regClass) then 0
    else if x.evictable then SegmentsNeed(f, t, x.segments, |OpsAt(f, t)|) + Passing(t, x)
    else if |x.segments| > 0 && x.segments[0].range.Spans(t.b, t.i) then 1 else 0
  }

  function Needs(f: Func, t: Site, q: seq<Bundle>): nat
    requires t.b < |f.blocks| && t.i < |f.blocks[t.b].instrs|
  {
    if q == [] then 0 else Needs(f, t, q[..|q| - 1]) + Need(f, t, q[|q| - 1])
  }

  function AllNeeds(f: Func, t: Site, s: Ctx): nat
    requires t.b < |f.blocks| && t.i < |f.blocks[t.b].instrs|
  {
    Needs(f, t, s.bundles) + Needs(f, t, BundlesOf(s.allocs))
  }

  lemma {:induction false} NeedsConcat(f: Func, t: Site, p: seq<Bundle>, q: seq<Bundle>)
    requires ValidSite(f, t)
    ensures Needs(f, t, p + q) == Needs(f, t, p) + Needs(f, t, q)
  {
    if q == [] {
      assert p + q == p;
    } else {
      assert (p + q)[..|p + q| - 1] == p + q[..|q| - 1];
      NeedsConcat(f, t, p, q[..|q| - 1]);
    }
  }

  lemma NeedsOne(f: Func, t: Site, x: Bundle)
    requires ValidSite(f, t)
    ensures Needs(f, t, [x]) == Need(f, t, x)
  {
    assert [x][..0] == [];
  }

  lemma NeedsAround(f: Func, t: Site, q: seq<Bundle>, k: nat, mid: seq<Bundle>)
    requires ValidSite(f, t) && k < |q|
    ensures Needs(f, t, q[..k] + mid + q[k + 1..]) + Need(f, t, q[k]) == Needs(f, t, q) + Needs(f, t, mid)
  {
    NeedsConcat(f, t, q[..k], mid);
    NeedsConcat(f, t, q[..k] + mid, q[k + 1..]);
    NeedsConcat(f, t, q[..k], [q[k]]);
    NeedsConcat(f, t, q[..k] + [q[k]], q[k + 1..]);
    NeedsOne(f, t, q[k]);
    assert q == q[..k] + [q[k]] + q[k + 1..];
  }

  // ---- Spilling does not change what is needed ----

  lemma BornNeed(f: Func, t: Site, b: nat, i: nat, v: VirtualReg, u: Usage, c: RegClass, slot: StackSlotID)
    requires ValidSite(f, t) && u != Kill
    ensures Need(f, t, BornBundle(b, i, v, u, c, slot)) == if t.counts(c) && b == t.b && i == t.i then 1 else 0
  {
    BornBundleShape(b, i, v, u, c, slot);
  }

  lemma {:induction false} BornOfOpsNeed(f: Func, t: Site, b: nat, i: nat, ops: seq<RegOp>, v: VirtualReg, c: RegClass, slot: StackSlotID,
                                         n: nat)
    requires ValidSite(f, t) && n <= |ops|
    ensures Needs(f, t, BornOfOps(b, i, ops, v, c, slot, n)) == if t.counts(c) && b == t.b && i == t.i then Names(ops, v, n) else 0
  {
    if n > 0 {
      var before := BornOfOps(b, i, ops, v, c, slot, n - 1);
      BornOfOpsNeed(f, t, b, i, ops, v, c, slot, n - 1);
      if ops[n - 1].reg == Virtual(v) && ops[n - 1].usage != Kill {
        var x := BornBundle(b, i, v, ops[n - 1].usage, c, slot);
        BornNeed(f, t, b, i, v, ops[n - 1].usage, c, slot);
        NeedsConcat(f, t, before, [x]);
        NeedsOne(f, t, x);
      } else {
        assert BornOfOps(b, i, ops, v, c, slot, n) == before;
      }
    }
  }

  lemma {:induction false} BornOfInstrsNeed(f: Func, t: Site, b: nat, v: VirtualReg, c: RegClass, slot: StackSlotID, lo: nat, hi: nat)
    requires ValidSite(f, t) && b < |f.blocks| && lo <= hi <= |f.blocks[b].instrs|
    ensures Needs(f, t, BornOfInstrs(b, f.blocks[b].instrs, v, c, slot, lo, hi)) ==
            if t.counts(c) && b == t.b && lo <= t.i < hi then Names(OpsAt(f, t), v, |OpsAt(f, t)|) else 0
    decreases hi
  {
    if lo < hi {
      var instrs := f.blocks[b].instrs;
      var ops := instrs[hi - 1].regs;
      BornOfInstrsNeed(f, t, b, v, c, slot, lo, hi - 1);
      BornOfOpsNeed(f, t, b, hi - 1, ops, v, c, slot, |ops|);
      NeedsConcat(f, t, BornOfInstrs(b, instrs, v, c, slot, lo, hi - 1), BornOfOps(b, hi - 1, ops, v, c, slot, |ops|));
    }
  }

  lemma BornOfSegmentNeed(f: Func, t: Site, s: Segment, c: RegClass, slot: StackSlotID)
    requires ValidSite(f, t) && s.range.block < |f.blocks| && s.range.end.instr < |f.blocks[s.range.block].instrs|
    ensures Needs(f, t, BornOfSegment(f, s, c, slot)) == if t.counts(c) then SegmentNeed(f, t, s, |OpsAt(f, t)|) else 0
  {
    if s.range.start.instr <= s.range.end.instr {
      BornOfInstrsNeed(f, t, s.range.block, s.reg, c, slot, s.range.start.instr, s.range.end.instr + 1);
    }
  }

  lemma SegmentsNeedNext(f: Func, t: Site, segments: seq<Segment>, n: nat, m: nat)
    requires ValidSite(f, t) && n < |segments| && m <= |OpsAt(f, t)|
    ensures SegmentsNeed(f, t, segments[..n + 1], m) == SegmentsNeed(f, t, segments[..n], m) + SegmentNeed(f, t, segments[n], m)
  {
    assert segments[..n + 1][..n] == segments[..n];
  }

  lemma BornOfNext(f: Func, t: Site, x: Bundle, slot: StackSlotID, n: nat)
    requires ValidSite(f, t) && 0 < n <= |x.segments|
    ensures Needs(f, t, BornOf(f, x, slot, n)) ==
            Needs(f, t, BornOf(f, x, slot, n - 1)) + Needs(f, t, BornOfSegment(f, x.segments[n - 1], x.regClass, slot))
  {
    NeedsConcat(f, t, BornOf(f, x, slot, n - 1), BornOfSegment(f, x.segments[n - 1], x.regClass, slot));
  }

  lemma {:induction false} BornOfNeed(f: Func, t: Site, x: Bundle, slot: StackSlotID, n: nat)
    requires ValidSite(f, t) && InFunc(f, x) && n <= |x.segments|
    ensures Needs(f, t, BornOf(f, x, slot, n)) == if t.counts(x.regClass) then SegmentsNeed(f, t, x.segments[..n], |OpsAt(f, t)|) else 0
  {
    if n > 0 {
      BornOfNeed(f, t, x, slot, n - 1);
      BornOfSegmentNeed(f, t, x.segments[n - 1], x.regClass, slot);
      BornOfNext(f, t, x, slot, n);
      SegmentsNeedNext(f, t, x.segments, n - 1, |OpsAt(f, t)|);
    }
  }

  /** The bundles a spill produces need together no more than the spilled bundle may have needed. */
  lemma SpillKeepsNeed(f: Func, t: Site, x: Bundle, slot: StackSlotID)
    requires ValidSite(f, t) && InFunc(f, x) && x.evictable
    ensures Needs(f, t, Born(f, x, slot)) <= Need(f, t, x)
  {
    BornOfNeed(f, t, x, slot, |x.segments|);
    assert x.segments[..|x.segments|] == x.segments;
  }

  lemma AssignKeepsNeeds(f: Func, t: Site, allocs: seq<Alloc>, a: Alloc)
    requires ValidSite(f, t)
    ensures Needs(f, t, BundlesOf(allocs + [a])) == Needs(f, t, BundlesOf(allocs)) + Need(f, t, a.bundle)
  {
    BundlesOfConcat(allocs, a);
    NeedsConcat(f, t, BundlesOf(allocs), [a.bundle]);
    NeedsOne(f, t, a.bundle);
  }

  lemma EvictKeepsNeeds(f: Func, t: Site, allocs: seq<Alloc>, v: nat, x: Bundle)
    requires ValidSite(f, t) && v < |allocs|
    ensures Needs(f, t, BundlesOf(allocs[v := allocs[v].(bundle := x)])) + Need(f, t, allocs[v].bundle)
         == Needs(f, t, BundlesOf(allocs)) + Need(f, t, x)
  {
    BundlesOfUpdate(allocs, v, x);
    NeedsAround(f, t, BundlesOf(allocs), v, [x]);
    NeedsOne(f, t, x);
  }

  /** No step raises what is needed, unless it spills a bundle born of a spill. */
  lemma StepKeepsNeeds(fx: Fixed, t: Site, s: Ctx, k: nat)
    requires ValidSite(fx.f, t) && k < |s.bundles| && InFunc(fx.f, s.bundles[k]) && NoBornBundleStuck(fx, s)
    ensures AllNeeds(fx.f, t, StepAt(fx, s, k)) <= AllNeeds(fx.f, t, s)
  {
    var f, x, q := fx.f, s.bundles[k], Remove(s.bundles, k);
    var reg, victim := ChosenReg(fx, s.allocs, x), Victim(s.allocs, x);
    StepAtIs(fx, s, k);
    assert q == s.bundles[..k] + [] + s.bundles[k + 1..];
    NeedsAround(f, t, s.bundles, k, []);
    if reg.Some? {
      AssignKeepsNeeds(f, t, s.allocs, Alloc(reg.value, x));
    } else if victim.Some? {
      EvictKeepsNeeds(f, t, s.allocs, victim.value, x);
      NeedsConcat(f, t, q, [s.allocs[victim.value].bundle]);
      NeedsOne(f, t, s.allocs[victim.value].bundle);
    } else {
      SpillKeepsNeed(f, t, x, s.nextSlot);
      NeedsConcat(f, t, q, Born(f, x, s.nextSlot));
    }
  }

  // ---- What is needed at the start ----

  /** How many of the segments are for the register that `op` names, and reach the instruction. */
  function Naming(t: Site, segments: seq<Segment>, op: RegOp): nat {
    if segments == [] then 0
    else Naming(t, segments[..|segments| - 1], op) + if Concerns(t, segments[|segments| - 1], op) then 1 else 0
  }

  predicate Concerns(t: Site, s: Segment, op: RegOp) {
    s.range.Spans(t.b, t.i) && op.reg == Virtual(s.reg) && op.usage != Kill
  }

  function BundlesNaming(t: Site, q: seq<Bundle>, op: RegOp): nat {
    if q == [] then 0
    else BundlesNaming(t, q[..|q| - 1], op) + if t.counts(q[|q| - 1].regClass) then Naming(t, q[|q| - 1].segments, op) else 0
  }

  function NeedUpTo(f: Func, t: Site, q: seq<Bundle>, n: nat): nat
    requires t.b < |f.blocks| && t.i < |f.blocks[t.b].instrs| && n <= |OpsAt(f, t)|
  {
    if q == [] then 0
    else NeedUpTo(f, t, q[..|q| - 1], n) + if t.counts(q[|q| - 1].regClass) then SegmentsNeed(f, t, q[|q| - 1].segments, n) else 0
  }

  lemma {:induction false} OneMoreOperand(f: Func, t: Site, segments: seq<Segment>, n: nat)
    requires ValidSite(f, t) && 0 < n <= |OpsAt(f, t)|
    ensures SegmentsNeed(f, t, segments, n) == SegmentsNeed(f, t, segments, n - 1) + Naming(t, segments, OpsAt(f, t)[n - 1])
  {
    if segments != [] { OneMoreOperand(f, t, segments[..|segments| - 1], n); }
  }

  lemma {:induction false} OneMoreOperandInAll(f: Func, t: Site, q: seq<Bundle>, n: nat)
    requires ValidSite(f, t) && 0 < n <= |OpsAt(f, t)|
    ensures NeedUpTo(f, t, q, n) == NeedUpTo(f, t, q, n - 1) + BundlesNaming(t, q, OpsAt(f, t)[n - 1])
  {
    if q != [] {
      OneMoreOperandInAll(f, t, q[..|q| - 1], n);
      OneMoreOperand(f, t, q[|q| - 1].segments, n);
    }
  }

  lemma {:induction false} NoOperandsNoNeed(f: Func, t: Site, segments: seq<Segment>)
    requires ValidSite(f, t)
    ensures SegmentsNeed(f, t, segments, 0) == 0
  {
    if segments != [] { NoOperandsNoNeed(f, t, segments[..|segments| - 1]); }
  }

  lemma {:induction false} NoOperandsNoNeeds(f: Func, t: Site, q: seq<Bundle>)
    requires ValidSite(f, t)
    ensures NeedUpTo(f, t, q, 0) == 0
  {
    if q != [] {
      NoOperandsNoNeeds(f, t, q[..|q| - 1]);
      NoOperandsNoNeed(f, t, q[|q| - 1].segments);
    }
  }

  ghost predicate ConcernedBefore(t: Site, segments: seq<Segment>, op: RegOp, n: nat)
    requires n <= |segments|
  {
    exists k :: 0 <= k < n && Concerns(t, segments[k], op)
  }

  /** One bundle has at most one segment for an operand. */
  lemma {:induction false} NamingOnce(t: Site, x: Bundle, op: RegOp, n: nat)
    requires SegmentsShareNothing(x) && n <= |x.segments|
    ensures Naming(t, x.segments[..n], op) <= if ConcernedBefore(t, x.segments, op, n) then 1 else 0
  {
    if n > 0 {
      NamingOnce(t, x, op, n - 1);
      assert x.segments[..n][..n - 1] == x.segments[..n - 1];
      if Concerns(t, x.segments[n - 1], op) {
        forall k | 0 <= k < n - 1
          ensures !Concerns(t, x.segments[k], op)
        {
          assert ShareNothing(x.segments[k], x.segments[n - 1]);
        }
      }
    }
  }

  ghost predicate HoldsBefore(q: seq<Bundle>, op: RegOp, n: nat)
    requires n <= |q|
  {
    op.reg.Virtual? && exists k :: 0 <= k < n && op.reg.v in RegsOf(q[k])
  }

  lemma NamingHolds(t: Site, x: Bundle, op: RegOp)
    requires SegmentsShareNothing(x)
    ensures Naming(t, x.segments, op) <= 1
    ensures Naming(t, x.segments, op) > 0 ==> op.usage != Kill && op.reg.Virtual? && op.reg.v in RegsOf(x)
  {
    NamingOnce(t, x, op, |x.segments|);
    assert x.segments[..|x.segments|] == x.segments;
    if ConcernedBefore(t, x.segments, op, |x.segments|) {
      var k :| 0 <= k < |x.segments| && Concerns(t, x.segments[k], op);
      assert x.segments[k] in x.segments;
    }
  }

  /** All initial bundles together have at most one segment for an operand, and it is of the operand's class. */
  lemma {:induction false} BundlesNamingOnce(f: Func, regClasses: VirtualReg -> RegClass, initial: seq<Bundle>, t: Site, op: RegOp, n: nat)
    requires ValidFunc(f) && VirtualsPlain(f) && InitialBundles(f, regClasses, initial) && n <= |initial|
    ensures BundlesNaming(t, initial[..n], op) <= if HoldsBefore(initial, op, n) && Wants(op, t.counts, regClasses) then 1 else 0
  {
    if n > 0 {
      var x := initial[n - 1];
      BundlesNamingOnce(f, regClasses, initial, t, op, n - 1);
      assert initial[..n][..n - 1] == initial[..n - 1];
      InitialBundleSharesNothing(f, regClasses, initial, x);
      InitialBundleIsGood(f, regClasses, initial, x);
      NamingHolds(t, x, op);
      if t.counts(x.regClass) && Naming(t, x.segments, op) > 0 {
        var s :| s in x.segments && s.reg == op.reg.v;
        assert Wants(op, t.counts, regClasses);
        forall k | 0 <= k < n - 1
          ensures op.reg.v !in RegsOf(initial[k])
        {
          assert Separate(initial[k], initial[n - 1]);
        }
      }
    }
  }

  lemma {:induction false} NeedUpToWanted(f: Func, regClasses: VirtualReg -> RegClass, initial: seq<Bundle>, t: Site, n: nat)
    requires ValidFunc(f) && VirtualsPlain(f) && InitialBundles(f, regClasses, initial) && ValidSite(f, t) && n <= |OpsAt(f, t)|
    ensures NeedUpTo(f, t, initial, n) <= Wanted(OpsAt(f, t), t.counts, regClasses, n)
  {
    if n == 0 {
      NoOperandsNoNeeds(f, t, initial);
    } else {
      NeedUpToWanted(f, regClasses, initial, t, n - 1);
      OneMoreOperandInAll(f, t, initial, n);
      BundlesNamingOnce(f, regClasses, initial, t, OpsAt(f, t)[n - 1], |initial|);
      assert initial[..|initial|] == initial;
    }
  }

  function AllPassing(t: Site, q: seq<Bundle>): nat {
    if q == [] then 0 else AllPassing(t, q[..|q| - 1]) + Passing(t, q[|q| - 1])
  }

  lemma {:induction false} NeedsAreUpTo(f: Func, t: Site, q: seq<Bundle>)
    requires ValidSite(f, t) && forall k | 0 <= k < |q| :: q[k].evictable
    ensures Needs(f, t, q) == NeedUpTo(f, t, q, |OpsAt(f, t)|) + AllPassing(t, q)
  {
    if q != [] { NeedsAreUpTo(f, t, q[..|q| - 1]); }
  }

  ghost predicate HeldBefore(q: seq<Bundle>, vs: set<VirtualReg>, n: nat)
    requires n <= |q|
  {
    forall v | v in vs :: Held(q, v, n)
  }

  ghost predicate Held(q: seq<Bundle>, v: VirtualReg, n: nat)
    requires n <= |q|
  {
    exists k :: 0 <= k < n && v in RegsOf(q[k])
  }

  /** A bundle that passes holds a register that crosses. */
  lemma PassingCrosses(f: Func, regClasses: VirtualReg -> RegClass, initial: seq<Bundle>, t: Site, x: Bundle) returns (v: VirtualReg)
    requires InitialBundles(f, regClasses, initial) && x in initial && Passing(t, x) > 0
    ensures v in RegsOf(x) && Crosses(f, t, regClasses, v)
  {
    var k :| 0 <= k < |x.segments| && x.segments[k].range.Spans(t.b, t.i);
    v := x.segments[k].reg;
    assert x.segments[k] in x.segments;
    InitialBundleIsGood(f, regClasses, initial, x);
    InitialSegmentIsRange(f, regClasses, initial, x, k);
  }

  lemma AnotherCrosses(initial: seq<Bundle>, vs: set<VirtualReg>, n: nat, v: VirtualReg)
    requires SeparateRegs(initial) && (forall k | 0 <= k < |initial| :: !initial[k].deleted)
    requires n < |initial| && HeldBefore(initial, vs, n) && v in RegsOf(initial[n])
    ensures v !in vs && HeldBefore(initial, vs + {v}, n + 1)
  {
    forall k | 0 <= k < n
      ensures v !in RegsOf(initial[k])
    {
      assert Separate(initial[k], initial[n]);
    }
    assert !Held(initial, v, n);
    StillHeld(initial, vs, n);
    assert Held(initial, v, n + 1);
  }

  lemma StillHeld(initial: seq<Bundle>, vs: set<VirtualReg>, n: nat)
    requires n < |initial| && HeldBefore(initial, vs, n)
    ensures HeldBefore(initial, vs, n + 1)
  {
    forall v | v in vs
      ensures Held(initial, v, n + 1)
    {
      assert Held(initial, v, n);
      var k :| 0 <= k < n && v in RegsOf(initial[k]);
      assert 0 <= k < n + 1 && v in RegsOf(initial[k]);
    }
  }

  lemma AllPassingNext(t: Site, q: seq<Bundle>, n: nat)
    requires 0 < n <= |q|
    ensures AllPassing(t, q[..n]) == AllPassing(t, q[..n - 1]) + Passing(t, q[n - 1])
  {
    assert q[..n][..n - 1] == q[..n - 1];
  }

  lemma OneMoreCrosses(f: Func, regClasses: VirtualReg -> RegClass, initial: seq<Bundle>, t: Site, n: nat, vs: set<VirtualReg>)
      returns (vs': set<VirtualReg>)
    requires InitialBundles(f, regClasses, initial) && n < |initial| && AllCross(f, t, regClasses, vs) && HeldBefore(initial, vs, n)
    ensures AllCross(f, t, regClasses, vs') && HeldBefore(initial, vs', n + 1) && |vs'| == |vs| + Passing(t, initial[n])
  {
    if Passing(t, initial[n]) > 0 {
      var v := PassingCrosses(f, regClasses, initial, t, initial[n]);
      AnotherCrosses(initial, vs, n, v);
      vs' := vs + {v};
    } else {
      StillHeld(initial, vs, n);
      vs' := vs;
    }
  }

  /** Each of the bundles that pass holds another register that crosses. */
  lemma {:induction false} PassingAreCrossing(f: Func, regClasses: VirtualReg -> RegClass, initial: seq<Bundle>, t: Site, n: nat)
      returns (vs: set<VirtualReg>)
    requires InitialBundles(f, regClasses, initial) && n <= |initial|
    ensures AllCross(f, t, regClasses, vs) && HeldBefore(initial, vs, n) && |vs| == AllPassing(t, initial[..n])
  {
    if n == 0 {
      vs := {};
    } else {
      var before := PassingAreCrossing(f, regClasses, initial, t, n - 1);
      vs := OneMoreCrosses(f, regClasses, initial, t, n - 1, before);
      AllPassingNext(t, initial, n);
    }
  }

  /** Before allocation the bundles need no more than there are operands, and registers of other classes that cross. */
  lemma InitialNeeds(f: Func, regClasses: VirtualReg -> RegClass, initial: seq<Bundle>, t: Site) returns (vs: set<VirtualReg>)
    requires ValidFunc(f) && VirtualsPlain(f) && InitialBundles(f, regClasses, initial) && ValidSite(f, t)
    ensures AllCross(f, t, regClasses, vs)
    ensures Needs(f, t, initial) <= Wanted(OpsAt(f, t), t.counts, regClasses, |OpsAt(f, t)|) + |vs|
  {
    forall k | 0 <= k < |initial|
      ensures initial[k].evictable
    {
      InitialBundleIsGood(f, regClasses, initial, initial[k]);
    }
    NeedsAreUpTo(f, t, initial);
    NeedUpToWanted(f, regClasses, initial, t, |OpsAt(f, t)|);
    vs := PassingAreCrossing(f, regClasses, initial, t, |initial|);
    assert initial[..|initial|] == initial;
  }

  // ---- Where ranges start and end ----

  /** A range that ends or starts in the middle of an instruction does so at an operand of it. */
  ghost predicate Anchored(range: LiveRange, instrs: seq<Instr>, r: Reg) {
    && range.start.instr < |instrs| && range.end.instr < |instrs|
    && (range.end.stage == 0 ==> ReadsReg(instrs[range.end.instr], r))
    && (range.start.stage == 1 ==> WritesReg(instrs[range.start.instr], r))
  }

  ghost predicate AllAnchored(ranges: seq<LiveRange>, instrs: seq<Instr>, r: Reg) {
    forall k | 0 <= k < |ranges| :: Anchored(ranges[k], instrs, r)
  }

  lemma {:induction false} OpsKeepAnchored(s: RegScan, b: nat, i: nat, instrs: seq<Instr>, r: Reg, k: nat)
    requires i < |instrs| && k <= |instrs[i].regs| && AllAnchored(s.ranges, instrs, r)
    ensures AllAnchored(ScanOps(s, b, i, instrs[i].regs, r, k).ranges, instrs, r)
  {
    if k > 0 {
      OpsKeepAnchored(s, b, i, instrs, r, k - 1);
      assert instrs[i].regs[k - 1] in instrs[i].regs;
    }
  }

  lemma {:induction false} ScanKeepsAnchored(b: nat, instrs: seq<Instr>, r: Reg, out: bool, i: nat)
    requires i <= |instrs| && |instrs| > 0
    ensures AllAnchored(ScanInstrs(b, instrs, r, out, i).ranges, instrs, r)
    decreases |instrs| - i
  {
    if i < |instrs| {
      ScanKeepsAnchored(b, instrs, r, out, i + 1);
      OpsKeepAnchored(ScanInstrs(b, instrs, r, out, i + 1), b, i, instrs, r, |instrs[i].regs|);
    }
  }

  lemma RangesAreAnchored(f: Func, r: Reg, range: LiveRange)
    requires range in RangesOf(f, r)
    ensures range.block < |f.blocks| && Anchored(range, f.blocks[range.block].instrs, r)
  {
    RangesUpToAreThoseOfBlocks(f, r, |f.blocks|, range);
    var instrs := f.blocks[range.block].instrs;
    ScanKeepsAnchored(range.block, instrs, r, r in LiveOuts(f, range.block), 0);
    BlockRangesStayInBlock(f, r, range.block);
  }

  lemma {:induction false} NamedOnce(ops: seq<RegOp>, v: VirtualReg, n: nat, j: nat)
    requires j < n <= |ops| && ops[j].reg == Virtual(v) && ops[j].usage != Kill
    ensures Names(ops, v, n) > 0
  {
    if j < n - 1 { NamedOnce(ops, v, n - 1, j); }
  }

  lemma OperandIsNamed(instr: Instr, v: VirtualReg)
    requires ReadsReg(instr, Virtual(v)) || WritesReg(instr, Virtual(v))
    ensures Names(instr.regs, v, |instr.regs|) > 0
  {
    var j :| 0 <= j < |instr.regs| && instr.regs[j].reg == Virtual(v) && instr.regs[j].usage != Kill;
    NamedOnce(instr.regs, v, |instr.regs|, j);
  }

  lemma {:induction false} SegmentsNeedAtLeast(f: Func, t: Site, segments: seq<Segment>, k: nat, m: nat)
    requires ValidSite(f, t) && k < |segments| && m <= |OpsAt(f, t)|
    ensures SegmentsNeed(f, t, segments, m) >= SegmentNeed(f, t, segments[k], m)
  {
    if k < |segments| - 1 { SegmentsNeedAtLeast(f, t, segments[..|segments| - 1], k, m); }
  }

  // ---- Who can be in the way ----

  /** A bundle that was born of an operand of the instruction, of the class. */
  ghost predicate WaitsAt(t: Site, x: Bundle) {
    && !x.evictable && x.regClass == t.c && |x.segments| == 1 && x.segments[0].range.WellFormed()
    && x.segments[0].range.block == t.b && x.segments[0].range.start.instr == x.segments[0].range.end.instr == t.i
  }

  lemma OverlapEndsHere(range: LiveRange, x: LiveRange, i: nat)
    requires range.WellFormed() && x.WellFormed() && x.start.instr == x.end.instr == i
    requires range.Intersects(x) && !range.Contains(x)
    ensures range.start == Point(i, 1) || range.end == Point(i, 0)
    ensures range.Spans(x.block, i)
  {
  }

  /** An initial bundle that overlaps such a bundle but does not contain it has an operand at the instruction. */
  lemma PartialOverlapNeeds(f: Func, regClasses: VirtualReg -> RegClass, initial: seq<Bundle>, t: Site, x: Bundle, y: Bundle, k: nat)
    requires InitialBundles(f, regClasses, initial) && ValidSite(f, t) && WaitsAt(t, x) && y in initial && k < |y.segments|
    requires y.segments[k].range.Intersects(x.segments[0].range) && !y.segments[k].range.Contains(x.segments[0].range)
    ensures SegmentsNeed(f, t, y.segments, |OpsAt(f, t)|) > 0
  {
    var s := y.segments[k];
    InitialBundleIsGood(f, regClasses, initial, y);
    InitialSegmentIsRange(f, regClasses, initial, y, k);
    RangesAreAnchored(f, Virtual(s.reg), s.range);
    OverlapEndsHere(s.range, x.segments[0].range, t.i);
    OperandIsNamed(f.blocks[t.b].instrs[t.i], s.reg);
    SegmentsNeedAtLeast(f, t, y.segments, k, |OpsAt(f, t)|);
  }

  /** Bundles in play are initial, or were born of operands. */
  ghost predicate Known(f: Func, initial: seq<Bundle>, x: Bundle) {
    if x.evictable then x in initial else IsBorn(f, x)
  }

  ghost predicate AllKnown(f: Func, initial: seq<Bundle>, s: Ctx) {
    && (forall k | 0 <= k < |s.bundles| :: Known(f, initial, s.bundles[k]))
    && forall k | 0 <= k < |s.allocs| :: Known(f, initial, s.allocs[k].bundle)
  }

  lemma BornSits(f: Func, x: Bundle)
    requires IsBorn(f, x)
    ensures !x.evictable && |x.segments| == 1 && x.segments[0].range.WellFormed()
    ensures x.segments[0].range.start.instr == x.segments[0].range.end.instr
    ensures var range := x.segments[0].range; range.block < |f.blocks| && range.start.instr < |f.blocks[range.block].instrs|
  {
    var v, c, slot, b: nat, i: nat, j: nat :| BornFrom(f, v, c, slot, b, i, j, x);
    BornBundleShape(b, i, v, f.blocks[b].instrs[i].regs[j].usage, c, slot);
  }

  lemma ContainedIsInside(t: Site, x: Bundle, y: Bundle, j: nat)
    requires WaitsAt(t, x) && j < |y.segments|
    ensures y.segments[j].range.Contains(x.segments[0].range) ==> Inside(x, y)
  {
    if y.segments[j].range.Contains(x.segments[0].range) { assert InsideSegments(x.segments[0].range, y); }
  }

  lemma OutsiderPasses(f: Func, regClasses: VirtualReg -> RegClass, initial: seq<Bundle>, t: Site, x: Bundle, y: Bundle, j: nat)
    requires InitialBundles(f, regClasses, initial) && WaitsAt(t, x) && y in initial && Outsider(t, y.regClass) && j < |y.segments|
    requires y.segments[j].range.Intersects(x.segments[0].range)
    ensures Passing(t, y) == 1
  {
    InitialBundleIsGood(f, regClasses, initial, y);
    MeetingSpans(t, x.segments[0].range, y.segments[j].range);
  }

  lemma MeetingSpans(t: Site, x: LiveRange, y: LiveRange)
    requires x.block == t.b && x.start.instr == x.end.instr == t.i && x.WellFormed() && y.WellFormed() && y.Intersects(x)
    ensures y.Spans(t.b, t.i)
  {
  }

  lemma EvictableBlockerNeeds(f: Func, regClasses: VirtualReg -> RegClass, initial: seq<Bundle>, t: Site, x: Bundle, y: Bundle, j: nat)
    requires InitialBundles(f, regClasses, initial) && ValidSite(f, t) && WaitsAt(t, x) && y in initial && j < |y.segments|
    requires y.segments[j].range.Intersects(x.segments[0].range) && !Inside(x, y)
    ensures SegmentsNeed(f, t, y.segments, |OpsAt(f, t)|) > 0
  {
    ContainedIsInside(t, x, y, j);
    PartialOverlapNeeds(f, regClasses, initial, t, x, y, j);
  }

  lemma BornBlockerNeeds(f: Func, t: Site, x: Bundle, y: Bundle, j: nat)
    requires ValidSite(f, t) && WaitsAt(t, x) && IsBorn(f, y) && j < |y.segments| && t.counts(y.regClass)
    requires y.segments[j].range.Intersects(x.segments[0].range)
    ensures Need(f, t, y) > 0
  {
    BornSits(f, y);
  }

  /** Whoever keeps a waiting bundle from a register, and cannot be evicted, has an operand of the class at the instruction. */
  lemma BlockerNeeds(f: Func, regClasses: VirtualReg -> RegClass, initial: seq<Bundle>, t: Site, x: Bundle, a: Alloc)
    requires InitialBundles(f, regClasses, initial) && ValidSite(f, t) && WaitsAt(t, x) && Known(f, initial, a.bundle)
    requires Clash(a.bundle, x) && !CanEvict(x, a) && t.counts(a.bundle.regClass)
    ensures Need(f, t, a.bundle) > 0
  {
    var y := a.bundle;
    var j, k :| 0 <= j < |y.segments| && 0 <= k < |x.segments| && y.segments[j].range.Intersects(x.segments[k].range);
    if y.evictable && y.regClass == t.c {
      EvictableBlockerNeeds(f, regClasses, initial, t, x, y, j);
    } else if y.evictable {
      OutsiderPasses(f, regClasses, initial, t, x, y, j);
    } else {
      BornBlockerNeeds(f, t, x, y, j);
    }
  }

  // ---- Counting registers ----

  /** The registers of allocations that need something at the instruction. */
  ghost function Needing(f: Func, t: Site, allocs: seq<Alloc>): set<PhysicalReg>
    requires ValidSite(f, t)
  {
    set k | 0 <= k < |allocs| && Need(f, t, allocs[k].bundle) > 0 :: allocs[k].physicalReg
  }

  lemma NeedingNext(f: Func, t: Site, allocs: seq<Alloc>, last: Alloc)
    requires ValidSite(f, t)
    ensures Needing(f, t, allocs + [last]) == Needing(f, t, allocs) + if Need(f, t, last.bundle) > 0 then {last.physicalReg} else {}
  {
    var all := allocs + [last];
    forall p
      ensures p in Needing(f, t, all) <==>
              p in Needing(f, t, allocs) || (Need(f, t, last.bundle) > 0 && p == last.physicalReg)
    {
      if p in Needing(f, t, allocs) {
        var k :| 0 <= k < |allocs| && Need(f, t, allocs[k].bundle) > 0 && allocs[k].physicalReg == p;
        assert all[k] == allocs[k];
      }
      if Need(f, t, last.bundle) > 0 && p == last.physicalReg { assert all[|allocs|] == last; }
    }
  }

  lemma {:induction false} NeedingIsSmall(f: Func, t: Site, allocs: seq<Alloc>)
    requires ValidSite(f, t)
    ensures |Needing(f, t, allocs)| <= Needs(f, t, BundlesOf(allocs))
  {
    if allocs == [] {
      assert Needing(f, t, allocs) == {};
    } else {
      var before, last := allocs[..|allocs| - 1], allocs[|allocs| - 1];
      assert allocs == before + [last];
      NeedingIsSmall(f, t, before);
      AssignKeepsNeeds(f, t, before, last);
      NeedingNext(f, t, before, last);
    }
  }

  lemma SubsetIsSmaller<T>(a: set<T>, b: set<T>)
    requires a <= b
    ensures |a| <= |b|
  {
    assert b == a + (b - a);
  }

  lemma {:induction false} NeedsAtLeast(f: Func, t: Site, q: seq<Bundle>, k: nat)
    requires ValidSite(f, t) && k < |q|
    ensures Needs(f, t, q) >= Need(f, t, q[k])
  {
    if k < |q| - 1 { NeedsAtLeast(f, t, q[..|q| - 1], k); }
  }

  // ---- No bundle is ever stuck ----

  /** Nowhere is more needed than at the start. */
  ghost predicate NeedsWithin(f: Func, initial: seq<Bundle>, s: Ctx) {
    forall t {:trigger AllNeeds(f, t, s)} :: ValidSite(f, t) ==> AllNeeds(f, t, s) <= Needs(f, t, initial)
  }

  /** All rivals are counted. */
  ghost predicate CountsRivals(analyzer: Analyzer, legal: (RegClass, PhysicalReg) -> bool, t: Site) {
    forall d :: Rivals(analyzer, legal, t.c, d) ==> t.counts(d)
  }

  /** A reserved segment in the way of a waiting bundle is a use of the register by the function itself. */
  lemma ReservedIsTaken(fx: Fixed, t: Site, x: Bundle, p: PhysicalReg)
    requires ReservedIs(fx) && ValidSite(fx.f, t) && WaitsAt(t, x) && MeetsReserved(fx.reserved, x, p)
    ensures Taken(fx.f, t, p)
  {
    var k, l :| 0 <= k < |x.segments| && x.segments[k].range.block < |fx.reserved|
      && 0 <= l < |fx.reserved[x.segments[k].range.block]|
      && fx.reserved[x.segments[k].range.block][l].reg == p
      && x.segments[k].range.Intersects(fx.reserved[x.segments[k].range.block][l].range);
    var s := fx.reserved[t.b][l];
    assert ReservedExactly(fx, t.b, s);
    assert s.range.Intersects(Around(t.b, t.i));
    if s.range !in RangesOf(fx.f, Physical(p)) {
      var kp :| IsKillPoint(fx.f, kp) && s == KillSegment(kp);
    }
  }

  /** A register the function leaves alone, but which a waiting bundle cannot have, is held for an operand here. */
  lemma RefusedIsNeeded(fx: Fixed, legal: (RegClass, PhysicalReg) -> bool, initial: seq<Bundle>, s: Ctx, t: Site, x: Bundle, p: PhysicalReg)
    requires InitialBundles(fx.f, fx.analyzer.regClasses, initial) && LegalRegs(fx, legal) && CountsRivals(fx.analyzer, legal, t)
    requires Safe(fx, legal, s) && AllKnown(fx.f, initial, s) && ValidSite(fx.f, t) && WaitsAt(t, x)
    requires p in fx.analyzer.candidates(t.c) && MeetsAlloc(s.allocs, x, p) && Victim(s.allocs, x).None?
    ensures p in Needing(fx.f, t, s.allocs)
  {
    var a :| 0 <= a < |s.allocs| && s.allocs[a].physicalReg == p && Clash(s.allocs[a].bundle, x);
    FirstEvictableCanBeEvicted(s.allocs, x, 0);
    assert SafeAlloc(fx, legal, s.allocs[a]) && Known(fx.f, initial, s.allocs[a].bundle);
    BlockerNeeds(fx.f, fx.analyzer.regClasses, initial, t, x, s.allocs[a]);
  }

  /** Where a bundle is stuck, more registers are needed than the instruction has operands. */
  lemma StuckMeansCrowded(fx: Fixed, legal: (RegClass, PhysicalReg) -> bool, initial: seq<Bundle>, s: Ctx, t: Site, k: nat)
    requires InitialBundles(fx.f, fx.analyzer.regClasses, initial) && LegalRegs(fx, legal) && CountsRivals(fx.analyzer, legal, t)
    requires ReservedIs(fx) && Safe(fx, legal, s) && AllKnown(fx.f, initial, s)
    requires ValidSite(fx.f, t) && StuckAt(fx, s, k) && WaitsAt(t, s.bundles[k])
    ensures |Untaken(fx.f, fx.analyzer, t)| < AllNeeds(fx.f, t, s)
  {
    var x := s.bundles[k];
    FirstPossibleIsPossible(fx, s.allocs, x, fx.analyzer.candidates(x.regClass));
    forall p | p in Untaken(fx.f, fx.analyzer, t)
      ensures p in Needing(fx.f, t, s.allocs)
    {
      if MeetsReserved(fx.reserved, x, p) { ReservedIsTaken(fx, t, x, p); }
      RefusedIsNeeded(fx, legal, initial, s, t, x, p);
    }
    SubsetIsSmaller(Untaken(fx.f, fx.analyzer, t), Needing(fx.f, t, s.allocs));
    NeedingIsSmall(fx.f, t, s.allocs);
    NeedsAtLeast(fx.f, t, s.bundles, k);
  }

  /** The site a bundle born of a spill waits at. */
  lemma BornSite(f: Func, analyzer: Analyzer, legal: (RegClass, PhysicalReg) -> bool, x: Bundle) returns (t: Site)
    requires IsBorn(f, x)
    ensures ValidSite(f, t) && WaitsAt(t, x) && t == SiteFor(analyzer, legal, t.b, t.i, t.c)
  {
    BornSits(f, x);
    t := SiteFor(analyzer, legal, x.segments[0].range.block, x.segments[0].range.start.instr, x.regClass);
  }

  lemma EnoughIsNotCrowded(fx: Fixed, legal: (RegClass, PhysicalReg) -> bool, initial: seq<Bundle>, s: Ctx, t: Site)
    requires ValidFunc(fx.f) && VirtualsPlain(fx.f) && InitialBundles(fx.f, fx.analyzer.regClasses, initial)
    requires EnoughRegisters(fx.f, fx.analyzer, legal) && NeedsWithin(fx.f, initial, s)
    requires t == SiteFor(fx.analyzer, legal, t.b, t.i, t.c) && ValidSite(fx.f, t)
    ensures AllNeeds(fx.f, t, s) <= |Untaken(fx.f, fx.analyzer, t)|
  {
    var vs := InitialNeeds(fx.f, fx.analyzer.regClasses, initial, t);
    assert EnoughAt(fx.f, fx.analyzer, SiteFor(fx.analyzer, legal, t.b, t.i, t.c));
  }

  lemma EnoughMeansNotStuck(fx: Fixed, legal: (RegClass, PhysicalReg) -> bool, initial: seq<Bundle>, s: Ctx)
    requires ValidFunc(fx.f) && VirtualsPlain(fx.f) && InitialBundles(fx.f, fx.analyzer.regClasses, initial) && LegalRegs(fx, legal)
    requires ReservedIs(fx) && Safe(fx, legal, s) && AllKnown(fx.f, initial, s)
    requires EnoughRegisters(fx.f, fx.analyzer, legal) && NeedsWithin(fx.f, initial, s)
    ensures NoBornBundleStuck(fx, s)
  {
    forall k: nat
      ensures !StuckAt(fx, s, k)
    {
      if StuckAt(fx, s, k) {
        var t := BornSite(fx.f, fx.analyzer, legal, s.bundles[k]);
        StuckMeansCrowded(fx, legal, initial, s, t, k);
        EnoughIsNotCrowded(fx, legal, initial, s, t);
      }
    }
    StuckIff(fx, s);
  }

  // ---- Over whole runs ----

  /** What every state of a run satisfies. */
  ghost predicate Roomy(fx: Fixed, legal: (RegClass, PhysicalReg) -> bool, initial: seq<Bundle>, s: Ctx) {
    Safe(fx, legal, s) && CtxInFunc(fx.f, s) && AllKnown(fx.f, initial, s) && NeedsWithin(fx.f, initial, s)
  }

  lemma StepKeepsKnown(fx: Fixed, initial: seq<Bundle>, s: Ctx, k: nat)
    requires k < |s.bundles| && AllKnown(fx.f, initial, s) && InFunc(fx.f, s.bundles[k])
    ensures AllKnown(fx.f, initial, StepAt(fx, s, k))
  {
    var s', born := StepAt(fx, s, k), Born(fx.f, s.bundles[k], s.nextSlot);
    StepAtIs(fx, s, k);
    FirstEvictableCanBeEvicted(s.allocs, s.bundles[k], 0);
    forall n | 0 <= n < |born|
      ensures Known(fx.f, initial, born[n])
    {
      BornAreBorn(fx.f, s.bundles[k], s.nextSlot, born[n]);
      BornAreUnevictable(fx.f, s.bundles[k], s.nextSlot, born[n]);
    }
  }

  lemma StepKeepsWithin(fx: Fixed, initial: seq<Bundle>, s: Ctx, k: nat)
    requires k < |s.bundles| && InFunc(fx.f, s.bundles[k]) && NoBornBundleStuck(fx, s) && NeedsWithin(fx.f, initial, s)
    ensures NeedsWithin(fx.f, initial, StepAt(fx, s, k))
  {
    forall t | ValidSite(fx.f, t)
      ensures AllNeeds(fx.f, t, StepAt(fx, s, k)) <= Needs(fx.f, t, initial)
    {
      StepKeepsNeeds(fx, t, s, k);
    }
  }

  lemma StepKeepsRoomy(fx: Fixed, legal: (RegClass, PhysicalReg) -> bool, initial: seq<Bundle>, s: Ctx, k: nat)
    requires LegalRegs(fx, legal) && k < |s.bundles| && NoBornBundleStuck(fx, s)
    ensures Roomy(fx, legal, initial, s) ==> Roomy(fx, legal, initial, StepAt(fx, s, k))
  {
    if Roomy(fx, legal, initial, s) {
      assert Step(fx, s, StepAt(fx, s, k));
      StepKeepsSafe(fx, legal, s, StepAt(fx, s, k));
      StepKeepsKnown(fx, initial, s, k);
      StepKeepsWithin(fx, initial, s, k);
    }
  }

  lemma StartIsRoomy(fx: Fixed, legal: (RegClass, PhysicalReg) -> bool, initial: seq<Bundle>, base: StackSlotID)
    requires ValidFunc(fx.f) && VirtualsPlain(fx.f) && InitialBundles(fx.f, fx.analyzer.regClasses, initial)
    ensures Roomy(fx, legal, initial, Ctx(initial, [], base))
  {
    var s := Ctx(initial, [], base);
    InitialIsSafe(fx, legal, initial, base);
    forall k | 0 <= k < |initial|
      ensures Known(fx.f, initial, initial[k])
    {
      InitialBundleIsGood(fx.f, fx.analyzer.regClasses, initial, initial[k]);
    }
  }

  lemma StaysRoomy(fx: Fixed, legal: (RegClass, PhysicalReg) -> bool, initial: seq<Bundle>, s: Ctx, s': Ctx)
    requires ValidFunc(fx.f) && VirtualsPlain(fx.f) && InitialBundles(fx.f, fx.analyzer.regClasses, initial) && LegalRegs(fx, legal)
    requires ReservedIs(fx) && EnoughRegisters(fx.f, fx.analyzer, legal) && Step(fx, s, s')
    ensures Roomy(fx, legal, initial, s) ==> Roomy(fx, legal, initial, s')
  {
    if Roomy(fx, legal, initial, s) {
      EnoughMeansNotStuck(fx, legal, initial, s);
      var j: int :| 0 <= j < |s.bundles| && s' == StepAt(fx, s, j);
      StepKeepsRoomy(fx, legal, initial, s, j);
    }
  }

  lemma RoomyThroughout(fx: Fixed, legal: (RegClass, PhysicalReg) -> bool, initial: seq<Bundle>, run: seq<Ctx>, k: nat)
    requires ValidFunc(fx.f) && VirtualsPlain(fx.f) && InitialBundles(fx.f, fx.analyzer.regClasses, initial) && LegalRegs(fx, legal)
    requires ReservedIs(fx) && EnoughRegisters(fx.f, fx.analyzer, legal)
    requires Worklist.Run(fx, run) && k < |run| && Roomy(fx, legal, initial, run[0])
    ensures Roomy(fx, legal, initial, run[k])
  {
    var inv: Ctx -> bool := s => Roomy(fx, legal, initial, s);
    forall s, s' | inv(s) && Step(fx, s, s')
      ensures inv(s')
    {
      StaysRoomy(fx, legal, initial, s, s');
    }
    RunKeeps(fx, inv, run, k);
  }

  /**
    With enough registers at every instruction, spill code fits wherever the worklist gets to. Targets may suggest any
    register for any bundle: where all are legal, the operands of all classes count.
   */
  lemma EnoughRegistersFit(f: Func, analyzer: Analyzer, base: StackSlotID, legal: (RegClass, PhysicalReg) -> bool)
    requires ValidFunc(f) && VirtualsPlain(f) && LegalFor(f, analyzer, legal) && EnoughRegisters(f, analyzer, legal)
    ensures SpillsFit(f, analyzer, base)
  {
    forall reserved, initial, s
      ensures SpillsFitAt(f, analyzer, base, reserved, initial, s)
    {
      var fx, s0 := Fixed(f, reserved, analyzer), Ctx(initial, [], base);
      if ReservedIs(fx) && InitialBundles(f, analyzer.regClasses, initial) && ReachableCtx(fx, s0, s) {
        var run :| Worklist.Run(fx, run) && run[0] == s0 && run[|run| - 1] == s;
        StartIsRoomy(fx, legal, initial, base);
        RoomyThroughout(fx, legal, initial, run, |run| - 1);
        EnoughMeansNotStuck(fx, legal, initial, s);
      }
    }
  }
}
