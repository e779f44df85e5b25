/** Bundles of live ranges and their coalescing along moves (src/banjo/codegen/reg_alloc_pass.cpp). */
module Bundles {
  import opened RegAllocFunc
  import opened LiveRanges
  import opened FuncRanges

  ghost function RegsOf(b: Bundle): set<VirtualReg> {
    set s | s in b.segments :: s.reg
  }

  ghost predicate Clash(a: Bundle, b: Bundle) {
    exists j, k :: 0 <= j < |a.segments| && 0 <= k < |b.segments| && a.segments[j].range.Intersects(b.segments[k].range)
  }

  /** No two segments of the bundle share a point, so one register or stack slot can hold them all. */
  ghost predicate InternallyDisjoint(b: Bundle) {
    forall j, k :: 0 <= j < k < |b.segments| ==> !b.segments[j].range.Intersects(b.segments[k].range)
  }

  /** A bundle before allocation: disjoint segments of one register class. */
  ghost predicate GoodBundle(b: Bundle, regClasses: VirtualReg -> RegClass) {
    && InternallyDisjoint(b)
    && (forall k | 0 <= k < |b.segments| :: b.segments[k].range.WellFormed() && regClasses(b.segments[k].reg) == b.regClass)
    && b.evictable && b.srcStackSlot == None && b.dstStackSlot == None
  }

  /** The segments of the bundles that have not been merged away. */
  ghost function SegmentsOf(bundles: seq<Bundle>): multiset<Segment> {
    if bundles == [] then multiset{}
    else (if bundles[0].deleted then multiset{} else multiset(bundles[0].segments)) + SegmentsOf(bundles[1..])
  }

  ghost predicate Separate(a: Bundle, b: Bundle) {
    a.deleted || b.deleted || RegsOf(a) !! RegsOf(b)
  }

  ghost predicate SeparateRegs(bundles: seq<Bundle>) {
    forall j, k :: 0 <= j < k < |bundles| ==> Separate(bundles[j], bundles[k])
  }

  ghost predicate GoodBundles(bundles: seq<Bundle>, regClasses: VirtualReg -> RegClass) {
    && SeparateRegs(bundles)
    && forall k | 0 <= k < |bundles| :: !bundles[k].deleted ==> GoodBundle(bundles[k], regClasses)
  }

  ghost function Weight(b: Bundle): multiset<Segment> {
    if b.deleted then multiset{} else multiset(b.segments)
  }

  lemma {:induction false} SegmentsOfUpdate(bundles: seq<Bundle>, k: nat, b: Bundle, s: Segment)
    requires k < |bundles|
    ensures SegmentsOf(bundles[k := b])[s] + Weight(bundles[k])[s] == SegmentsOf(bundles)[s] + Weight(b)[s]
  {
    var bundles' := bundles[k := b];
    assert SegmentsOf(bundles')[s] == Weight(bundles'[0])[s] + SegmentsOf(bundles'[1..])[s];
    assert SegmentsOf(bundles)[s] == Weight(bundles[0])[s] + SegmentsOf(bundles[1..])[s];
    if k == 0 {
      assert bundles'[1..] == bundles[1..];
    } else {
      assert bundles'[1..] == bundles[1..][k - 1 := b];
      SegmentsOfUpdate(bundles[1..], k - 1, b, s);
    }
  }

  lemma {:induction false} SegmentsOfAppend(bundles: seq<Bundle>, b: Bundle)
    ensures SegmentsOf(bundles + [b]) == SegmentsOf(bundles) + Weight(b)
  {
    if bundles == [] {
      assert [b][1..] == [];
    } else {
      assert (bundles + [b])[1..] == bundles[1..] + [b];
      SegmentsOfAppend(bundles[1..], b);
    }
  }

  lemma {:induction false} SegmentsOfMember(bundles: seq<Bundle>, s: Segment)
    ensures s in SegmentsOf(bundles) <==> exists k :: 0 <= k < |bundles| && !bundles[k].deleted && s in bundles[k].segments
  {
    if bundles != [] {
      SegmentsOfMember(bundles[1..], s);
      if s in SegmentsOf(bundles) && !(s in Weight(bundles[0])) {
        var k :| 0 <= k < |bundles[1..]| && !bundles[1..][k].deleted && s in bundles[1..][k].segments;
        assert bundles[k + 1] == bundles[1..][k];
      }
      if exists k :: 0 <= k < |bundles| && !bundles[k].deleted && s in bundles[k].segments {
        var k :| 0 <= k < |bundles| && !bundles[k].deleted && s in bundles[k].segments;
        if k > 0 { assert bundles[1..][k - 1] == bundles[k]; }
      }
    }
  }

  // ---- Creation ----

  /** The segments lie inside the function. */
  ghost predicate InFunc(f: Func, b: Bundle) {
    forall k | 0 <= k < |b.segments| ::
      var range := b.segments[k].range;
      range.block < |f.blocks| && range.start.instr < |f.blocks[range.block].instrs| && range.end.instr < |f.blocks[range.block].instrs|
  }

  ghost predicate AllInFunc(f: Func, bundles: seq<Bundle>) {
    forall k | 0 <= k < |bundles| :: InFunc(f, bundles[k])
  }

  function SegmentsFor(v: VirtualReg, ranges: seq<LiveRange>): (segments: seq<Segment>)
    ensures |segments| == |ranges| && forall k :: 0 <= k < |ranges| ==> segments[k] == Segment(v, ranges[k])
  {
    if ranges == [] then [] else [Segment(v, ranges[0])] + SegmentsFor(v, ranges[1..])
  }

  lemma {:induction false} SegmentsForCount(v: VirtualReg, ranges: seq<LiveRange>, s: Segment)
    ensures multiset(SegmentsFor(v, ranges))[s] == if s.reg == v then multiset(ranges)[s.range] else 0
  {
    if ranges != [] {
      var first, rest := ranges[0], ranges[1..];
      SegmentsForCount(v, rest, s);
      assert ranges == [first] + rest;
      assert SegmentsFor(v, ranges) == [Segment(v, first)] + SegmentsFor(v, rest);
      assert s == Segment(v, first) <==> s.reg == v && s.range == first;
    }
  }

  ghost predicate DisjointRanges(ranges: seq<LiveRange>) {
    && (forall k | 0 <= k < |ranges| :: ranges[k].WellFormed())
    && forall j, k :: 0 <= j < k < |ranges| ==> !ranges[j].Intersects(ranges[k])
  }

  ghost predicate RangesInFunc(f: Func, ranges: seq<LiveRange>) {
    forall k | 0 <= k < |ranges| ::
      && ranges[k].block < |f.blocks|
      && ranges[k].start.instr < |f.blocks[ranges[k].block].instrs| && ranges[k].end.instr < |f.blocks[ranges[k].block].instrs|
  }

  /** What allocation needs of the ranges of a virtual register. */
  ghost predicate GoodRanges(f: Func, regRanges: map<Reg, seq<LiveRange>>) {
    forall v :: DisjointRanges(RangesIn(regRanges, Virtual(v))) && RangesInFunc(f, RangesIn(regRanges, Virtual(v)))
  }

  /** The ranges found by the liveness analysis qualify. */
  lemma {:induction false} FoundRangesAreGood(f: Func, r: Reg, n: nat)
    requires PlainReg(f, r) && n <= |f.blocks|
    ensures DisjointRanges(RangesUpTo(f, r, n)) && RangesInFunc(f, RangesUpTo(f, r, n))
  {
    if n > 0 {
      FoundRangesAreGood(f, r, n - 1);
      BlockRangesAreInBlock(f, r, n - 1);
      var before := RangesUpTo(f, r, n - 1);
      forall k | 0 <= k < |before|
        ensures before[k].block < n - 1
      {
        RangesUpToAreThoseOfBlocks(f, r, n - 1, before[k]);
      }
    }
  }

  function BundleFor(v: VirtualReg, ranges: seq<LiveRange>, regClasses: VirtualReg -> RegClass): Bundle {
    Bundle(SegmentsFor(v, ranges), regClasses(v))
  }

  lemma BundleForIsGood(f: Func, v: VirtualReg, ranges: seq<LiveRange>, regClasses: VirtualReg -> RegClass)
    requires DisjointRanges(ranges) && RangesInFunc(f, ranges)
    ensures GoodBundle(BundleFor(v, ranges, regClasses), regClasses) && InFunc(f, BundleFor(v, ranges, regClasses))
    ensures forall w :: w in RegsOf(BundleFor(v, ranges, regClasses)) ==> w == v
  {
    var b := BundleFor(v, ranges, regClasses);
    forall s | s in b.segments
      ensures s.reg == v
    {
      var k :| 0 <= k < |b.segments| && b.segments[k] == s;
    }
  }

  /** All segments are of one register. */
  ghost predicate OfOneRegister(b: Bundle) {
    forall s, t | s in b.segments && t in b.segments :: s.reg == t.reg
  }

  ghost predicate AllOfOneRegister(bundles: seq<Bundle>) {
    forall k | 0 <= k < |bundles| :: !bundles[k].deleted && OfOneRegister(bundles[k])
  }

  lemma BundleForIsOfOneRegister(v: VirtualReg, ranges: seq<LiveRange>, regClasses: VirtualReg -> RegClass)
    ensures OfOneRegister(BundleFor(v, ranges, regClasses))
  {
    var b := BundleFor(v, ranges, regClasses);
    forall s | s in b.segments
      ensures s.reg == v
    {
      var k :| 0 <= k < |b.segments| && b.segments[k] == s;
    }
  }

  /** The bundles created so far, for the registers already visited. */
  ghost predicate Created(f: Func, regRanges: map<Reg, seq<LiveRange>>, visited: set<Reg>, bundles: seq<Bundle>,
                          regClasses: VirtualReg -> RegClass)
  {
    && GoodBundles(bundles, regClasses) && AllInFunc(f, bundles)
    && (forall k, v :: 0 <= k < |bundles| && v in RegsOf(bundles[k]) ==> Virtual(v) in visited)
    && HoldsRangesOf(regRanges, visited, SegmentsOf(bundles))
  }

  /** The segments are the ranges of the visited registers. */
  ghost predicate HoldsRangesOf(regRanges: map<Reg, seq<LiveRange>>, visited: set<Reg>, segments: multiset<Segment>) {
    forall s {:trigger HoldsRange(regRanges, visited, segments, s)} :: HoldsRange(regRanges, visited, segments, s)
  }

  ghost predicate HoldsRange(regRanges: map<Reg, seq<LiveRange>>, visited: set<Reg>, segments: multiset<Segment>, s: Segment) {
    segments[s] == if Virtual(s.reg) in visited then multiset(RangesIn(regRanges, Virtual(s.reg)))[s.range] else 0
  }

  lemma HoldsRangesOfOneMore(regRanges: map<Reg, seq<LiveRange>>, visited: set<Reg>, segments: multiset<Segment>, v: VirtualReg,
                             segments': multiset<Segment>)
    requires HoldsRangesOf(regRanges, visited, segments) && Virtual(v) !in visited
    requires segments' == segments + multiset(SegmentsFor(v, RangesIn(regRanges, Virtual(v))))
    ensures HoldsRangesOf(regRanges, visited + {Virtual(v)}, segments')
  {
    var visited' := visited + {Virtual(v)};
    forall s
      ensures HoldsRange(regRanges, visited', segments', s)
    {
      assert HoldsRange(regRanges, visited, segments, s);
      SegmentsForCount(v, RangesIn(regRanges, Virtual(v)), s);
    }
  }

  lemma AppendGood(f: Func, bundles: seq<Bundle>, b: Bundle, regClasses: VirtualReg -> RegClass)
    requires GoodBundles(bundles, regClasses) && AllInFunc(f, bundles)
    requires GoodBundle(b, regClasses) && InFunc(f, b)
    requires forall k | 0 <= k < |bundles| :: RegsOf(bundles[k]) !! RegsOf(b)
    ensures GoodBundles(bundles + [b], regClasses) && AllInFunc(f, bundles + [b])
  {
    var bundles' := bundles + [b];
    forall j, k | 0 <= j < k < |bundles'|
      ensures Separate(bundles'[j], bundles'[k])
    {
      if k < |bundles| { assert Separate(bundles[j], bundles[k]); }
    }
    forall k | 0 <= k < |bundles'|
      ensures !bundles'[k].deleted ==> GoodBundle(bundles'[k], regClasses)
      ensures InFunc(f, bundles'[k])
    {
      if k < |bundles| { assert InFunc(f, bundles[k]); }
    }
  }

  lemma CreatedStep(f: Func, regRanges: map<Reg, seq<LiveRange>>, visited: set<Reg>, bundles: seq<Bundle>,
                    regClasses: VirtualReg -> RegClass, v: VirtualReg)
    requires Created(f, regRanges, visited, bundles, regClasses) && Virtual(v) !in visited && GoodRanges(f, regRanges)
    ensures Created(f, regRanges, visited + {Virtual(v)},
                    bundles + [BundleFor(v, RangesIn(regRanges, Virtual(v)), regClasses)], regClasses)
  {
    var ranges := RangesIn(regRanges, Virtual(v));
    var b := BundleFor(v, ranges, regClasses);
    BundleForIsGood(f, v, ranges, regClasses);
    AppendGood(f, bundles, b, regClasses);
    SegmentsOfAppend(bundles, b);
    HoldsRangesOfOneMore(regRanges, visited, SegmentsOf(bundles), v, SegmentsOf(bundles + [b]));
    forall k, w | 0 <= k < |bundles + [b]| && w in RegsOf((bundles + [b])[k])
      ensures Virtual(w) in visited + {Virtual(v)}
    {
    }
  }

  lemma SkipPhysical(f: Func, regRanges: map<Reg, seq<LiveRange>>, visited: set<Reg>, bundles: seq<Bundle>,
                     regClasses: VirtualReg -> RegClass, p: PhysicalReg)
    requires Created(f, regRanges, visited, bundles, regClasses)
    ensures Created(f, regRanges, visited + {Physical(p)}, bundles, regClasses)
  {
    var visited' := visited + {Physical(p)};
    forall s
      ensures HoldsRange(regRanges, visited', SegmentsOf(bundles), s)
    {
      assert HoldsRange(regRanges, visited, SegmentsOf(bundles), s);
    }
  }

  /** One bundle per virtual register, holding all of its ranges. */
  method CreateBundles(ghost f: Func, regRanges: map<Reg, seq<LiveRange>>, regClasses: VirtualReg -> RegClass)
    returns (bundles: seq<Bundle>)
    requires GoodRanges(f, regRanges)
    ensures GoodBundles(bundles, regClasses) && AllInFunc(f, bundles)
    ensures HoldsRangesOf(regRanges, regRanges.Keys, SegmentsOf(bundles)) && AllOfOneRegister(bundles)
  {
    bundles := [];
    var todo := regRanges.Keys;
    ghost var visited: set<Reg> := {};
    while todo != {}
      invariant visited + todo == regRanges.Keys && visited !! todo
      invariant Created(f, regRanges, visited, bundles, regClasses) && AllOfOneRegister(bundles)
      decreases todo
    {
      var reg :| reg in todo;
      if reg.Virtual? {
        CreatedStep(f, regRanges, visited, bundles, regClasses, reg.v);
        BundleForIsOfOneRegister(reg.v, regRanges[reg], regClasses);
        bundles := bundles + [BundleFor(reg.v, regRanges[reg], regClasses)];
      } else {
        SkipPhysical(f, regRanges, visited, bundles, regClasses, reg.p);
      }
      visited, todo := visited + {reg}, todo - {reg};
    }
  }

  // ---- Merging ----

  predicate ConnectingMove(f: Func, isMoveFrom: (Instr, VirtualReg) -> bool, dst: Segment, src: Segment)
    requires dst.range.block < |f.blocks| && dst.range.start.instr < |f.blocks[dst.range.block].instrs|
  {
    && dst.range.start.instr == src.range.end.instr && src.range.end.stage == 0 && dst.range.start.stage == 1
    && isMoveFrom(f.blocks[dst.range.block].instrs[dst.range.start.instr], src.reg)
  }

  function Merge(bundles: seq<Bundle>, i: nat, j: nat): seq<Bundle>
    requires i < |bundles| && j < |bundles| && |bundles[j].segments| == 1
  {
    bundles[i := bundles[i].(segments := bundles[i].segments + [bundles[j].segments[0]])][j := bundles[j].(deleted := true)]
  }

  lemma MergedRegs(a: Bundle, b: Bundle)
    requires |b.segments| == 1
    ensures RegsOf(a.(segments := a.segments + [b.segments[0]])) == RegsOf(a) + RegsOf(b)
  {
    var c := a.(segments := a.segments + [b.segments[0]]);
    assert b.segments == [b.segments[0]];
    assert c.segments == a.segments + b.segments;
  }

  lemma MergeConservesSegments(bundles: seq<Bundle>, i: nat, j: nat)
    requires i < |bundles| && j < |bundles| && i != j && !bundles[i].deleted && !bundles[j].deleted
    requires |bundles[j].segments| == 1
    ensures SegmentsOf(Merge(bundles, i, j)) == SegmentsOf(bundles)
  {
    var a := bundles[i].(segments := bundles[i].segments + [bundles[j].segments[0]]);
    assert bundles[j].segments == [bundles[j].segments[0]];
    forall s
      ensures SegmentsOf(Merge(bundles, i, j))[s] == SegmentsOf(bundles)[s]
    {
      SegmentsOfUpdate(bundles, i, a, s);
      SegmentsOfUpdate(bundles[i := a], j, bundles[j].(deleted := true), s);
      assert multiset(a.segments) == multiset(bundles[i].segments) + multiset(bundles[j].segments);
    }
  }

  /** Merging keeps what makes the bundles allocatable. */
  lemma MergeKeepsGood(bundles: seq<Bundle>, i: nat, j: nat, regClasses: VirtualReg -> RegClass)
    requires i < |bundles| && j < |bundles| && i != j && !bundles[i].deleted && !bundles[j].deleted
    requires |bundles[j].segments| == 1 && bundles[i].regClass == bundles[j].regClass
    requires GoodBundles(bundles, regClasses) && !Clash(bundles[i], bundles[j])
    ensures GoodBundles(Merge(bundles, i, j), regClasses)
  {
    var a := bundles[i].(segments := bundles[i].segments + [bundles[j].segments[0]]);
    var bundles' := Merge(bundles, i, j);
    MergedBundleIsGood(bundles[i], bundles[j], regClasses);
    MergedRegs(bundles[i], bundles[j]);
    forall x, y | 0 <= x < y < |bundles'|
      ensures Separate(bundles'[x], bundles'[y])
    {
      assert Separate(bundles[x], bundles[y]);
      if x == i { assert y < j ==> Separate(bundles[y], bundles[j]); assert j < y ==> Separate(bundles[j], bundles[y]); }
      if y == i { assert x < j ==> Separate(bundles[x], bundles[j]); assert j < x ==> Separate(bundles[j], bundles[x]); }
    }
  }

  lemma MergedBundleIsGood(a: Bundle, b: Bundle, regClasses: VirtualReg -> RegClass)
    requires GoodBundle(a, regClasses) && GoodBundle(b, regClasses)
    requires |b.segments| == 1 && a.regClass == b.regClass && !Clash(a, b)
    ensures GoodBundle(a.(segments := a.segments + [b.segments[0]]), regClasses)
  {
    var c := a.(segments := a.segments + [b.segments[0]]);
    forall j, k | 0 <= j < k < |c.segments|
      ensures !c.segments[j].range.Intersects(c.segments[k].range)
    {
      if k == |a.segments| { assert !a.segments[j].range.Intersects(b.segments[0].range); }
    }
  }

  method Intersect(a: Bundle, b: Bundle) returns (found: bool)
    ensures found <==> Clash(a, b)
  {
    for j := 0 to |a.segments|
      invariant forall l, k :: 0 <= l < j && 0 <= k < |b.segments| ==> !a.segments[l].range.Intersects(b.segments[k].range)
    {
      for k := 0 to |b.segments|
        invariant forall m :: 0 <= m < k ==> !a.segments[j].range.Intersects(b.segments[m].range)
      {
        if a.segments[j].range.Intersects(b.segments[k].range) {
          return true;
        }
      }
    }
    return false;
  }

  /** The condition under which bundle `b` is merged into `a`. */
  ghost predicate ShouldMerge(f: Func, isMoveFrom: (Instr, VirtualReg) -> bool, a: Bundle, b: Bundle)
    requires InFunc(f, a) && InFunc(f, b)
  {
    && a.regClass == b.regClass && |b.segments| == 1 && !Clash(a, b)
    && exists k :: 0 <= k < |a.segments| && a.segments[k].range.block == b.segments[0].range.block
                   && (ConnectingMove(f, isMoveFrom, a.segments[k], b.segments[0])
                       || ConnectingMove(f, isMoveFrom, b.segments[0], a.segments[k]))
  }

  /** A bundle is never merged with itself: its one segment does not end before it starts. */
  lemma NeverMergedWithItself(f: Func, isMoveFrom: (Instr, VirtualReg) -> bool, a: Bundle)
    requires InFunc(f, a) && forall k | 0 <= k < |a.segments| :: a.segments[k].range.WellFormed()
    ensures !ShouldMerge(f, isMoveFrom, a, a)
  {
    if |a.segments| == 1 {
      assert a.segments[0].range.WellFormed();
    }
  }

  method TryCoalesce(f: Func, isMoveFrom: (Instr, VirtualReg) -> bool, bundles: seq<Bundle>, i: nat, j: nat)
    returns (bundles': seq<Bundle>)
    requires i < |bundles| && j < |bundles| && InFunc(f, bundles[i]) && InFunc(f, bundles[j])
    ensures bundles' == if ShouldMerge(f, isMoveFrom, bundles[i], bundles[j]) then Merge(bundles, i, j) else bundles
  {
    var a, b := bundles[i], bundles[j];
    if a.regClass != b.regClass || |b.segments| != 1 {
      return bundles;
    }
    var segmentB := b.segments[0];
    for k := 0 to |a.segments|
      invariant forall l | 0 <= l < k ::
        a.segments[l].range.block == segmentB.range.block &&
        (ConnectingMove(f, isMoveFrom, a.segments[l], segmentB) || ConnectingMove(f, isMoveFrom, segmentB, a.segments[l]))
        ==> Clash(a, b)
    {
      var segmentA := a.segments[k];
      if segmentA.range.block == segmentB.range.block {
        var isConnecting :=
          ConnectingMove(f, isMoveFrom, segmentA, segmentB) || ConnectingMove(f, isMoveFrom, segmentB, segmentA);
        if isConnecting {
          var clash := Intersect(a, b);
          if !clash {
            return bundles[i := a.(segments := a.segments + [segmentB])][j := b.(deleted := true)];
          }
        }
      }
    }
    return bundles;
  }

  lemma MergeKeepsInFunc(f: Func, bundles: seq<Bundle>, i: nat, j: nat)
    requires i < |bundles| && j < |bundles| && i != j && |bundles[j].segments| == 1 && AllInFunc(f, bundles)
    ensures AllInFunc(f, Merge(bundles, i, j)) && Merge(bundles, i, j)[i].deleted == bundles[i].deleted
  {
    assert InFunc(f, bundles[i]) && InFunc(f, bundles[j]);
    assert InFunc(f, Merge(bundles, i, j)[i]);
  }

  // ---- What coalescing leaves apart, and what it puts together ----

  /** At one instruction `s` is read for the last time and `t` starts as its result, and it copies the register of `s`. */
  predicate Copied(f: Func, isMoveFrom: (Instr, VirtualReg) -> bool, s: Segment, t: Segment) {
    var b, i := s.range.block, s.range.end.instr;
    && t.range.block == b && b < |f.blocks| && i < |f.blocks[b].instrs|
    && s.range.end.stage == 0 && t.range.start.instr == i && t.range.start.stage == 1
    && isMoveFrom(f.blocks[b].instrs[i], s.reg)
  }

  predicate Connected(f: Func, isMoveFrom: (Instr, VirtualReg) -> bool, s: Segment, t: Segment) {
    Copied(f, isMoveFrom, s, t) || Copied(f, isMoveFrom, t, s)
  }

  lemma ShouldMergeIff(f: Func, isMoveFrom: (Instr, VirtualReg) -> bool, a: Bundle, b: Bundle)
    requires InFunc(f, a) && InFunc(f, b)
    ensures ShouldMerge(f, isMoveFrom, a, b) <==>
            && a.regClass == b.regClass && |b.segments| == 1 && !Clash(a, b)
            && exists s :: s in a.segments && Connected(f, isMoveFrom, s, b.segments[0])
  {
    if |b.segments| == 1 && exists s :: s in a.segments && Connected(f, isMoveFrom, s, b.segments[0]) {
      var s :| s in a.segments && Connected(f, isMoveFrom, s, b.segments[0]);
      var k :| 0 <= k < |a.segments| && a.segments[k] == s;
      assert a.segments[k].range.block == b.segments[0].range.block;
    }
    if ShouldMerge(f, isMoveFrom, a, b) {
      var k :| 0 <= k < |a.segments| && a.segments[k].range.block == b.segments[0].range.block
        && (ConnectingMove(f, isMoveFrom, a.segments[k], b.segments[0]) || ConnectingMove(f, isMoveFrom, b.segments[0], a.segments[k]));
      assert Connected(f, isMoveFrom, a.segments[k], b.segments[0]);
    }
  }

  ghost predicate AsGiven(bundles: seq<Bundle>, work: seq<Bundle>, k: nat)
    requires k < |bundles| == |work|
  {
    !work[k].deleted && work[k] == bundles[k]
  }

  /** Segments were only added, each of them connected to one before it. */
  ghost predicate GrownFrom(f: Func, isMoveFrom: (Instr, VirtualReg) -> bool, b: Bundle, b': Bundle) {
    && |b'.segments| >= 2 && b.segments <= b'.segments && b' == b.(segments := b'.segments)
    && forall k | |b.segments| <= k < |b'.segments| :: ConnectedBefore(f, isMoveFrom, b', k)
  }

  ghost predicate ConnectedBefore(f: Func, isMoveFrom: (Instr, VirtualReg) -> bool, b: Bundle, k: nat)
    requires k < |b.segments|
  {
    exists l :: 0 <= l < k && Connected(f, isMoveFrom, b.segments[l], b.segments[k])
  }

  ghost predicate Derived(f: Func, isMoveFrom: (Instr, VirtualReg) -> bool, bundles: seq<Bundle>, work: seq<Bundle>)
    requires |bundles| == |work|
  {
    forall k | 0 <= k < |work| :: DerivedAt(f, isMoveFrom, bundles, work, k)
  }

  ghost predicate DerivedAt(f: Func, isMoveFrom: (Instr, VirtualReg) -> bool, bundles: seq<Bundle>, work: seq<Bundle>, k: nat)
    requires k < |bundles| == |work|
  {
    work[k].deleted || (!bundles[k].deleted && (work[k] == bundles[k] || GrownFrom(f, isMoveFrom, bundles[k], work[k])))
  }

  /** The segment was given with bundle `i`, or with one before `j`. */
  ghost predicate GivenBefore(bundles: seq<Bundle>, i: nat, j: nat, s: Segment) {
    exists x :: 0 <= x < |bundles| && (x == i || x < j) && !bundles[x].deleted && s in bundles[x].segments
  }

  /**
    Bundle `i` could not take bundle `j`, if that was still as it was given: the segments it had by then have no move in
    common with it, or it clashes.
   */
  ghost predicate LeftApart(f: Func, isMoveFrom: (Instr, VirtualReg) -> bool, bundles: seq<Bundle>, work: seq<Bundle>, i: nat, j: nat)
    requires i < |bundles| == |work| && j < |bundles|
  {
    var a, b := work[i], bundles[j];
    !a.deleted && !work[j].deleted && i != j && (i < j || work[j] == b) && a.regClass == b.regClass && |b.segments| == 1 && !Clash(a, b) ==>
      forall s | s in a.segments && GivenBefore(bundles, i, j, s) :: !Connected(f, isMoveFrom, s, b.segments[0])
  }

  predicate Visited(i: nat, j: nat, i': nat, j': nat) {
    i' < i || (i' == i && j' < j)
  }

  ghost predicate AllLeftApart(f: Func, isMoveFrom: (Instr, VirtualReg) -> bool, bundles: seq<Bundle>, work: seq<Bundle>, i: nat, j: nat)
    requires |bundles| == |work|
  {
    forall x, y {:trigger LeftApart(f, isMoveFrom, bundles, work, x, y)} |
      0 <= x < |bundles| && 0 <= y < |bundles| && Visited(i, j, x, y) :: LeftApart(f, isMoveFrom, bundles, work, x, y)
  }

  ghost predicate SomeMerged(bundles: seq<Bundle>, work: seq<Bundle>)
    requires |bundles| == |work|
  {
    exists k :: 0 <= k < |work| && work[k].deleted && !bundles[k].deleted
  }

  /** When bundle `i` has been tried with all bundles before `j`, and the bundles before it with all. */
  ghost predicate Coalescing(f: Func, isMoveFrom: (Instr, VirtualReg) -> bool, bundles: seq<Bundle>, work: seq<Bundle>, i: nat, j: nat) {
    && |work| == |bundles| && Derived(f, isMoveFrom, bundles, work) && AllLeftApart(f, isMoveFrom, bundles, work, i, j)
    && (forall k | i < k < |work| :: work[k].deleted || work[k] == bundles[k])
    && (work == bundles || SomeMerged(bundles, work))
  }

  lemma MergeDerives(f: Func, isMoveFrom: (Instr, VirtualReg) -> bool, bundles: seq<Bundle>, work: seq<Bundle>, i: nat, j: nat)
    requires |work| == |bundles| && Derived(f, isMoveFrom, bundles, work) && i < |work| && j < |work| && i != j
    requires !work[i].deleted && InFunc(f, work[i]) && InFunc(f, work[j]) && ShouldMerge(f, isMoveFrom, work[i], work[j])
    ensures Derived(f, isMoveFrom, bundles, Merge(work, i, j))
  {
    var work' := Merge(work, i, j);
    var b, b' := work[i], work'[i];
    ShouldMergeIff(f, isMoveFrom, work[i], work[j]);
    var s :| s in b.segments && Connected(f, isMoveFrom, s, work[j].segments[0]);
    var l :| 0 <= l < |b.segments| && b.segments[l] == s;
    assert DerivedAt(f, isMoveFrom, bundles, work, i);
    forall k | |bundles[i].segments| <= k < |b'.segments|
      ensures ConnectedBefore(f, isMoveFrom, b', k)
    {
      if k < |b.segments| {
        assert ConnectedBefore(f, isMoveFrom, b, k);
        var m :| 0 <= m < k && Connected(f, isMoveFrom, b.segments[m], b.segments[k]);
        assert b'.segments[m] == b.segments[m] && b'.segments[k] == b.segments[k];
      } else {
        assert b'.segments[l] == s && b'.segments[k] == work[j].segments[0];
      }
    }
    assert GrownFrom(f, isMoveFrom, bundles[i], b');
    forall k | 0 <= k < |work|
      ensures DerivedAt(f, isMoveFrom, bundles, work', k)
    {
      assert DerivedAt(f, isMoveFrom, bundles, work, k);
    }
  }

  /** A bundle of one segment has not grown. */
  lemma SingleIsAsGiven(f: Func, isMoveFrom: (Instr, VirtualReg) -> bool, bundles: seq<Bundle>, work: seq<Bundle>, j: nat)
    requires |work| == |bundles| && Derived(f, isMoveFrom, bundles, work) && j < |work| && !work[j].deleted && |work[j].segments| == 1
    ensures AsGiven(bundles, work, j)
  {
    assert DerivedAt(f, isMoveFrom, bundles, work, j);
  }

  /** What bundle `i` takes from bundle `j` was not there when others were tried. */
  lemma NewSegmentIsLater(bundles: seq<Bundle>, i: nat, j: nat, y: nat)
    requires SeparateRegs(bundles) && i < |bundles| && j < |bundles| && i != j && y < j && !bundles[i].deleted
    requires !bundles[j].deleted && |bundles[j].segments| == 1
    ensures !GivenBefore(bundles, i, y, bundles[j].segments[0])
  {
    var s := bundles[j].segments[0];
    assert s.reg in RegsOf(bundles[j]);
    forall x | 0 <= x < |bundles| && (x == i || x < y) && !bundles[x].deleted
      ensures s !in bundles[x].segments
    {
      if x < j { assert Separate(bundles[x], bundles[j]); } else { assert Separate(bundles[j], bundles[x]); }
      assert s.reg !in RegsOf(bundles[x]);
    }
  }

  lemma ClashGrows(a: Bundle, s: Segment, b: Bundle)
    ensures Clash(a, b) ==> Clash(a.(segments := a.segments + [s]), b)
  {
    if Clash(a, b) {
      var j, k :| 0 <= j < |a.segments| && 0 <= k < |b.segments| && a.segments[j].range.Intersects(b.segments[k].range);
      assert (a.segments + [s])[j] == a.segments[j];
    }
  }

  lemma MergeLeavesApart(f: Func, isMoveFrom: (Instr, VirtualReg) -> bool, bundles: seq<Bundle>, work: seq<Bundle>, i: nat, j: nat,
                         x: nat, y: nat)
    requires |work| == |bundles| && Derived(f, isMoveFrom, bundles, work) && SeparateRegs(bundles)
    requires i < |work| && j < |work| && i != j && !work[i].deleted && !work[j].deleted && |work[j].segments| == 1
    requires x < |work| && y < |work| && Visited(i, j, x, y) && LeftApart(f, isMoveFrom, bundles, work, x, y)
    ensures LeftApart(f, isMoveFrom, bundles, Merge(work, i, j), x, y)
  {
    var t := work[j].segments[0];
    SingleIsAsGiven(f, isMoveFrom, bundles, work, j);
    assert DerivedAt(f, isMoveFrom, bundles, work, i);
    if x == i {
      ClashGrows(work[i], t, bundles[y]);
      NewSegmentIsLater(bundles, i, j, y);
    }
  }

  lemma MergedIsNotApart(f: Func, isMoveFrom: (Instr, VirtualReg) -> bool, bundles: seq<Bundle>, work: seq<Bundle>, i: nat, j: nat)
    requires Coalescing(f, isMoveFrom, bundles, work, i, j) && SeparateRegs(bundles)
    requires i < |work| && j < |work| && i != j && !work[i].deleted && !work[j].deleted && InFunc(f, work[i]) && InFunc(f, work[j])
    requires ShouldMerge(f, isMoveFrom, work[i], work[j])
    ensures Coalescing(f, isMoveFrom, bundles, Merge(work, i, j), i, j + 1)
  {
    var work' := Merge(work, i, j);
    MergeDerives(f, isMoveFrom, bundles, work, i, j);
    forall x, y | 0 <= x < |bundles| && 0 <= y < |bundles| && Visited(i, j + 1, x, y)
      ensures LeftApart(f, isMoveFrom, bundles, work', x, y)
    {
      if Visited(i, j, x, y) { MergeLeavesApart(f, isMoveFrom, bundles, work, i, j, x, y); }
    }
    SingleIsAsGiven(f, isMoveFrom, bundles, work, j);
    assert work'[j].deleted && !bundles[j].deleted;
  }

  lemma RefusedIsApart(f: Func, isMoveFrom: (Instr, VirtualReg) -> bool, bundles: seq<Bundle>, work: seq<Bundle>, i: nat, j: nat)
    requires Coalescing(f, isMoveFrom, bundles, work, i, j)
    requires i < |work| && j < |work| && InFunc(f, work[i]) && InFunc(f, work[j])
    requires work[i].deleted || work[j].deleted || !ShouldMerge(f, isMoveFrom, work[i], work[j])
    ensures Coalescing(f, isMoveFrom, bundles, work, i, j + 1)
  {
    ShouldMergeIff(f, isMoveFrom, work[i], work[j]);
    forall x, y | 0 <= x < |bundles| && 0 <= y < |bundles| && Visited(i, j + 1, x, y)
      ensures LeftApart(f, isMoveFrom, bundles, work, x, y)
    {
      if !Visited(i, j, x, y) { assert x == i && y == j; }
    }
  }

  /** A deleted bundle takes nothing. */
  lemma NextBundle(f: Func, isMoveFrom: (Instr, VirtualReg) -> bool, bundles: seq<Bundle>, work: seq<Bundle>, i: nat, j: nat)
    requires Coalescing(f, isMoveFrom, bundles, work, i, j) && i < |work| && (work[i].deleted || j == |work|)
    ensures Coalescing(f, isMoveFrom, bundles, work, i + 1, 0)
  {
    forall x, y | 0 <= x < |bundles| && 0 <= y < |bundles| && Visited(i + 1, 0, x, y)
      ensures LeftApart(f, isMoveFrom, bundles, work, x, y)
    {
      if !Visited(i, j, x, y) { assert work[x].deleted; }
    }
  }

  /** What coalescing makes of the bundles: each surviving one is in `work` at its old place. */
  ghost predicate Coalesced(f: Func, isMoveFrom: (Instr, VirtualReg) -> bool, bundles: seq<Bundle>, work: seq<Bundle>) {
    && |work| == |bundles| && Derived(f, isMoveFrom, bundles, work)
    && forall i, j {:trigger LeftApart(f, isMoveFrom, bundles, work, i, j)} |
         0 <= i < |work| && 0 <= j < |work| :: LeftApart(f, isMoveFrom, bundles, work, i, j)
  }

  /** Two bundles that survive as they were given do not belong together. */
  lemma SurvivorsDoNotMerge(f: Func, isMoveFrom: (Instr, VirtualReg) -> bool, bundles: seq<Bundle>, work: seq<Bundle>, i: nat, j: nat)
    requires Coalesced(f, isMoveFrom, bundles, work) && AllInFunc(f, bundles) && i < |bundles| && j < |bundles| && i != j
    requires AsGiven(bundles, work, i) && AsGiven(bundles, work, j)
    ensures !ShouldMerge(f, isMoveFrom, bundles[i], bundles[j])
  {
    assert LeftApart(f, isMoveFrom, bundles, work, i, j);
    ShouldMergeIff(f, isMoveFrom, bundles[i], bundles[j]);
    forall s | s in work[i].segments
      ensures GivenBefore(bundles, i, j, s)
    {
      assert s in bundles[i].segments;
    }
  }

  /** Two different bundles as they are given belong together. */
  ghost predicate SomeShouldMerge(f: Func, isMoveFrom: (Instr, VirtualReg) -> bool, bundles: seq<Bundle>)
    requires AllInFunc(f, bundles)
  {
    exists i, j :: 0 <= i < |bundles| && 0 <= j < |bundles| && i != j && !bundles[i].deleted && !bundles[j].deleted
                   && ShouldMerge(f, isMoveFrom, bundles[i], bundles[j])
  }

  lemma {:induction false} FewerLive(bundles: seq<Bundle>)
    ensures |LiveOnly(bundles)| <= |bundles|
    ensures (exists k :: 0 <= k < |bundles| && bundles[k].deleted) ==> |LiveOnly(bundles)| < |bundles|
  {
    if bundles != [] {
      var n := |bundles| - 1;
      FewerLive(bundles[..n]);
      if k :| 0 <= k < |bundles| && bundles[k].deleted {
        if k < n { assert bundles[..n][k].deleted; }
      }
    }
  }

  lemma FewerAfterMerge(f: Func, isMoveFrom: (Instr, VirtualReg) -> bool, bundles: seq<Bundle>, work: seq<Bundle>)
    requires Coalesced(f, isMoveFrom, bundles, work) && (work == bundles || SomeMerged(bundles, work))
    requires AllInFunc(f, bundles) && SomeShouldMerge(f, isMoveFrom, bundles)
    ensures |LiveOnly(work)| < |bundles|
  {
    FewerLive(work);
    if work == bundles {
      var i, j :| 0 <= i < |bundles| && 0 <= j < |bundles| && i != j && !bundles[i].deleted && !bundles[j].deleted
        && ShouldMerge(f, isMoveFrom, bundles[i], bundles[j]);
      SurvivorsDoNotMerge(f, isMoveFrom, bundles, work, i, j);
      assert false;
    }
  }

  method CoalesceBundles(f: Func, isMoveFrom: (Instr, VirtualReg) -> bool, bundles: seq<Bundle>,
                         ghost regClasses: VirtualReg -> RegClass) returns (newBundles: seq<Bundle>, ghost work: seq<Bundle>)
    requires GoodBundles(bundles, regClasses) && AllInFunc(f, bundles)
    ensures GoodBundles(newBundles, regClasses) && AllInFunc(f, newBundles)
    ensures forall k | 0 <= k < |newBundles| :: !newBundles[k].deleted
    ensures SegmentsOf(newBundles) == SegmentsOf(bundles)
    ensures Coalesced(f, isMoveFrom, bundles, work) && newBundles == LiveOnly(work)
    ensures SomeShouldMerge(f, isMoveFrom, bundles) ==> |newBundles| < |bundles|
  {
    var current := bundles;
    for i := 0 to |bundles|
      invariant KeepsAll(f, regClasses, bundles, current) && Coalescing(f, isMoveFrom, bundles, current, i, 0)
    {
      if !current[i].deleted {
        for j := 0 to |bundles|
          invariant KeepsAll(f, regClasses, bundles, current) && Coalescing(f, isMoveFrom, bundles, current, i, j) && !current[i].deleted
        {
          current := CoalescePair(f, isMoveFrom, bundles, current, i, j, regClasses);
        }
      }
      NextBundle(f, isMoveFrom, bundles, current, i, |bundles|);
    }
    work := current;
    LiveOnlyKeepsGood(current, f, regClasses);
    LiveOnlyConservesSegments(current);
    newBundles := DropDeleted(current);
    if SomeShouldMerge(f, isMoveFrom, bundles) { FewerAfterMerge(f, isMoveFrom, bundles, work); }
  }

  /** No segment is lost, and the bundles stay well formed. */
  ghost predicate KeepsAll(f: Func, regClasses: VirtualReg -> RegClass, bundles: seq<Bundle>, work: seq<Bundle>) {
    |work| == |bundles| && GoodBundles(work, regClasses) && AllInFunc(f, work) && SegmentsOf(work) == SegmentsOf(bundles)
  }

  lemma PairIsDone(f: Func, isMoveFrom: (Instr, VirtualReg) -> bool, bundles: seq<Bundle>, before: seq<Bundle>, after: seq<Bundle>,
                   i: nat, j: nat, regClasses: VirtualReg -> RegClass)
    requires Coalescing(f, isMoveFrom, bundles, before, i, j) && SeparateRegs(bundles) && AllInFunc(f, before)
    requires GoodBundles(before, regClasses) && i < |before| && j < |before| && !before[i].deleted
    requires after == if !before[j].deleted && ShouldMerge(f, isMoveFrom, before[i], before[j]) then Merge(before, i, j) else before
    ensures Coalescing(f, isMoveFrom, bundles, after, i, j + 1)
  {
    assert GoodBundle(before[i], regClasses);
    NeverMergedWithItself(f, isMoveFrom, before[i]);
    if !before[j].deleted && ShouldMerge(f, isMoveFrom, before[i], before[j]) {
      MergedIsNotApart(f, isMoveFrom, bundles, before, i, j);
    } else {
      RefusedIsApart(f, isMoveFrom, bundles, before, i, j);
    }
  }

  lemma MergeKeepsAll(f: Func, isMoveFrom: (Instr, VirtualReg) -> bool, bundles: seq<Bundle>, work: seq<Bundle>, i: nat, j: nat,
                      regClasses: VirtualReg -> RegClass)
    requires KeepsAll(f, regClasses, bundles, work) && i < |work| && j < |work| && !work[i].deleted && !work[j].deleted
    requires ShouldMerge(f, isMoveFrom, work[i], work[j])
    ensures KeepsAll(f, regClasses, bundles, Merge(work, i, j)) && !Merge(work, i, j)[i].deleted
  {
    assert GoodBundle(work[i], regClasses);
    NeverMergedWithItself(f, isMoveFrom, work[i]);
    MergeKeepsGood(work, i, j, regClasses);
    MergeKeepsInFunc(f, work, i, j);
    MergeConservesSegments(work, i, j);
  }

  /** Tries bundle `i` with bundle `j`, unless that is deleted. */
  method CoalescePair(f: Func, isMoveFrom: (Instr, VirtualReg) -> bool, ghost bundles: seq<Bundle>, work: seq<Bundle>, i: nat, j: nat,
                      ghost regClasses: VirtualReg -> RegClass) returns (work': seq<Bundle>)
    requires KeepsAll(f, regClasses, bundles, work) && SeparateRegs(bundles) && Coalescing(f, isMoveFrom, bundles, work, i, j)
    requires i < |work| && j < |work| && !work[i].deleted
    ensures work' == if !work[j].deleted && ShouldMerge(f, isMoveFrom, work[i], work[j]) then Merge(work, i, j) else work
    ensures KeepsAll(f, regClasses, bundles, work') && Coalescing(f, isMoveFrom, bundles, work', i, j + 1) && !work'[i].deleted
  {
    work' := work;
    if !work[j].deleted {
      work' := TryCoalesce(f, isMoveFrom, work, i, j);
      if ShouldMerge(f, isMoveFrom, work[i], work[j]) { MergeKeepsAll(f, isMoveFrom, bundles, work, i, j, regClasses); }
    }
    PairIsDone(f, isMoveFrom, bundles, work, work', i, j, regClasses);
  }

  function LiveOnly(bundles: seq<Bundle>): seq<Bundle> {
    if bundles == [] then []
    else
      var b := bundles[|bundles| - 1];
      if b.deleted then LiveOnly(bundles[..|bundles| - 1]) else LiveOnly(bundles[..|bundles| - 1]) + [b]
  }

  lemma {:induction false} LiveOnlyMembers(bundles: seq<Bundle>)
    ensures forall b :: b in LiveOnly(bundles) ==> b in bundles && !b.deleted
  {
    if bundles != [] { LiveOnlyMembers(bundles[..|bundles| - 1]); }
  }

  lemma {:induction false} LiveOnlyConservesSegments(bundles: seq<Bundle>)
    ensures SegmentsOf(LiveOnly(bundles)) == SegmentsOf(bundles)
  {
    if bundles != [] {
      var before, last := bundles[..|bundles| - 1], bundles[|bundles| - 1];
      LiveOnlyConservesSegments(before);
      assert bundles == before + [last];
      SegmentsOfAppend(before, last);
      SegmentsOfAppend(LiveOnly(before), last);
    }
  }

  lemma {:induction false} LiveOnlySeparate(bundles: seq<Bundle>)
    requires SeparateRegs(bundles)
    ensures SeparateRegs(LiveOnly(bundles))
  {
    if bundles != [] {
      var n := |bundles| - 1;
      var kept := LiveOnly(bundles[..n]);
      LiveOnlySeparate(bundles[..n]);
      LiveOnlyMembers(bundles[..n]);
      forall j | 0 <= j < |kept|
        ensures Separate(kept[j], bundles[n])
      {
        assert kept[j] in kept;
        var k :| 0 <= k < n && bundles[..n][k] == kept[j];
        assert Separate(bundles[k], bundles[n]);
      }
    }
  }

  lemma LiveOnlyKeepsGood(bundles: seq<Bundle>, f: Func, regClasses: VirtualReg -> RegClass)
    requires GoodBundles(bundles, regClasses) && AllInFunc(f, bundles)
    ensures GoodBundles(LiveOnly(bundles), regClasses) && AllInFunc(f, LiveOnly(bundles))
    ensures forall k | 0 <= k < |LiveOnly(bundles)| :: !LiveOnly(bundles)[k].deleted
  {
    var kept := LiveOnly(bundles);
    LiveOnlySeparate(bundles);
    LiveOnlyMembers(bundles);
    forall k | 0 <= k < |kept|
      ensures !kept[k].deleted && GoodBundle(kept[k], regClasses) && InFunc(f, kept[k])
    {
      assert kept[k] in kept;
      var j :| 0 <= j < |bundles| && bundles[j] == kept[k];
    }
  }

  method DropDeleted(bundles: seq<Bundle>) returns (kept: seq<Bundle>)
    ensures kept == LiveOnly(bundles)
  {
    kept := [];
    for i := 0 to |bundles|
      invariant kept == LiveOnly(bundles[..i])
    {
      assert bundles[..i + 1][..i] == bundles[..i];
      if !bundles[i].deleted {
        kept := kept + [bundles[i]];
      }
    }
    assert bundles[..|bundles|] == bundles;
  }
}
