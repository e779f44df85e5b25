/**
  The registers both targets suggest for a bundle: those that a move at either end of one of its ranges reads or writes
  (src/banjo/target/x86_64/x86_64_reg_analyzer.cpp and src/banjo/target/aarch64/aarch64_reg_analyzer.cpp, suggest_regs). The
  move need not be one of the register the range belongs to. This module says when a suggestion can be assigned all the same.
 */
module Suggestions {
  import opened Graph
  import opened RegAllocFunc
  import opened LivenessSpec
  import opened LiveRanges
  import opened FuncRanges
  import opened Bundles
  import opened Worklist
  import opened Placement
  import opened P = RegAllocPass
  import opened AllocContext
  import L = Limits

  /** The physical registers that a move writes and reads; other instructions have none. */
  datatype Beside = Beside(dst: Option<PhysicalReg>, src: Option<PhysicalReg>)

  /** For instruction `i` of block `b`. */
  type Moves = (nat, nat) -> Beside

  function AsList(p: Option<PhysicalReg>): seq<PhysicalReg> {
    if p.Some? then [p.value] else []
  }

  /** What the move at the start of the range reads, and what the one at its end writes. */
  function SuggestedFor(moves: Moves, s: Segment): seq<PhysicalReg> {
    AsList(moves(s.range.block, s.range.start.instr).src) + AsList(moves(s.range.block, s.range.end.instr).dst)
  }

  function Suggested(moves: Moves, segments: seq<Segment>): seq<PhysicalReg> {
    if segments == [] then [] else Suggested(moves, segments[..|segments| - 1]) + SuggestedFor(moves, segments[|segments| - 1])
  }

  lemma SuggestedNext(moves: Moves, segments: seq<Segment>, k: nat)
    requires k < |segments|
    ensures Suggested(moves, segments[..k + 1]) == Suggested(moves, segments[..k]) + SuggestedFor(moves, segments[k])
  {
    assert segments[..k + 1][..k] == segments[..k];
  }

  /** A move at the start of the segment's range reads the register, or one at its end writes it. */
  predicate IsBeside(moves: Moves, s: Segment, p: PhysicalReg) {
    moves(s.range.block, s.range.start.instr).src == Some(p) || moves(s.range.block, s.range.end.instr).dst == Some(p)
  }

  ghost predicate IsBesideSome(moves: Moves, segments: seq<Segment>, p: PhysicalReg) {
    exists k :: 0 <= k < |segments| && IsBeside(moves, segments[k], p)
  }

  lemma BesideNext(moves: Moves, segments: seq<Segment>, p: PhysicalReg)
    requires segments != []
    ensures var n := |segments| - 1;
            IsBesideSome(moves, segments, p) <==> IsBesideSome(moves, segments[..n], p) || IsBeside(moves, segments[n], p)
  {
    var n := |segments| - 1;
    if IsBesideSome(moves, segments[..n], p) {
      var k :| 0 <= k < n && IsBeside(moves, segments[..n][k], p);
      assert segments[k] == segments[..n][k];
    }
    if IsBesideSome(moves, segments, p) {
      var k :| 0 <= k < |segments| && IsBeside(moves, segments[k], p);
      if k < n { assert segments[..n][k] == segments[k]; }
    }
  }

  lemma {:induction false} SuggestedIff(moves: Moves, segments: seq<Segment>, p: PhysicalReg)
    ensures p in Suggested(moves, segments) <==> IsBesideSome(moves, segments, p)
  {
    if segments != [] {
      var n := |segments| - 1;
      SuggestedIff(moves, segments[..n], p);
      BesideNext(moves, segments, p);
    }
  }

  /** What the first move reads comes ahead of what the last one writes, and segments come in order. */
  lemma {:induction false} SuggestedInOrder(moves: Moves, segments: seq<Segment>, more: seq<Segment>, s: Segment, src: PhysicalReg, dst: PhysicalReg)
    ensures Suggested(moves, segments + more) == Suggested(moves, segments) + Suggested(moves, more)
    ensures moves(s.range.block, s.range.start.instr).src == Some(src) && moves(s.range.block, s.range.end.instr).dst == Some(dst) ==>
              Suggested(moves, [s]) == [src, dst]
    decreases |more|
  {
    assert [s][..0] == [];
    if more == [] {
      assert segments + more == segments;
    } else {
      var n := |more| - 1;
      assert (segments + more)[..|segments + more| - 1] == segments + more[..n];
      SuggestedInOrder(moves, segments, more[..n], s, src, dst);
    }
  }

  method SuggestRegs(moves: Moves, segments: seq<Segment>) returns (suggested: seq<PhysicalReg>)
    ensures suggested == Suggested(moves, segments)
    ensures forall p :: p in suggested <==> IsBesideSome(moves, segments, p)
  {
    forall p
      ensures p in Suggested(moves, segments) <==> IsBesideSome(moves, segments, p)
    {
      SuggestedIff(moves, segments, p);
    }
    suggested := [];
    for k := 0 to |segments|
      invariant suggested == Suggested(moves, segments[..k])
    {
      var regs := SuggestForSegment(moves, segments[k]);
      suggested := suggested + regs;
      SuggestedNext(moves, segments, k);
    }
    assert segments[..|segments|] == segments;
  }

  method SuggestForSegment(moves: Moves, s: Segment) returns (suggested: seq<PhysicalReg>)
    ensures suggested == SuggestedFor(moves, s)
  {
    suggested := [];
    var firstDef, lastUse := moves(s.range.block, s.range.start.instr), moves(s.range.block, s.range.end.instr);
    if firstDef.src.Some? {
      suggested := suggested + [firstDef.src.value];
    }
    if lastUse.dst.Some? {
      suggested := suggested + [lastUse.dst.value];
    }
  }

  lemma {:induction false} SuggestedBySome(moves: Moves, segments: seq<Segment>, p: PhysicalReg)
    requires p in Suggested(moves, segments)
    ensures exists k :: 0 <= k < |segments| && p in SuggestedFor(moves, segments[k])
  {
    var n := |segments| - 1;
    if p in Suggested(moves, segments[..n]) {
      SuggestedBySome(moves, segments[..n], p);
      var k :| 0 <= k < n && p in SuggestedFor(moves, segments[..n][k]);
      assert segments[k] == segments[..n][k];
    }
  }

  /** The analyzer suggests what the targets do. */
  ghost predicate Suggests(analyzer: Analyzer, moves: Moves) {
    forall segments :: analyzer.suggest(segments) == Suggested(moves, segments)
  }

  /** The registers beside a move are among its operands, and it does nothing else with them. */
  ghost predicate MovesListed(f: Func, moves: Moves) {
    forall b: nat, i: nat {:trigger moves(b, i)} | b < |f.blocks| && i < |f.blocks[b].instrs| :: MoveListed(f.blocks[b].instrs[i], moves(b, i))
  }

  predicate MoveListed(instr: Instr, beside: Beside) {
    (beside.src.Some? ==> JustHas(instr, beside.src.value, Use)) && (beside.dst.Some? ==> JustHas(instr, beside.dst.value, Def))
  }

  predicate JustHas(instr: Instr, p: PhysicalReg, u: Usage) {
    Has(instr, Physical(p), u) && PlainFor(instr, Physical(p))
  }

  // ---- The ends of ranges ----

  /** Where an operand needs its register. */
  function OperandRange(b: nat, i: nat, u: Usage): LiveRange {
    LiveRange(b, Point(i, if u == Def then 1 else 0), Point(i, if u == Use then 0 else 1))
  }

  predicate HasWithin(instrs: seq<Instr>, r: Reg, first: nat, last: nat, i: nat, u: Usage) {
    && i < |instrs| && Has(instrs[i], r, u)
    && first <= 2 * i + (if u == Def then 1 else 0) && 2 * i + (if u == Use then 0 else 1) <= last
  }

  /** The points from `first` to `last` hold what an operand of instruction `i` needs. */
  predicate HoldsWithin(instrs: seq<Instr>, r: Reg, first: nat, last: nat, i: nat) {
    HasWithin(instrs, r, first, last, i, Use) || HasWithin(instrs, r, first, last, i, Def) || HasWithin(instrs, r, first, last, i, UseDef)
  }

  predicate HoldsOperand(instrs: seq<Instr>, r: Reg, x: LiveRange, i: nat) {
    HoldsWithin(instrs, r, x.start.Value(), x.end.Value(), i)
  }

  lemma HoldsInLarger(instrs: seq<Instr>, r: Reg, first: nat, last: nat, first': nat, i: nat)
    requires first' <= first
    ensures HoldsWithin(instrs, r, first, last, i) ==> HoldsWithin(instrs, r, first', last, i)
  {
  }

  predicate AtTop(x: LiveRange) {
    x.start.instr == 0 && x.start.stage == 0
  }

  predicate AtBottom(instrs: seq<Instr>, x: LiveRange) {
    x.end.instr + 1 == |instrs| && x.end.stage == 1
  }

  /** A range starts and ends where an operand needs it, or at an end of the block where the register is live. */
  predicate EndsWell(b: nat, instrs: seq<Instr>, r: Reg, in_: bool, out: bool, lo: nat, x: LiveRange) {
    && |instrs| > 0 && x.block == b && x.end.stage <= 1 && x.end.instr < |instrs|
    && (HoldsOperand(instrs, r, x, x.start.instr) || (AtTop(x) && (in_ || out)))
    && ((HoldsOperand(instrs, r, x, x.end.instr) && lo <= x.end.instr) || (AtBottom(instrs, x) && out))
  }

  ghost predicate AllEndWell(b: nat, instrs: seq<Instr>, r: Reg, in_: bool, out: bool, lo: nat, ranges: seq<LiveRange>) {
    forall k | 0 <= k < |ranges| :: EndsWell(b, instrs, r, in_, out, lo, ranges[k])
  }

  lemma NewRangeEndsWell(b: nat, instrs: seq<Instr>, r: Reg, in_: bool, out: bool, i: nat, u: Usage)
    requires i < |instrs| && u != Kill && Has(instrs[i], r, u)
    ensures EndsWell(b, instrs, r, in_, out, i, OperandRange(b, i, u))
  {
    var x := OperandRange(b, i, u);
    assert HasWithin(instrs, r, x.start.Value(), x.end.Value(), i, u);
  }

  lemma DefinedEndsWell(b: nat, instrs: seq<Instr>, r: Reg, in_: bool, out: bool, i: nat, x: LiveRange)
    requires i < |instrs| && Has(instrs[i], r, Def) && EndsWell(b, instrs, r, in_, out, i + 1, x)
    ensures EndsWell(b, instrs, r, in_, out, i, x.(start := Point(i, 1)))
  {
    var first, last := 2 * i + 1, x.end.Value();
    assert HasWithin(instrs, r, first, last, i, Def);
    if i < x.end.instr { LaterStillHolds(instrs, r, x.start.Value(), last, first, i, x.end.instr); }
  }

  /** Operands of later instructions are still held when the range is made to start at a definition. */
  lemma LaterStillHolds(instrs: seq<Instr>, r: Reg, first: nat, last: nat, first': nat, i: nat, j: nat)
    requires first' == 2 * i + 1 && i < j
    ensures HoldsWithin(instrs, r, first, last, j) ==> HoldsWithin(instrs, r, first', last, j)
  {
  }

  lemma LowerEndsWell(b: nat, instrs: seq<Instr>, r: Reg, in_: bool, out: bool, i: nat, ranges: seq<LiveRange>)
    requires AllEndWell(b, instrs, r, in_, out, i + 1, ranges)
    ensures AllEndWell(b, instrs, r, in_, out, i, ranges)
  {
    forall k | 0 <= k < |ranges|
      ensures EndsWell(b, instrs, r, in_, out, i, ranges[k])
    {
      assert EndsWell(b, instrs, r, in_, out, i + 1, ranges[k]);
    }
  }

  lemma AppendEndsWell(b: nat, instrs: seq<Instr>, r: Reg, in_: bool, out: bool, i: nat, ranges: seq<LiveRange>, x: LiveRange)
    requires AllEndWell(b, instrs, r, in_, out, i, ranges) && EndsWell(b, instrs, r, in_, out, i, x)
    ensures AllEndWell(b, instrs, r, in_, out, i, ranges + [x])
  {
  }

  lemma UpdateEndsWell(b: nat, instrs: seq<Instr>, r: Reg, in_: bool, out: bool, i: nat, ranges: seq<LiveRange>, k: nat, x: LiveRange)
    requires AllEndWell(b, instrs, r, in_, out, i, ranges) && EndsWell(b, instrs, r, in_, out, i, x) && k < |ranges|
    ensures AllEndWell(b, instrs, r, in_, out, i, ranges[k := x])
  {
  }

  lemma StepEndsWell(b: nat, instrs: seq<Instr>, r: Reg, in_: bool, out: bool, i: nat, s: RegScan, u: Usage)
    requires i < |instrs| && u != Kill && Has(instrs[i], r, u) && AllEndWell(b, instrs, r, in_, out, i + 1, s.ranges)
    ensures AllEndWell(b, instrs, r, in_, out, i, ScanOp(s, b, i, u).ranges)
  {
    LowerEndsWell(b, instrs, r, in_, out, i, s.ranges);
    if !s.live {
      NewRangeEndsWell(b, instrs, r, in_, out, i, u);
      AppendEndsWell(b, instrs, r, in_, out, i, s.ranges, OperandRange(b, i, u));
      assert ScanOp(s, b, i, u).ranges == s.ranges + [OperandRange(b, i, u)];
    } else if u == Def && s.ranges != [] {
      var n := |s.ranges| - 1;
      assert EndsWell(b, instrs, r, in_, out, i + 1, s.ranges[n]);
      DefinedEndsWell(b, instrs, r, in_, out, i, s.ranges[n]);
      UpdateEndsWell(b, instrs, r, in_, out, i, s.ranges, n, s.ranges[n].(start := Point(i, 1)));
    } else {
      assert ScanOp(s, b, i, u).ranges == s.ranges;
    }
  }

  lemma OneStepEndsWell(b: nat, instrs: seq<Instr>, r: Reg, in_: bool, out: bool, i: nat, s: RegScan)
    requires i < |instrs| && PlainFor(instrs[i], r) && AllEndWell(b, instrs, r, in_, out, i + 1, s.ranges)
    ensures AllEndWell(b, instrs, r, in_, out, i, ScanOps(s, b, i, instrs[i].regs, r, |instrs[i].regs|).ranges)
  {
    OnlyFirstUsageMatters(s, b, i, instrs[i], r, |instrs[i].regs|);
    FirstUsageIsListed(instrs[i].regs, r, |instrs[i].regs|);
    var u := FirstUsage(instrs[i].regs, r, |instrs[i].regs|);
    if u.Some? {
      FirstUsageTells(instrs[i], r);
      StepEndsWell(b, instrs, r, in_, out, i, s, u.value);
    }
  }

  lemma {:induction false} ScanEndsWell(b: nat, instrs: seq<Instr>, r: Reg, in_: bool, out: bool, i: nat)
    requires AllPlainFor(instrs, r) && i <= |instrs| && |instrs| > 0
    ensures AllEndWell(b, instrs, r, in_, out, i, ScanInstrs(b, instrs, r, out, i).ranges)
    decreases |instrs| - i
  {
    if i < |instrs| {
      ScanEndsWell(b, instrs, r, in_, out, i + 1);
      OneStepEndsWell(b, instrs, r, in_, out, i, ScanInstrs(b, instrs, r, out, i + 1));
    }
  }

  lemma StartedEndsWell(b: nat, instrs: seq<Instr>, r: Reg, out: bool, x: LiveRange)
    requires EndsWell(b, instrs, r, true, out, 0, x)
    ensures EndsWell(b, instrs, r, true, out, 0, x.(start := Point(0, 0)))
  {
    HoldsInLarger(instrs, r, x.start.Value(), x.end.Value(), 0, x.end.instr);
  }

  lemma BlockRangesEndWell(b: nat, instrs: seq<Instr>, r: Reg, in_: bool, out: bool, x: LiveRange)
    requires AllPlainFor(instrs, r) && x in BlockRanges(b, instrs, r, in_, out)
    ensures EndsWell(b, instrs, r, in_, out, 0, x)
  {
    ScanEndsWell(b, instrs, r, in_, out, 0);
    var ranges := ScanInstrs(b, instrs, r, out, 0).ranges;
    if in_ && ranges != [] { StartedEndsWell(b, instrs, r, out, ranges[|ranges| - 1]); }
  }

  // ---- A move at an end of the block holds the register it names ----

  /** A register that is read first is live into the block, if that is reached. */
  lemma ReadFirstIsLiveIn(f: Func, b: nat, p: PhysicalReg)
    requires b < |f.blocks| && f.blocks[b].instrs != [] && Reachable(f, b) && JustHas(f.blocks[b].instrs[0], p, Use)
    ensures Physical(p) in LiveIns(f, b)
  {
    var r, block := Physical(p), f.blocks[b];
    var j :| 0 <= j < |block.instrs[0].regs| && block.instrs[0].regs[j] == RegOp(r, Use);
    assert ExposedUseAt(block, r, 0, j);
    ExposedUseIsBlockUse(block, r);
    LiveInsEquationAt(f, b, r);
  }

  lemma LiveInCoversTop(f: Func, b: nat, r: Reg)
    requires b < |f.blocks| && f.blocks[b].instrs != [] && r in LiveIns(f, b)
    ensures CoveredBy(RangesOf(f, r), b, 0)
  {
    LiveInHasRange(f, b, r);
    var ranges := RangesInBlock(f, b, r);
    BlockRangesStayInBlock(f, r, b);
    assert ranges[|ranges| - 1].Covers(b, 0);
    CoveredByItsBlock(f, r, b, 0);
  }

  ghost predicate LiveAtAnEnd(f: Func, b: nat, r: Reg)
    requires b < |f.blocks|
  {
    r in LiveIns(f, b) || r in LiveOuts(f, b)
  }

  /** It has a range at the top of a block into or out of which anything is live. */
  lemma TopIsCovered(f: Func, b: nat, r: Reg, p: PhysicalReg)
    requires b < |f.blocks| && f.blocks[b].instrs != []
    ensures LiveAtAnEnd(f, b, r) && JustHas(f.blocks[b].instrs[0], p, Use) ==> CoveredBy(RangesOf(f, Physical(p)), b, 0)
  {
    if LiveAtAnEnd(f, b, r) && JustHas(f.blocks[b].instrs[0], p, Use) {
      ReadFirstIsLiveIn(f, b, p);
      LiveInCoversTop(f, b, Physical(p));
    }
  }

  /** The first range found is that of the last definition, unless it is live there, and stays. */
  lemma {:induction false} LastDefStays(b: nat, instrs: seq<Instr>, r: Reg, out: bool, i: nat, k: nat, s: RegScan)
    requires i < |instrs| && k <= |instrs[i].regs| && s.ranges != [] && (s.live ==> |s.ranges| > 1)
    ensures var t := ScanOps(s, b, i, instrs[i].regs, r, k);
            t.ranges != [] && (t.live ==> |t.ranges| > 1) && t.ranges[0] == s.ranges[0]
    decreases k
  {
    if k > 0 { LastDefStays(b, instrs, r, out, i, k - 1, s); }
  }

  lemma {:induction false} LastDefIsFound(b: nat, instrs: seq<Instr>, r: Reg, out: bool, i: nat)
    requires i < |instrs| && r.Physical? && JustHas(instrs[|instrs| - 1], r.p, Def)
    ensures var t := ScanInstrs(b, instrs, r, out, i); var last := Point(|instrs| - 1, 1);
            t.ranges != [] && (t.live ==> |t.ranges| > 1) && t.ranges[0] == LiveRange(b, last, last)
    decreases |instrs| - i
  {
    var n := |instrs| - 1;
    if i == n {
      OnlyFirstUsageMatters(ScanStart(b, instrs, out), b, n, instrs[n], r, |instrs[n].regs|);
      FirstUsageTells(instrs[n], r);
      assert ScanInstrs(b, instrs, r, out, |instrs|) == ScanStart(b, instrs, out);
    } else {
      LastDefIsFound(b, instrs, r, out, i + 1);
      LastDefStays(b, instrs, r, out, i, |instrs[i].regs|, ScanInstrs(b, instrs, r, out, i + 1));
    }
  }

  lemma BottomOfBlock(b: nat, instrs: seq<Instr>, r: Reg, in_: bool, out: bool)
    requires |instrs| > 0 && r.Physical? && JustHas(instrs[|instrs| - 1], r.p, Def)
    ensures CoveredBy(BlockRanges(b, instrs, r, in_, out), b, 2 * |instrs| - 1)
  {
    LastDefIsFound(b, instrs, r, out, 0);
    assert BlockRanges(b, instrs, r, in_, out)[0].Covers(b, 2 * |instrs| - 1);
  }

  /** A register that the last instruction writes has a range at the bottom. */
  lemma BottomIsCovered(f: Func, b: nat, p: PhysicalReg, n: nat)
    requires b < |f.blocks| && |f.blocks[b].instrs| == n + 1
    ensures JustHas(f.blocks[b].instrs[n], p, Def) ==> CoveredBy(RangesOf(f, Physical(p)), b, 2 * n + 1)
  {
    var r, instrs := Physical(p), f.blocks[b].instrs;
    if JustHas(instrs[n], p, Def) {
      BottomOfBlock(b, instrs, r, r in LiveIns(f, b), r in LiveOuts(f, b));
      CoveredByItsBlock(f, r, b, 2 * n + 1);
    }
  }

  // ---- Which suggestions can be assigned ----

  function Alone(s: Segment): Bundle {
    Bundle([s], 0)
  }

  /** What is suggested for the segment is legal for its register's class, or in use there. */
  ghost predicate SegmentLegal(fx: Fixed, moves: Moves, legal: (RegClass, PhysicalReg) -> bool, s: Segment) {
    forall p | p in SuggestedFor(moves, s) :: SuggestionLegal(fx, legal, s, p)
  }

  ghost predicate SuggestionLegal(fx: Fixed, legal: (RegClass, PhysicalReg) -> bool, s: Segment, p: PhysicalReg) {
    legal(fx.analyzer.regClasses(s.reg), p) || MeetsReserved(fx.reserved, Alone(s), p)
  }

  lemma CoveredIsReserved(fx: Fixed, s: Segment, p: PhysicalReg, b: nat, w: nat)
    requires ReservedIs(fx) && b < |fx.f.blocks|
    ensures CoveredBy(RangesOf(fx.f, Physical(p)), b, w) && s.range.Covers(b, w) ==> MeetsReserved(fx.reserved, Alone(s), p)
  {
    var ranges := RangesOf(fx.f, Physical(p));
    if CoveredBy(ranges, b, w) && s.range.Covers(b, w) {
      var k :| 0 <= k < |ranges| && ranges[k].Covers(b, w);
      var t := ReservedSegment(p, ranges[k]);
      assert ReservedExactly(fx, b, t);
      var l :| 0 <= l < |fx.reserved[b]| && fx.reserved[b][l] == t;
      assert Alone(s).segments[0].range.Intersects(fx.reserved[b][l].range);
    }
  }

  /** What is in use within a smaller range is in use in the larger one. */
  lemma LegalInside(fx: Fixed, legal: (RegClass, PhysicalReg) -> bool, s: Segment, t: Segment, p: PhysicalReg)
    requires s.reg == t.reg && t.range.Contains(s.range) && s.range.WellFormed() && SuggestionLegal(fx, legal, s, p)
    ensures SuggestionLegal(fx, legal, t, p)
  {
    if MeetsReserved(fx.reserved, Alone(s), p) {
      var l :| 0 <= l < |fx.reserved[s.range.block]| && fx.reserved[s.range.block][l].reg == p
               && s.range.Intersects(fx.reserved[s.range.block][l].range);
      assert Alone(t).segments[0].range.Intersects(fx.reserved[t.range.block][l].range);
    }
  }

  /** All that is needed of the operands of single instructions. */
  ghost predicate OperandsLegal(fx: Fixed, moves: Moves, legal: (RegClass, PhysicalReg) -> bool) {
    forall s, i: nat, j: nat | IsOperandRange(fx.f, s, i, j) :: SegmentLegal(fx, moves, legal, s)
  }

  lemma OperandSegment(f: Func, b: nat, i: nat, v: VirtualReg, u: Usage) returns (s: Segment)
    requires b < |f.blocks| && i < |f.blocks[b].instrs| && Has(f.blocks[b].instrs[i], Virtual(v), u) && u != Kill
    ensures s == Segment(v, OperandRange(b, i, u)) && exists j: nat :: IsOperandRange(f, s, i, j)
  {
    s := Segment(v, OperandRange(b, i, u));
    var j :| 0 <= j < |f.blocks[b].instrs[i].regs| && f.blocks[b].instrs[i].regs[j] == RegOp(Virtual(v), u);
    assert IsOperandRange(f, s, i, j);
  }

  /** Where the range holds what an operand needs, what is legal for the operand is legal for the range. */
  lemma LegalAtOperand(fx: Fixed, moves: Moves, legal: (RegClass, PhysicalReg) -> bool, s: Segment, i: nat, p: PhysicalReg)
    requires s.range.block < |fx.f.blocks| && HoldsOperand(fx.f.blocks[s.range.block].instrs, Virtual(s.reg), s.range, i)
    requires p in AsList(moves(s.range.block, i).src) || p in AsList(moves(s.range.block, i).dst)
    ensures OperandsLegal(fx, moves, legal) ==> SuggestionLegal(fx, legal, s, p)
  {
    var instrs, r := fx.f.blocks[s.range.block].instrs, Virtual(s.reg);
    var first, last := s.range.start.Value(), s.range.end.Value();
    var u := if HasWithin(instrs, r, first, last, i, Use) then Use else if HasWithin(instrs, r, first, last, i, Def) then Def else UseDef;
    var o := OperandSegment(fx.f, s.range.block, i, s.reg, u);
    if OperandsLegal(fx, moves, legal) {
      assert SegmentLegal(fx, moves, legal, o);
      assert p in SuggestedFor(moves, o);
      LegalInside(fx, legal, o, s, p);
    }
  }

  /** A range starts and ends at operands of its register, or at the ends of a block where the register is live. */
  ghost predicate RangeOk(f: Func, v: VirtualReg, x: LiveRange) {
    && x.block < |f.blocks| && f.blocks[x.block].instrs != [] && x.WellFormed()
    && var instrs := f.blocks[x.block].instrs;
       && (HoldsOperand(instrs, Virtual(v), x, x.start.instr) || (AtTop(x) && LiveAtAnEnd(f, x.block, Virtual(v))))
       && (HoldsOperand(instrs, Virtual(v), x, x.end.instr) || AtBottom(instrs, x))
  }

  lemma RangesAreOk(f: Func, v: VirtualReg, x: LiveRange)
    requires VirtualsPlain(f) && x in RangesOf(f, Virtual(v))
    ensures RangeOk(f, v, x)
  {
    var r := Virtual(v);
    RangesUpToAreThoseOfBlocks(f, r, |f.blocks|, x);
    assert PlainReg(f, r);
    BlockRangesEndWell(x.block, f.blocks[x.block].instrs, r, r in LiveIns(f, x.block), r in LiveOuts(f, x.block), x);
    FoundRangesAreGood(f, r, |f.blocks|);
  }

  lemma MoveAtTop(f: Func, moves: Moves, b: nat, r: Reg, p: PhysicalReg)
    requires MovesListed(f, moves) && b < |f.blocks| && f.blocks[b].instrs != [] && moves(b, 0).src == Some(p)
    ensures LiveAtAnEnd(f, b, r) ==> CoveredBy(RangesOf(f, Physical(p)), b, 0)
  {
    assert MoveListed(f.blocks[b].instrs[0], moves(b, 0));
    TopIsCovered(f, b, r, p);
  }

  lemma MoveAtBottom(f: Func, moves: Moves, b: nat, n: nat, p: PhysicalReg)
    requires MovesListed(f, moves) && b < |f.blocks| && |f.blocks[b].instrs| == n + 1 && moves(b, n).dst == Some(p)
    ensures CoveredBy(RangesOf(f, Physical(p)), b, 2 * n + 1)
  {
    assert MoveListed(f.blocks[b].instrs[n], moves(b, n));
    BottomIsCovered(f, b, p, n);
  }

  /** A range starts at an operand, or at the top of a block, where the source of a move is in use. */
  lemma StartCases(f: Func, moves: Moves, s: Segment, p: PhysicalReg)
    requires MovesListed(f, moves) && moves(s.range.block, s.range.start.instr).src == Some(p) && RangeOk(f, s.reg, s.range)
    ensures !HoldsOperand(f.blocks[s.range.block].instrs, Virtual(s.reg), s.range, s.range.start.instr) ==>
              AtTop(s.range) && CoveredBy(RangesOf(f, Physical(p)), s.range.block, 0)
  {
    if AtTop(s.range) { MoveAtTop(f, moves, s.range.block, Virtual(s.reg), p); }
  }

  /** It ends at an operand, or at the bottom, where the destination is. */
  lemma EndCases(f: Func, moves: Moves, s: Segment, n: nat, p: PhysicalReg)
    requires MovesListed(f, moves) && n == s.range.end.instr && moves(s.range.block, n).dst == Some(p) && RangeOk(f, s.reg, s.range)
    ensures !HoldsOperand(f.blocks[s.range.block].instrs, Virtual(s.reg), s.range, n) ==>
              s.range.end.Value() == 2 * n + 1 && CoveredBy(RangesOf(f, Physical(p)), s.range.block, 2 * n + 1)
  {
    if AtBottom(f.blocks[s.range.block].instrs, s.range) { MoveAtBottom(f, moves, s.range.block, n, p); }
  }

  lemma TopCovers(x: LiveRange)
    ensures AtTop(x) ==> x.Covers(x.block, 0)
  {
  }

  /** The move a range starts at. */
  lemma StartIsLegal(fx: Fixed, moves: Moves, legal: (RegClass, PhysicalReg) -> bool, s: Segment, p: PhysicalReg)
    requires ReservedIs(fx) && MovesListed(fx.f, moves) && RangeOk(fx.f, s.reg, s.range)
    requires moves(s.range.block, s.range.start.instr).src == Some(p)
    ensures OperandsLegal(fx, moves, legal) ==> SuggestionLegal(fx, legal, s, p)
  {
    StartCases(fx.f, moves, s, p);
    TopCovers(s.range);
    CoveredIsReserved(fx, s, p, s.range.block, 0);
    if HoldsOperand(fx.f.blocks[s.range.block].instrs, Virtual(s.reg), s.range, s.range.start.instr) {
      LegalAtOperand(fx, moves, legal, s, s.range.start.instr, p);
    }
  }

  /** The move it ends at. */
  lemma EndIsLegal(fx: Fixed, moves: Moves, legal: (RegClass, PhysicalReg) -> bool, s: Segment, p: PhysicalReg)
    requires ReservedIs(fx) && MovesListed(fx.f, moves) && RangeOk(fx.f, s.reg, s.range)
    requires moves(s.range.block, s.range.end.instr).dst == Some(p)
    ensures OperandsLegal(fx, moves, legal) ==> SuggestionLegal(fx, legal, s, p)
  {
    EndCases(fx.f, moves, s, s.range.end.instr, p);
    CoveredIsReserved(fx, s, p, s.range.block, s.range.end.Value());
    if HoldsOperand(fx.f.blocks[s.range.block].instrs, Virtual(s.reg), s.range, s.range.end.instr) {
      LegalAtOperand(fx, moves, legal, s, s.range.end.instr, p);
    }
  }

  lemma OccurringIsLegal(fx: Fixed, moves: Moves, legal: (RegClass, PhysicalReg) -> bool, s: Segment)
    requires ReservedIs(fx) && VirtualsPlain(fx.f) && MovesListed(fx.f, moves) && OperandsLegal(fx, moves, legal) && Occurs(fx.f, s)
    ensures SegmentLegal(fx, moves, legal, s)
  {
    if s.range in RangesOf(fx.f, Virtual(s.reg)) {
      RangesAreOk(fx.f, s.reg, s.range);
      forall p | p in SuggestedFor(moves, s)
        ensures SuggestionLegal(fx, legal, s, p)
      {
        if moves(s.range.block, s.range.start.instr).src == Some(p) {
          StartIsLegal(fx, moves, legal, s, p);
        } else {
          EndIsLegal(fx, moves, legal, s, p);
        }
      }
    }
  }

  lemma AloneInMany(reserved: seq<seq<ReservedSegment>>, b: Bundle, k: nat, p: PhysicalReg)
    requires k < |b.segments| && MeetsReserved(reserved, Alone(b.segments[k]), p)
    ensures MeetsReserved(reserved, b, p)
  {
  }

  /**
    Suggestions are of the right class wherever they can be assigned if and only if they are for the operands of single
    instructions: moves at the ends of blocks, which have nothing to do with the range, do no harm.
   */
  lemma LegalIff(fx: Fixed, moves: Moves, legal: (RegClass, PhysicalReg) -> bool)
    requires ReservedIs(fx) && VirtualsPlain(fx.f) && Suggests(fx.analyzer, moves) && MovesListed(fx.f, moves)
    requires forall c, p :: p in fx.analyzer.candidates(c) ==> legal(c, p)
    ensures LegalRegs(fx, legal) <==> OperandsLegal(fx, moves, legal)
  {
    if OperandsLegal(fx, moves, legal) {
      forall b: Bundle, p | Occurring(fx, b) && p in fx.analyzer.suggest(b.segments)
        ensures legal(b.regClass, p) || MeetsReserved(fx.reserved, b, p)
      {
        SuggestedBySome(moves, b.segments, p);
        var k :| 0 <= k < |b.segments| && p in SuggestedFor(moves, b.segments[k]);
        OccurringIsLegal(fx, moves, legal, b.segments[k]);
        assert SuggestionLegal(fx, legal, b.segments[k], p);
        if MeetsReserved(fx.reserved, Alone(b.segments[k]), p) { AloneInMany(fx.reserved, b, k, p); }
      }
    }
    if LegalRegs(fx, legal) {
      forall s, i: nat, j: nat | IsOperandRange(fx.f, s, i, j)
        ensures SegmentLegal(fx, moves, legal, s)
      {
        AloneIsLegal(fx, moves, legal, s, i, j);
      }
    }
  }

  lemma AloneIsLegal(fx: Fixed, moves: Moves, legal: (RegClass, PhysicalReg) -> bool, s: Segment, i: nat, j: nat)
    requires Suggests(fx.analyzer, moves) && LegalRegs(fx, legal) && IsOperandRange(fx.f, s, i, j)
    ensures SegmentLegal(fx, moves, legal, s)
  {
    var b := Bundle([s], fx.analyzer.regClasses(s.reg));
    assert Occurs(fx.f, s) && Occurring(fx, b);
    assert [s][..0] == [] && Suggested(moves, [s]) == [] + SuggestedFor(moves, s);
    forall p | p in SuggestedFor(moves, s)
      ensures SuggestionLegal(fx, legal, s, p)
    {
      assert p in fx.analyzer.suggest(b.segments);
      if MeetsReserved(fx.reserved, b, p) { OnlyAlone(fx.reserved, b, s, p); }
    }
  }

  lemma OnlyAlone(reserved: seq<seq<ReservedSegment>>, b: Bundle, s: Segment, p: PhysicalReg)
    requires b.segments == [s] && MeetsReserved(reserved, b, p)
    ensures MeetsReserved(reserved, Alone(s), p)
  {
    var k, l :| 0 <= k < |b.segments| && b.segments[k].range.block < |reserved|
      && 0 <= l < |reserved[b.segments[k].range.block]| && reserved[b.segments[k].range.block][l].reg == p
      && b.segments[k].range.Intersects(reserved[b.segments[k].range.block][l].range);
    assert Alone(s).segments[0].range.Intersects(reserved[s.range.block][l].range);
  }

  // ---- Moves within a class ----

  predicate NamesReg(instr: Instr, v: VirtualReg) {
    exists u | u != Kill :: Has(instr, Virtual(v), u)
  }

  ghost predicate MoveInClass(instr: Instr, beside: Beside, regClasses: VirtualReg -> RegClass, legal: (RegClass, PhysicalReg) -> bool) {
    forall v, p | NamesReg(instr, v) && (beside.src == Some(p) || beside.dst == Some(p)) :: legal(regClasses(v), p)
  }

  /** Where a move names virtual registers, the physical ones beside it are of their class. */
  ghost predicate MovesInClass(f: Func, moves: Moves, regClasses: VirtualReg -> RegClass, legal: (RegClass, PhysicalReg) -> bool) {
    forall b: nat, i: nat {:trigger moves(b, i)} | b < |f.blocks| && i < |f.blocks[b].instrs| ::
      MoveInClass(f.blocks[b].instrs[i], moves(b, i), regClasses, legal)
  }

  /** Then whatever the targets suggest is legal wherever it can be assigned, though other moves may be of other classes. */
  lemma InClassIsLegal(f: Func, analyzer: Analyzer, moves: Moves, legal: (RegClass, PhysicalReg) -> bool)
    requires VirtualsPlain(f) && Suggests(analyzer, moves) && MovesListed(f, moves) && MovesInClass(f, moves, analyzer.regClasses, legal)
    requires forall c, p :: p in analyzer.candidates(c) ==> legal(c, p)
    ensures LegalFor(f, analyzer, legal)
  {
    forall reserved | ReservedIs(Fixed(f, reserved, analyzer))
      ensures LegalRegs(Fixed(f, reserved, analyzer), legal)
    {
      var fx := Fixed(f, reserved, analyzer);
      forall s, i: nat, j: nat | IsOperandRange(f, s, i, j)
        ensures SegmentLegal(fx, moves, legal, s)
      {
        OperandInClass(fx, moves, legal, s, i, j);
      }
      LegalIff(fx, moves, legal);
    }
  }

  lemma OperandInClass(fx: Fixed, moves: Moves, legal: (RegClass, PhysicalReg) -> bool, s: Segment, i: nat, j: nat)
    requires MovesInClass(fx.f, moves, fx.analyzer.regClasses, legal) && IsOperandRange(fx.f, s, i, j)
    ensures SegmentLegal(fx, moves, legal, s)
  {
    var b := s.range.block;
    var instr, beside := fx.f.blocks[b].instrs[i], moves(b, i);
    assert s.range.start.instr == i && s.range.end.instr == i by { BornBundleShape(b, i, s.reg, instr.regs[j].usage, 0, 0); }
    assert Has(instr, Virtual(s.reg), instr.regs[j].usage) && NamesReg(instr, s.reg);
    assert MoveInClass(instr, beside, fx.analyzer.regClasses, legal);
  }

  // ---- A load into a register of another class ----

  /** A pointer `v` is computed, and a floating-point number is loaded from it into register 16. */
  function FloatLoad(v: VirtualReg): Func {
    Func([Block([Instr(0, [RegOp(Virtual(v), Def)]), Instr(1, [RegOp(Physical(16), Def), RegOp(Virtual(v), Use)])], [])])
  }

  /** Registers from 16 on are of class 1, the others of class 0. */
  predicate ClassFits(c: RegClass, p: PhysicalReg) {
    (c == 0 && p < 16) || (c == 1 && p >= 16)
  }

  function LoadMoves(): Moves {
    (b, i) => if b == 0 && i == 1 then Beside(Some(16), None) else Beside(None, None)
  }

  function LoadAnalyzer(): Analyzer {
    Analyzer(c => if c == 0 then [0] else if c == 1 then [16] else [], segments => Suggested(LoadMoves(), segments), v => 0, (instr, v) => false)
  }

  function LoadSetup(v: VirtualReg): Fixed {
    Fixed(FloatLoad(v), [[ReservedSegment(16, LiveRange(0, Point(1, 1), Point(1, 1)))]], LoadAnalyzer())
  }

  function PointerRange(v: VirtualReg): Bundle {
    Bundle([Segment(v, LiveRange(0, Point(0, 1), Point(1, 0)))], 0)
  }

  lemma RangesOfLoad(v: VirtualReg, r: Reg)
    ensures RangesOf(FloatLoad(v), r) ==
            if r == Virtual(v) then PointerRanges() else if r == Physical(16) then [LiveRange(0, Point(1, 1), Point(1, 1))] else []
  {
    var f := FloatLoad(v);
    var instrs, none := f.blocks[0].instrs, RegScan([], false);
    assert IsOp(f.blocks[0], Virtual(v), Def, 0, 0) && IsOp(f.blocks[0], Physical(16), Def, 1, 0);
    assert !ExposedUse(f.blocks[0], r);
    L.NoUseNoLiveIn(f, r);
    assert ScanInstrs(0, instrs, r, false, 2) == none;
    var loaded := if r == Physical(16) then RegScan([LiveRange(0, Point(1, 1), Point(1, 1))], false) else none;
    assert ScanOps(none, 0, 1, instrs[1].regs, r, 1) == loaded;
    var read := if r == Virtual(v) then RegScan([LiveRange(0, Point(1, 0), Point(1, 0))], true) else loaded;
    assert ScanOps(none, 0, 1, instrs[1].regs, r, 2) == read;
    assert ScanInstrs(0, instrs, r, false, 1) == read;
    assert ScanOps(read, 0, 0, instrs[0].regs, r, 1) == if r == Virtual(v) then RegScan(PointerRanges(), false) else read;
    assert RangesUpTo(f, r, 0) == [];
    assert RangesUpTo(f, r, 1) == [] + ScanInstrs(0, instrs, r, false, 0).ranges;
  }

  function PointerRanges(): seq<LiveRange> {
    [LiveRange(0, Point(0, 1), Point(1, 0))]
  }

  lemma LoadReservedAt(v: VirtualReg, b: nat, s: ReservedSegment)
    ensures ReservedExactly(LoadSetup(v), b, s)
  {
    RangesOfLoad(v, Physical(s.reg));
  }

  lemma LoadReserved(v: VirtualReg)
    ensures ReservedIs(LoadSetup(v))
  {
    forall b: nat, s
      ensures ReservedExactly(LoadSetup(v), b, s)
    {
      LoadReservedAt(v, b, s);
    }
  }

  lemma LoadInitial(v: VirtualReg)
    ensures InitialBundles(FloatLoad(v), LoadAnalyzer().regClasses, [PointerRange(v)])
  {
    var x := PointerRange(v);
    assert SegmentsOf([x]) == multiset(x.segments) + SegmentsOf([]);
    forall s
      ensures s in SegmentsOf([x]) <==> s.range in RangesOf(FloatLoad(v), Virtual(s.reg))
    {
      RangesOfLoad(v, Virtual(s.reg));
    }
  }

  lemma FloatRegisterIsChosen(v: VirtualReg)
    ensures ChosenReg(LoadSetup(v), [], PointerRange(v)) == Some(16)
  {
    var fx, x := LoadSetup(v), PointerRange(v);
    assert x.segments[..0] == [] && Suggested(LoadMoves(), x.segments) == [] + [16];
    assert fx.analyzer.suggest(x.segments) == [16];
    assert !x.segments[0].range.Intersects(fx.reserved[0][0].range);
    assert AllocPossible(fx, [], x, 16);
    assert FirstPossible(fx, [], x, [16]) == Some(16);
  }

  lemma OneStepIsReached(fx: Fixed, s: Ctx, k: nat)
    requires k < |s.bundles|
    ensures ReachableCtx(fx, s, StepAt(fx, s, k))
  {
    assert Step(fx, s, StepAt(fx, s, k));
    ReachableAtOnce(fx, s);
    ReachableNext(fx, s, s, StepAt(fx, s, k));
  }

  lemma FloatRegisterIsReached(v: VirtualReg)
    ensures ReachableCtx(LoadSetup(v), Ctx([PointerRange(v)], [], 0), Ctx([], [Alloc(16, PointerRange(v))], 0))
  {
    var s := Ctx([PointerRange(v)], [], 0);
    FloatRegisterIsChosen(v);
    StepAtIs(LoadSetup(v), s, 0);
    assert Remove(s.bundles, 0) == [];
    OneStepIsReached(LoadSetup(v), s, 0);
  }

  /** The address of the load gets the register that is loaded into, which is of another class. */
  lemma AddressGetsFloatRegister(v: VirtualReg)
    ensures ReservedIs(LoadSetup(v)) && InitialBundles(FloatLoad(v), LoadAnalyzer().regClasses, [PointerRange(v)])
    ensures Suggests(LoadAnalyzer(), LoadMoves()) && forall c, p :: p in LoadAnalyzer().candidates(c) ==> ClassFits(c, p)
    ensures ReachableCtx(LoadSetup(v), Ctx([PointerRange(v)], [], 0), Ctx([], [Alloc(16, PointerRange(v))], 0))
    ensures !ClassFits(PointerRange(v).regClass, 16)
  {
    LoadReserved(v);
    LoadInitial(v);
    FloatRegisterIsReached(v);
  }
}
