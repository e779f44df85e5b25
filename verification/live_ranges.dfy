/**
  The live ranges of one register in one block (src/banjo/codegen/liveness.cpp, compute_precise_live_ranges).
  The scan of a block treats registers independently, so its effect is stated one register at a time.
 */
module LiveRanges {
  import opened RegAllocFunc

  /** The part of the scan state that concerns one register: its ranges in the block, and whether it is live. */
  datatype RegScan = RegScan(ranges: seq<LiveRange>, live: bool)

  /** `ranges.back().start = p` */
  function SetLastStart(ranges: seq<LiveRange>, p: Point): seq<LiveRange> {
    if ranges == [] then ranges else ranges[|ranges| - 1 := ranges[|ranges| - 1].(start := p)]
  }

  function ScanOp(s: RegScan, b: nat, i: nat, u: Usage): RegScan {
    match u
    case Use =>
      if s.live then s else RegScan(s.ranges + [LiveRange(b, Point(i, 0), Point(i, 0))], true)
    case Def =>
      if s.live then RegScan(SetLastStart(s.ranges, Point(i, 1)), false)
      else RegScan(s.ranges + [LiveRange(b, Point(i, 1), Point(i, 1))], false)
    case UseDef =>
      if s.live then s else RegScan(s.ranges + [LiveRange(b, Point(i, 0), Point(i, 1))], true)
    case Kill =>
      RegScan(s.ranges, false)
  }

  /** The first `k` operands of instruction `i`, in order. */
  function ScanOps(s: RegScan, b: nat, i: nat, ops: seq<RegOp>, r: Reg, k: nat): RegScan
    requires k <= |ops|
  {
    if k == 0 then s
    else
      var t := ScanOps(s, b, i, ops, r, k - 1);
      if ops[k - 1].reg == r then ScanOp(t, b, i, ops[k - 1].usage) else t
  }

  function ScanStart(b: nat, instrs: seq<Instr>, out: bool): RegScan
    requires |instrs| > 0
  {
    if out then RegScan([LiveRange(b, Point(0, 0), Point(|instrs| - 1, 1))], true) else RegScan([], false)
  }

  /** The instructions from the last one down to `i`. */
  function ScanInstrs(b: nat, instrs: seq<Instr>, r: Reg, out: bool, i: nat): RegScan
    requires i <= |instrs| && |instrs| > 0
    decreases |instrs| - i
  {
    if i == |instrs| then ScanStart(b, instrs, out)
    else ScanOps(ScanInstrs(b, instrs, r, out, i + 1), b, i, instrs[i].regs, r, |instrs[i].regs|)
  }

  /** The last step of the scan: a register live into the block has its last range start at the top. */
  function FinishRanges(s: RegScan, in_: bool): seq<LiveRange> {
    if in_ then SetLastStart(s.ranges, Point(0, 0)) else s.ranges
  }

  function BlockRanges(b: nat, instrs: seq<Instr>, r: Reg, in_: bool, out: bool): seq<LiveRange> {
    if instrs == [] then [] else FinishRanges(ScanInstrs(b, instrs, r, out, 0), in_)
  }

  // ---- What the ranges are for ----

  /** The value `r` has before instruction `i` may still be read. */
  predicate LiveBefore(instrs: seq<Instr>, r: Reg, out: bool, i: nat)
    requires i <= |instrs|
    decreases |instrs| - i
  {
    if i == |instrs| then out
    else ReadsReg(instrs[i], r) || (!ResetsReg(instrs[i], r) && LiveBefore(instrs, r, out, i + 1))
  }

  /** The points of a block at which `r` must own its register: it is live there, or being written. */
  predicate Needed(instrs: seq<Instr>, r: Reg, out: bool, w: nat)
    requires w < 2 * |instrs|
  {
    if w % 2 == 0 then LiveBefore(instrs, r, out, w / 2)
    else LiveBefore(instrs, r, out, w / 2 + 1) || WritesReg(instrs[w / 2], r)
  }

  ghost predicate CoveredBy(ranges: seq<LiveRange>, b: nat, w: nat) {
    exists k :: 0 <= k < |ranges| && ranges[k].Covers(b, w)
  }

  /**
    The operand lists the scan is written for: a register that is listed as DEF is listed once, KILL is for other
    registers, and a USE_DEF comes before a USE of the same register.
   */
  predicate PlainFor(instr: Instr, r: Reg) {
    && !Has(instr, r, Kill)
    && forall j, k | 0 <= j < k < |instr.regs| && instr.regs[j].reg == r && instr.regs[k].reg == r ::
         && instr.regs[j].usage != Def && instr.regs[k].usage != Def
         && !(instr.regs[j].usage == Use && instr.regs[k].usage == UseDef)
  }

  predicate AllPlainFor(instrs: seq<Instr>, r: Reg) {
    forall i | 0 <= i < |instrs| :: PlainFor(instrs[i], r)
  }

  /** Ranges of one block that are well formed and appear from the last to the first, sharing no instruction. */
  ghost predicate Descending(ranges: seq<LiveRange>, b: nat, lo: nat, n: nat) {
    && (forall k | 0 <= k < |ranges| ::
          ranges[k].WellFormed() && ranges[k].block == b && lo <= ranges[k].start.instr && ranges[k].end.instr < n)
    && forall j, k :: 0 <= j < k < |ranges| ==> ranges[k].end.instr < ranges[j].start.instr
  }

  // ---- Within one instruction only the first operand naming the register matters ----

  function FirstUsage(ops: seq<RegOp>, r: Reg, k: nat): Option<Usage>
    requires k <= |ops|
  {
    if k == 0 then None
    else
      var u := FirstUsage(ops, r, k - 1);
      if u.Some? then u else if ops[k - 1].reg == r then Some(ops[k - 1].usage) else None
  }

  lemma {:induction false} FirstUsageIsListed(ops: seq<RegOp>, r: Reg, k: nat)
    requires k <= |ops|
    ensures FirstUsage(ops, r, k).None? ==> forall j :: 0 <= j < k ==> ops[j].reg != r
    ensures FirstUsage(ops, r, k).Some? ==>
              exists j :: 0 <= j < k && ops[j] == RegOp(r, FirstUsage(ops, r, k).value) && forall l :: 0 <= l < j ==> ops[l].reg != r
  {
    if k > 0 { FirstUsageIsListed(ops, r, k - 1); }
  }

  /** The roles of a register in an instruction, read off its first operand. */
  lemma FirstUsageTells(instr: Instr, r: Reg)
    requires PlainFor(instr, r)
    ensures var u := FirstUsage(instr.regs, r, |instr.regs|);
            && (ReadsReg(instr, r) <==> u == Some(Use) || u == Some(UseDef))
            && (Has(instr, r, UseDef) <==> u == Some(UseDef))
            && (Has(instr, r, Def) <==> u == Some(Def))
            && u != Some(Kill)
  {
    FirstUsageIsListed(instr.regs, r, |instr.regs|);
  }

  lemma {:induction false} OnlyFirstUsageMatters(s: RegScan, b: nat, i: nat, instr: Instr, r: Reg, k: nat)
    requires PlainFor(instr, r) && k <= |instr.regs|
    ensures ScanOps(s, b, i, instr.regs, r, k) ==
            match FirstUsage(instr.regs, r, k) { case None => s case Some(u) => ScanOp(s, b, i, u) }
  {
    if k > 0 {
      OnlyFirstUsageMatters(s, b, i, instr, r, k - 1);
      FirstUsageIsListed(instr.regs, r, k - 1);
    }
  }

  // ---- The scan invariant ----

  /** The ranges whose start is final. */
  ghost function ClosedRanges(s: RegScan): seq<LiveRange> {
    if s.live && s.ranges != [] then s.ranges[..|s.ranges| - 1] else s.ranges
  }

  /** Where the scan first met the range that is open at `i`. */
  function OpenedAt(instrs: seq<Instr>, r: Reg, out: bool, i: nat): nat
    requires i <= |instrs|
    decreases |instrs| - i
  {
    if i == |instrs| then 0
    else if ReadsReg(instrs[i], r) && !LiveBefore(instrs, r, out, i + 1) then i
    else OpenedAt(instrs, r, out, i + 1)
  }

  /** The range of a live register, whose start is not known yet. */
  ghost predicate OpenRange(o: LiveRange, b: nat, openedAt: nat, i: nat, n: nat) {
    && o.block == b && o.start == Point(openedAt, 0)
    && o.end.stage <= 1 && o.end.instr < n
    && o.start.Value() <= o.end.Value() && 2 * i <= o.end.Value() + 1
  }

  ghost function OpenEnd(s: RegScan): int {
    if s.live && s.ranges != [] then s.ranges[|s.ranges| - 1].end.Value() else -1
  }

  /** From instruction `i` on, the closed ranges and the open one together are exactly the points needed. */
  ghost predicate ExactFrom(closed: seq<LiveRange>, openEnd: int, b: nat, instrs: seq<Instr>, r: Reg, out: bool, i: nat) {
    forall w | 2 * i <= w < 2 * |instrs| :: Needed(instrs, r, out, w) <==> CoveredBy(closed, b, w) || w <= openEnd
  }

  /** Extending an exact description by the two points of instruction `i`. */
  lemma ExactStep(closed: seq<LiveRange>, openEnd: int, closed': seq<LiveRange>, openEnd': int, b: nat, instrs: seq<Instr>,
                  r: Reg, out: bool, i: nat)
    requires i < |instrs| && ExactFrom(closed, openEnd, b, instrs, r, out, i + 1)
    requires forall w | 2 * i + 2 <= w < 2 * |instrs| ::
               CoveredBy(closed, b, w) || w <= openEnd <==> CoveredBy(closed', b, w) || w <= openEnd'
    requires Needed(instrs, r, out, 2 * i) <==> CoveredBy(closed', b, 2 * i) || 2 * i <= openEnd'
    requires Needed(instrs, r, out, 2 * i + 1) <==> CoveredBy(closed', b, 2 * i + 1) || 2 * i + 1 <= openEnd'
    ensures ExactFrom(closed', openEnd', b, instrs, r, out, i)
  {
    forall w | 2 * i <= w < 2 * |instrs|
      ensures Needed(instrs, r, out, w) <==> CoveredBy(closed', b, w) || w <= openEnd'
    {
      if w != 2 * i && w != 2 * i + 1 {}
    }
  }

  /** The two points of an instruction. */
  lemma NeededAt(instrs: seq<Instr>, r: Reg, out: bool, i: nat)
    requires i < |instrs|
    ensures Needed(instrs, r, out, 2 * i) <==> LiveBefore(instrs, r, out, i)
    ensures Needed(instrs, r, out, 2 * i + 1) <==> LiveBefore(instrs, r, out, i + 1) || WritesReg(instrs[i], r)
  {
    assert (2 * i + 1) / 2 == i && (2 * i + 1) % 2 == 1;
  }

  ghost predicate ScanInv(s: RegScan, b: nat, instrs: seq<Instr>, r: Reg, out: bool, i: nat)
    requires i <= |instrs|
  {
    && s.live == LiveBefore(instrs, r, out, i)
    && (s.live ==> s.ranges != []
                   && OpenRange(s.ranges[|s.ranges| - 1], b, OpenedAt(instrs, r, out, i), i, |instrs|))
    && Descending(ClosedRanges(s), b, if s.live then s.ranges[|s.ranges| - 1].end.instr + 1 else i, |instrs|)
    && ExactFrom(ClosedRanges(s), OpenEnd(s), b, instrs, r, out, i)
  }

  lemma CoveredByAppend(ranges: seq<LiveRange>, x: LiveRange, b: nat, w: nat)
    ensures CoveredBy(ranges + [x], b, w) <==> CoveredBy(ranges, b, w) || x.Covers(b, w)
  {
    if CoveredBy(ranges, b, w) {
      var k :| 0 <= k < |ranges| && ranges[k].Covers(b, w);
      assert (ranges + [x])[k].Covers(b, w);
    } else if x.Covers(b, w) {
      assert (ranges + [x])[|ranges|].Covers(b, w);
    }
  }

  /** Ranges that end above instruction `i` cover none of its points. */
  lemma NothingBelow(ranges: seq<LiveRange>, b: nat, lo: nat, n: nat, w: nat)
    requires Descending(ranges, b, lo, n) && w < 2 * lo
    ensures !CoveredBy(ranges, b, w)
  {
  }

  lemma ScanStartInv(b: nat, instrs: seq<Instr>, r: Reg, out: bool)
    requires |instrs| > 0
    ensures ScanInv(ScanStart(b, instrs, out), b, instrs, r, out, |instrs|)
  {
  }

  /** An instruction that does not name the register. */
  lemma ScanSkipInv(s: RegScan, b: nat, instrs: seq<Instr>, r: Reg, out: bool, i: nat)
    requires i < |instrs| && ScanInv(s, b, instrs, r, out, i + 1)
    requires !ReadsReg(instrs[i], r) && !ResetsReg(instrs[i], r)
    ensures ScanInv(s, b, instrs, r, out, i)
  {
    var lo := if s.live then s.ranges[|s.ranges| - 1].end.instr + 1 else i + 1;
    NothingBelow(ClosedRanges(s), b, lo, |instrs|, 2 * i);
    NothingBelow(ClosedRanges(s), b, lo, |instrs|, 2 * i + 1);
    NeededAt(instrs, r, out, i);
    ExactStep(ClosedRanges(s), OpenEnd(s), ClosedRanges(s), OpenEnd(s), b, instrs, r, out, i);
  }

  /** A read of a register that is live anyway. */
  lemma ScanReadLiveInv(s: RegScan, b: nat, instrs: seq<Instr>, r: Reg, out: bool, i: nat)
    requires i < |instrs| && ScanInv(s, b, instrs, r, out, i + 1) && s.live
    requires ReadsReg(instrs[i], r)
    ensures ScanInv(s, b, instrs, r, out, i)
  {
    NeededAt(instrs, r, out, i);
    ExactStep(ClosedRanges(s), OpenEnd(s), ClosedRanges(s), OpenEnd(s), b, instrs, r, out, i);
  }

  /** A read that is the last one: it opens a range. */
  lemma ScanLastReadInv(s: RegScan, b: nat, instrs: seq<Instr>, r: Reg, out: bool, i: nat, u: Usage)
    requires i < |instrs| && ScanInv(s, b, instrs, r, out, i + 1) && !s.live
    requires ReadsReg(instrs[i], r) && !Has(instrs[i], r, Def)
    requires u == if Has(instrs[i], r, UseDef) then UseDef else Use
    ensures ScanInv(ScanOp(s, b, i, u), b, instrs, r, out, i)
  {
    var t := ScanOp(s, b, i, u);
    assert ClosedRanges(t) == s.ranges;
    NothingBelow(s.ranges, b, i + 1, |instrs|, 2 * i + 1);
    NeededAt(instrs, r, out, i);
    ExactStep(s.ranges, -1, s.ranges, OpenEnd(t), b, instrs, r, out, i);
  }

  lemma DescendingAppend(ranges: seq<LiveRange>, x: LiveRange, b: nat, n: nat)
    requires Descending(ranges, b, x.end.instr + 1, n)
    requires x.WellFormed() && x.block == b && x.end.instr < n
    ensures Descending(ranges + [x], b, x.start.instr, n)
  {
  }

  lemma ScanDefInv(s: RegScan, b: nat, instrs: seq<Instr>, r: Reg, out: bool, i: nat)
    requires i < |instrs| && ScanInv(s, b, instrs, r, out, i + 1)
    requires PlainFor(instrs[i], r) && Has(instrs[i], r, Def) && !ReadsReg(instrs[i], r)
    ensures ScanInv(ScanOp(s, b, i, Def), b, instrs, r, out, i)
  {
    var t := ScanOp(s, b, i, Def);
    var closed := ClosedRanges(s);
    var lo := if s.live then s.ranges[|s.ranges| - 1].end.instr + 1 else i + 1;
    var x := if s.live then s.ranges[|s.ranges| - 1].(start := Point(i, 1)) else LiveRange(b, Point(i, 1), Point(i, 1));
    assert t.ranges == closed + [x];
    DescendingAppend(closed, x, b, |instrs|);
    forall w
      ensures CoveredBy(t.ranges, b, w) <==> CoveredBy(closed, b, w) || x.Covers(b, w)
    {
      CoveredByAppend(closed, x, b, w);
    }
    NothingBelow(closed, b, lo, |instrs|, 2 * i);
    NothingBelow(closed, b, lo, |instrs|, 2 * i + 1);
    NeededAt(instrs, r, out, i);
    ExactStep(closed, OpenEnd(s), t.ranges, -1, b, instrs, r, out, i);
  }

  lemma {:induction false} ScanKeepsInv(b: nat, instrs: seq<Instr>, r: Reg, out: bool, i: nat)
    requires i <= |instrs| && |instrs| > 0 && AllPlainFor(instrs, r)
    ensures ScanInv(ScanInstrs(b, instrs, r, out, i), b, instrs, r, out, i)
    decreases |instrs| - i
  {
    if i == |instrs| {
      ScanStartInv(b, instrs, r, out);
    } else {
      ScanKeepsInv(b, instrs, r, out, i + 1);
      var s := ScanInstrs(b, instrs, r, out, i + 1);
      var u := FirstUsage(instrs[i].regs, r, |instrs[i].regs|);
      OnlyFirstUsageMatters(s, b, i, instrs[i], r, |instrs[i].regs|);
      FirstUsageTells(instrs[i], r);
      if u.None? {
        ScanSkipInv(s, b, instrs, r, out, i);
      } else if u == Some(Def) {
        ScanDefInv(s, b, instrs, r, out, i);
      } else if s.live {
        ScanReadLiveInv(s, b, instrs, r, out, i);
      } else {
        ScanLastReadInv(s, b, instrs, r, out, i, u.value);
      }
    }
  }

  // ---- The ranges of a block ----

  /** The points the ranges of a block cover. */
  ghost predicate RangePoint(instrs: seq<Instr>, r: Reg, in_: bool, out: bool, w: nat)
    requires w < 2 * |instrs|
  {
    && Needed(instrs, r, out, w)
    && (in_ || !LiveBefore(instrs, r, out, 0) || 2 * OpenedAt(instrs, r, out, 0) <= w)
  }

  /** The range that is still open at the top of the block covers everything from where it is made to start. */
  lemma TopRangeCovers(s: RegScan, b: nat, instrs: seq<Instr>, r: Reg, out: bool, p: Point, w: nat)
    requires |instrs| > 0 && ScanInv(s, b, instrs, r, out, 0) && s.live && w < 2 * |instrs|
    requires p.stage == 0 && p.instr <= OpenedAt(instrs, r, out, 0)
    ensures Descending(SetLastStart(s.ranges, p), b, 0, |instrs|)
    ensures CoveredBy(SetLastStart(s.ranges, p), b, w) <==> Needed(instrs, r, out, w) && p.Value() <= w
  {
    var ranges := SetLastStart(s.ranges, p);
    var x := ranges[|ranges| - 1];
    assert ranges == ClosedRanges(s) + [x];
    DescendingAppend(ClosedRanges(s), x, b, |instrs|);
    CoveredByAppend(ClosedRanges(s), x, b, w);
    if w < 2 * (x.end.instr + 1) {
      NothingBelow(ClosedRanges(s), b, x.end.instr + 1, |instrs|, w);
    }
  }

  lemma SetLastStartSame(ranges: seq<LiveRange>)
    requires ranges != []
    ensures SetLastStart(ranges, ranges[|ranges| - 1].start) == ranges
  {
    var x := ranges[|ranges| - 1];
    assert x.(start := x.start) == x;
  }

  lemma FinishRangesCover(s: RegScan, b: nat, instrs: seq<Instr>, r: Reg, in_: bool, out: bool, w: nat)
    requires |instrs| > 0 && ScanInv(s, b, instrs, r, out, 0) && w < 2 * |instrs|
    requires in_ ==> s.live
    ensures Descending(FinishRanges(s, in_), b, 0, |instrs|)
    ensures CoveredBy(FinishRanges(s, in_), b, w) <==> RangePoint(instrs, r, in_, out, w)
  {
    if in_ {
      TopRangeCovers(s, b, instrs, r, out, Point(0, 0), w);
    } else if s.live {
      var p := Point(OpenedAt(instrs, r, out, 0), 0);
      assert FinishRanges(s, in_) == SetLastStart(s.ranges, p) by { SetLastStartSame(s.ranges); }
      TopRangeCovers(s, b, instrs, r, out, p, w);
    } else {
      assert FinishRanges(s, in_) == ClosedRanges(s);
      assert OpenEnd(s) == -1;
    }
  }

  /** The ranges a block contributes, against the points the register needs. */
  lemma BlockRangesCover(b: nat, instrs: seq<Instr>, r: Reg, in_: bool, out: bool)
    requires |instrs| > 0 && AllPlainFor(instrs, r)
    requires in_ ==> LiveBefore(instrs, r, out, 0)
    ensures Descending(BlockRanges(b, instrs, r, in_, out), b, 0, |instrs|)
    ensures forall w | 0 <= w < 2 * |instrs| ::
              CoveredBy(BlockRanges(b, instrs, r, in_, out), b, w) <==> RangePoint(instrs, r, in_, out, w)
  {
    var s := ScanInstrs(b, instrs, r, out, 0);
    ScanKeepsInv(b, instrs, r, out, 0);
    FinishRangesCover(s, b, instrs, r, in_, out, 0);
    forall w | 0 <= w < 2 * |instrs|
      ensures CoveredBy(FinishRanges(s, in_), b, w) <==> RangePoint(instrs, r, in_, out, w)
    {
      FinishRangesCover(s, b, instrs, r, in_, out, w);
    }
  }

  /** No DEF of the register stands before instruction `k`. */
  predicate NoDefBefore(instrs: seq<Instr>, r: Reg, k: nat)
    requires k <= |instrs|
  {
    forall l | 0 <= l < k :: !Has(instrs[l], r, Def)
  }

  /** A read that no DEF precedes keeps the register live from the top of the block. */
  lemma {:induction false} EarlyReadIsLive(instrs: seq<Instr>, r: Reg, out: bool, i: nat, k: nat)
    requires i <= k < |instrs| && AllPlainFor(instrs, r) && ReadsReg(instrs[k], r)
    requires forall l | i <= l < k :: !Has(instrs[l], r, Def)
    ensures LiveBefore(instrs, r, out, i)
    decreases k - i
  {
    if i < k { EarlyReadIsLive(instrs, r, out, i + 1, k); }
  }

  lemma {:induction false} PassesThrough(instrs: seq<Instr>, r: Reg, i: nat)
    requires i <= |instrs| && AllPlainFor(instrs, r)
    requires forall l | i <= l < |instrs| :: !Has(instrs[l], r, Def)
    ensures LiveBefore(instrs, r, true, i)
    decreases |instrs| - i
  {
    if i < |instrs| { PassesThrough(instrs, r, i + 1); }
  }

  /** Where the open range was opened: at the last read before the first DEF. */
  lemma {:induction false} OpenedAtLastEarlyRead(instrs: seq<Instr>, r: Reg, out: bool, i: nat)
    requires i <= |instrs| && AllPlainFor(instrs, r) && LiveBefore(instrs, r, out, i)
    requires out ==> exists d :: i <= d < |instrs| && Has(instrs[d], r, Def)
    ensures var k := OpenedAt(instrs, r, out, i);
            && i <= k < |instrs| && ReadsReg(instrs[k], r)
            && (forall l | i <= l <= k :: !Has(instrs[l], r, Def))
            && forall j | k < j < |instrs| && ReadsReg(instrs[j], r) :: exists d :: k < d < j && Has(instrs[d], r, Def)
    decreases |instrs| - i
  {
    assert PlainFor(instrs[i], r);
    if ReadsReg(instrs[i], r) {
      FirstUsageTells(instrs[i], r);
      if !LiveBefore(instrs, r, out, i + 1) {
        forall j | i < j < |instrs| && ReadsReg(instrs[j], r)
          ensures exists d :: i < d < j && Has(instrs[d], r, Def)
        {
          if !exists d :: i < d < j && Has(instrs[d], r, Def) { EarlyReadIsLive(instrs, r, out, i + 1, j); }
        }
      } else {
        OpenedAtLastEarlyRead(instrs, r, out, i + 1);
      }
    } else {
      OpenedAtLastEarlyRead(instrs, r, out, i + 1);
    }
  }

  ghost predicate OccurrencesCovered(ranges: seq<LiveRange>, b: nat, instrs: seq<Instr>, r: Reg) {
    forall j | 0 <= j < |instrs| ::
      && (ReadsReg(instrs[j], r) ==> CoveredBy(ranges, b, 2 * j))
      && (WritesReg(instrs[j], r) ==> CoveredBy(ranges, b, 2 * j + 1))
  }

  /** Two instructions read the register before the block defines it. */
  predicate TwoEarlyReads(instrs: seq<Instr>, r: Reg) {
    exists j, k | 0 <= j < k < |instrs| ::
      ReadsReg(instrs[j], r) && ReadsReg(instrs[k], r) && NoDefBefore(instrs, r, k)
  }

  lemma OccurrencesNeeded(instrs: seq<Instr>, r: Reg, out: bool, j: nat)
    requires j < |instrs|
    ensures ReadsReg(instrs[j], r) ==> Needed(instrs, r, out, 2 * j)
    ensures WritesReg(instrs[j], r) ==> Needed(instrs, r, out, 2 * j + 1)
  {
    NeededAt(instrs, r, out, j);
  }

  /** A register live at the top of a block that its predecessors do not keep: only the last early read is covered. */
  lemma StaleOccurrences(b: nat, instrs: seq<Instr>, r: Reg, out: bool)
    requires |instrs| > 0 && AllPlainFor(instrs, r) && LiveBefore(instrs, r, out, 0)
    requires out ==> !NoDefBefore(instrs, r, |instrs|)
    ensures OccurrencesCovered(BlockRanges(b, instrs, r, false, out), b, instrs, r) <==> !TwoEarlyReads(instrs, r)
  {
    BlockRangesCover(b, instrs, r, false, out);
    OpenedAtLastEarlyRead(instrs, r, out, 0);
    var ranges := BlockRanges(b, instrs, r, false, out);
    var k := OpenedAt(instrs, r, out, 0);
    assert NoDefBefore(instrs, r, k);
    if TwoEarlyReads(instrs, r) {
      var j, k' :| 0 <= j < k' < |instrs| && ReadsReg(instrs[j], r) && ReadsReg(instrs[k'], r) && NoDefBefore(instrs, r, k');
      assert k' <= k;
      assert !RangePoint(instrs, r, false, out, 2 * j);
    } else {
      forall j | 0 <= j < |instrs|
        ensures ReadsReg(instrs[j], r) ==> CoveredBy(ranges, b, 2 * j)
        ensures WritesReg(instrs[j], r) ==> CoveredBy(ranges, b, 2 * j + 1)
      {
        OccurrencesNeeded(instrs, r, out, j);
      }
    }
  }

  /**
    Exactly when the ranges cover every operand that names the register. A register that is not live into the block
    but is read twice before the block defines it loses its first read.
   */
  lemma OccurrencesCoveredIff(b: nat, instrs: seq<Instr>, r: Reg, in_: bool, out: bool)
    requires AllPlainFor(instrs, r)
    requires in_ && instrs != [] ==> LiveBefore(instrs, r, out, 0)
    requires out && !in_ ==> !NoDefBefore(instrs, r, |instrs|)
    ensures OccurrencesCovered(BlockRanges(b, instrs, r, in_, out), b, instrs, r) <==> in_ || !TwoEarlyReads(instrs, r)
  {
    if instrs == [] { return; }
    if !in_ && LiveBefore(instrs, r, out, 0) {
      StaleOccurrences(b, instrs, r, out);
      return;
    }
    BlockRangesCover(b, instrs, r, in_, out);
    forall j | 0 <= j < |instrs|
      ensures ReadsReg(instrs[j], r) ==> CoveredBy(BlockRanges(b, instrs, r, in_, out), b, 2 * j)
      ensures WritesReg(instrs[j], r) ==> CoveredBy(BlockRanges(b, instrs, r, in_, out), b, 2 * j + 1)
    {
      OccurrencesNeeded(instrs, r, out, j);
    }
    if !in_ && TwoEarlyReads(instrs, r) {
      var j, k :| 0 <= j < k < |instrs| && ReadsReg(instrs[j], r) && ReadsReg(instrs[k], r) && NoDefBefore(instrs, r, k);
      EarlyReadIsLive(instrs, r, out, 0, k);
    }
  }

  /** Around an instruction, a live register whose value is not left over from before the block lies in a range. */
  lemma KeptPointsAreRangePoints(instrs: seq<Instr>, r: Reg, in_: bool, out: bool, i: nat)
    requires i < |instrs| && AllPlainFor(instrs, r)
    requires out && !in_ ==> !NoDefBefore(instrs, r, |instrs|)
    ensures LiveBefore(instrs, r, out, i) && (in_ || !NoDefBefore(instrs, r, i)) ==> RangePoint(instrs, r, in_, out, 2 * i)
    ensures LiveBefore(instrs, r, out, i + 1) && (in_ || !NoDefBefore(instrs, r, i + 1)) ==>
              RangePoint(instrs, r, in_, out, 2 * i + 1)
  {
    NeededAt(instrs, r, out, i);
    if !in_ && LiveBefore(instrs, r, out, 0) {
      OpenedAtLastEarlyRead(instrs, r, out, 0);
      var k := OpenedAt(instrs, r, out, 0);
      assert NoDefBefore(instrs, r, k + 1);
    }
  }
}
