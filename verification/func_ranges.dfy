/** Live ranges over a whole function, and what they are worth: soundness of the liveness analysis. */
module FuncRanges {
  import opened Graph
  import opened RegAllocFunc
  import opened LivenessSpec
  import opened LiveRanges

  ghost function RangesInBlock(f: Func, b: nat, r: Reg): seq<LiveRange>
    requires b < |f.blocks|
  {
    BlockRanges(b, f.blocks[b].instrs, r, r in LiveIns(f, b), r in LiveOuts(f, b))
  }

  /** The ranges found in the blocks before `b`, in block order. */
  ghost function RangesUpTo(f: Func, r: Reg, b: nat): seq<LiveRange>
    requires b <= |f.blocks|
  {
    if b == 0 then [] else RangesUpTo(f, r, b - 1) + RangesInBlock(f, b - 1, r)
  }

  ghost function RangesOf(f: Func, r: Reg): seq<LiveRange> {
    RangesUpTo(f, r, |f.blocks|)
  }

  /** The kill points of the first `k` operands of instruction `i`. */
  function KillsOfOps(b: nat, i: nat, ops: seq<RegOp>, k: nat): seq<KillPoint>
    requires k <= |ops|
  {
    if k == 0 then []
    else
      KillsOfOps(b, i, ops, k - 1) +
      if ops[k - 1].usage == Kill && ops[k - 1].reg.Physical? then [KillPoint(ops[k - 1].reg.p, b, i)] else []
  }

  /** The kill points of the instructions from the last one down to `i`. */
  function KillsOfInstrs(b: nat, instrs: seq<Instr>, i: nat): seq<KillPoint>
    requires i <= |instrs|
    decreases |instrs| - i
  {
    if i == |instrs| then []
    else KillsOfInstrs(b, instrs, i + 1) + KillsOfOps(b, i, instrs[i].regs, |instrs[i].regs|)
  }

  function KillsUpTo(f: Func, b: nat): seq<KillPoint>
    requires b <= |f.blocks|
  {
    if b == 0 then [] else KillsUpTo(f, b - 1) + KillsOfInstrs(b - 1, f.blocks[b - 1].instrs, 0)
  }

  ghost predicate IsKillPoint(f: Func, kp: KillPoint) {
    && kp.block < |f.blocks| && kp.instr < |f.blocks[kp.block].instrs|
    && Has(f.blocks[kp.block].instrs[kp.instr], Physical(kp.reg), Kill)
  }

  /** A register that every instruction lists in the form the scan is written for. */
  predicate PlainReg(f: Func, r: Reg) {
    forall b | 0 <= b < |f.blocks| :: AllPlainFor(f.blocks[b].instrs, r)
  }

  // ---- Ranges of one block within those of the function ----

  ghost predicate RangesLieIn(ranges: seq<LiveRange>, b: nat) {
    forall k | 0 <= k < |ranges| :: ranges[k].block == b
  }

  lemma {:induction false} ScanOpsStayInBlock(s: RegScan, b: nat, i: nat, ops: seq<RegOp>, r: Reg, k: nat)
    requires k <= |ops| && RangesLieIn(s.ranges, b)
    ensures RangesLieIn(ScanOps(s, b, i, ops, r, k).ranges, b)
  {
    if k > 0 { ScanOpsStayInBlock(s, b, i, ops, r, k - 1); }
  }

  lemma {:induction false} ScanStaysInBlock(b: nat, instrs: seq<Instr>, r: Reg, out: bool, i: nat)
    requires i <= |instrs| && |instrs| > 0
    ensures RangesLieIn(ScanInstrs(b, instrs, r, out, i).ranges, b)
    decreases |instrs| - i
  {
    if i < |instrs| {
      ScanStaysInBlock(b, instrs, r, out, i + 1);
      ScanOpsStayInBlock(ScanInstrs(b, instrs, r, out, i + 1), b, i, instrs[i].regs, r, |instrs[i].regs|);
    }
  }

  lemma BlockRangesStayInBlock(f: Func, r: Reg, b: nat)
    requires b < |f.blocks|
    ensures RangesLieIn(RangesInBlock(f, b, r), b)
  {
    if f.blocks[b].instrs != [] { ScanStaysInBlock(b, f.blocks[b].instrs, r, r in LiveOuts(f, b), 0); }
  }

  lemma {:induction false} RangesUpToAreThoseOfBlocks(f: Func, r: Reg, n: nat, range: LiveRange)
    requires n <= |f.blocks|
    ensures range in RangesUpTo(f, r, n) <==> range.block < n && range in RangesInBlock(f, range.block, r)
  {
    if n > 0 {
      RangesUpToAreThoseOfBlocks(f, r, n - 1, range);
      BlockRangesStayInBlock(f, r, n - 1);
    }
  }

  lemma CoveredByItsBlock(f: Func, r: Reg, b: nat, w: nat)
    requires b < |f.blocks|
    ensures CoveredBy(RangesOf(f, r), b, w) <==> CoveredBy(RangesInBlock(f, b, r), b, w)
  {
    var all, here := RangesOf(f, r), RangesInBlock(f, b, r);
    if CoveredBy(all, b, w) {
      var k :| 0 <= k < |all| && all[k].Covers(b, w);
      RangesUpToAreThoseOfBlocks(f, r, |f.blocks|, all[k]);
      assert all[k] in here;
    }
    if CoveredBy(here, b, w) {
      var k :| 0 <= k < |here| && here[k].Covers(b, w);
      RangesUpToAreThoseOfBlocks(f, r, |f.blocks|, here[k]);
      assert here[k] in all;
    }
  }

  lemma BlockRangesAreInBlock(f: Func, r: Reg, b: nat)
    requires PlainReg(f, r) && b < |f.blocks|
    ensures Descending(RangesInBlock(f, b, r), b, 0, |f.blocks[b].instrs|)
  {
    if f.blocks[b].instrs != [] {
      LiveInIsLiveBefore(f, b, r);
      BlockRangesCover(b, f.blocks[b].instrs, r, r in LiveIns(f, b), r in LiveOuts(f, b));
    }
  }

  // ---- Block liveness agrees with liveness inside the block ----

  /** An exposed use is a read that no DEF of an earlier instruction precedes. */
  lemma ExposedUseIsEarlyRead(block: Block, r: Reg) returns (i: nat)
    requires ExposedUse(block, r)
    ensures i < |block.instrs| && ReadsReg(block.instrs[i], r) && NoDefBefore(block.instrs, r, i)
  {
    var k: nat, j: nat :| ExposedUseAt(block, r, k, j);
    i := k;
    assert ReadsReg(block.instrs[i], r) by { assert block.instrs[i].regs[j] in block.instrs[i].regs; }
    forall l | 0 <= l < i
      ensures !Has(block.instrs[l], r, Def)
    {
      if Has(block.instrs[l], r, Def) {
        var k :| 0 <= k < |block.instrs[l].regs| && block.instrs[l].regs[k] == RegOp(r, Def);
        assert Before(l, k, i, j) && IsOp(block, r, Def, l, k);
      }
    }
  }

  lemma ExposedUseIsLive(block: Block, r: Reg, out: bool)
    requires AllPlainFor(block.instrs, r) && ExposedUse(block, r)
    ensures LiveBefore(block.instrs, r, out, 0)
  {
    var i := ExposedUseIsEarlyRead(block, r);
    EarlyReadIsLive(block.instrs, r, out, 0, i);
  }

  lemma NotDefinedMeansNoDef(block: Block, r: Reg)
    ensures r !in BlockDefs(block) <==> NoDefBefore(block.instrs, r, |block.instrs|)
  {
    if r in BlockDefs(block) {
      var i, j :| 0 <= i < |block.instrs| && 0 <= j < |block.instrs[i].regs|
        && block.instrs[i].regs[j].usage == Def && block.instrs[i].regs[j].reg == r;
      assert block.instrs[i].regs[j] == RegOp(r, Def);
      assert Has(block.instrs[i], r, Def);
    }
  }

  /** A register in the block's `ins` is live before its first instruction. */
  lemma LiveInIsLiveBefore(f: Func, b: nat, r: Reg)
    requires PlainReg(f, r) && b < |f.blocks|
    ensures r in LiveIns(f, b) && f.blocks[b].instrs != [] ==> LiveBefore(f.blocks[b].instrs, r, r in LiveOuts(f, b), 0)
    ensures r in LiveOuts(f, b) && r !in LiveIns(f, b) ==> !NoDefBefore(f.blocks[b].instrs, r, |f.blocks[b].instrs|)
  {
    var block := f.blocks[b];
    NotDefinedMeansNoDef(block, r);
    if Reachable(f, b) {
      LiveInsEquationAt(f, b, r);
      if r in BlockUses(block) {
        ExposedUseIsBlockUse(block, r);
        ExposedUseIsLive(block, r, r in LiveOuts(f, b));
      } else if r in LiveIns(f, b) {
        PassesThrough(block.instrs, r, 0);
      }
    }
  }

  // ---- The main results ----

  /** The register's value on entry to the block is not kept by the predecessors, and instruction `i` still sees it. */
  ghost predicate Stale(f: Func, b: nat, i: nat, r: Reg)
    requires b < |f.blocks| && i <= |f.blocks[b].instrs|
  {
    r !in LiveIns(f, b) && forall k | 0 <= k < i :: !ResetsReg(f.blocks[b].instrs[k], r)
  }

  ghost predicate Live(f: Func, b: nat, i: nat, r: Reg)
    requires b < |f.blocks| && i <= |f.blocks[b].instrs|
  {
    LiveBefore(f.blocks[b].instrs, r, r in LiveOuts(f, b), i)
  }

  /** The registers whose values must be right before instruction `i`. */
  ghost predicate Tracked(f: Func, b: nat, i: nat, r: Reg)
    requires b < |f.blocks| && i <= |f.blocks[b].instrs|
  {
    Live(f, b, i, r) && !Stale(f, b, i, r)
  }

  /** Ranges are sound: around every instruction, a live register lies in one of its ranges. */
  lemma LivePointsCovered(f: Func, b: nat, i: nat, r: Reg)
    requires PlainReg(f, r) && b < |f.blocks| && i < |f.blocks[b].instrs|
    ensures Tracked(f, b, i, r) ==> CoveredBy(RangesOf(f, r), b, 2 * i)
    ensures Tracked(f, b, i + 1, r) ==> CoveredBy(RangesOf(f, r), b, 2 * i + 1)
  {
    var instrs, in_, out := f.blocks[b].instrs, r in LiveIns(f, b), r in LiveOuts(f, b);
    LiveInIsLiveBefore(f, b, r);
    BlockRangesCover(b, instrs, r, in_, out);
    CoveredByItsBlock(f, r, b, 2 * i);
    CoveredByItsBlock(f, r, b, 2 * i + 1);
    KeptPointsAreRangePoints(instrs, r, in_, out, i);
  }

  /** Ranges are exact: outside of the ones above and the operands that write the register, nothing is covered. */
  lemma OnlyNeededPointsCovered(f: Func, b: nat, w: nat, r: Reg)
    requires PlainReg(f, r) && b < |f.blocks| && w < 2 * |f.blocks[b].instrs|
    requires CoveredBy(RangesOf(f, r), b, w)
    ensures Needed(f.blocks[b].instrs, r, r in LiveOuts(f, b), w)
  {
    LiveInIsLiveBefore(f, b, r);
    BlockRangesCover(b, f.blocks[b].instrs, r, r in LiveIns(f, b), r in LiveOuts(f, b));
    CoveredByItsBlock(f, r, b, w);
  }

  ghost predicate OperandsCovered(f: Func, b: nat, r: Reg)
    requires b < |f.blocks|
  {
    OccurrencesCovered(RangesOf(f, r), b, f.blocks[b].instrs, r)
  }

  /** Exactly when every operand of a block that names the register lies in one of the register's ranges. */
  lemma OperandsCoveredIff(f: Func, b: nat, r: Reg)
    requires PlainReg(f, r) && b < |f.blocks|
    ensures OperandsCovered(f, b, r) <==> r in LiveIns(f, b) || !TwoEarlyReads(f.blocks[b].instrs, r)
  {
    LiveInIsLiveBefore(f, b, r);
    OccurrencesCoveredIff(b, f.blocks[b].instrs, r, r in LiveIns(f, b), r in LiveOuts(f, b));
    forall w: nat
      ensures CoveredBy(RangesOf(f, r), b, w) <==> CoveredBy(RangesInBlock(f, b, r), b, w)
    {
      CoveredByItsBlock(f, r, b, w);
    }
  }

  /** Ranges of one register touch every instruction at most once. */
  lemma RangesDoNotShareInstructions(f: Func, r: Reg, x: LiveRange, y: LiveRange, b: nat, i: nat)
    requires PlainReg(f, r)
    requires x in RangesOf(f, r) && y in RangesOf(f, r) && x.Spans(b, i) && y.Spans(b, i)
    ensures x == y && x.WellFormed() && b < |f.blocks| && i < |f.blocks[b].instrs|
  {
    RangesUpToAreThoseOfBlocks(f, r, |f.blocks|, x);
    RangesUpToAreThoseOfBlocks(f, r, |f.blocks|, y);
    BlockRangesAreInBlock(f, r, b);
    var ranges := RangesInBlock(f, b, r);
    var j :| 0 <= j < |ranges| && ranges[j] == x;
    var k :| 0 <= k < |ranges| && ranges[k] == y;
  }

  // ---- The scan over all registers at once, as the source runs it ----

  function RangesIn(regRanges: map<Reg, seq<LiveRange>>, r: Reg): seq<LiveRange> {
    if r in regRanges then regRanges[r] else []
  }

  /** What operand `op` of instruction `i` does to the ranges of all registers and the set of live registers. */
  function ApplyOp(regRanges: map<Reg, seq<LiveRange>>, live: set<Reg>, b: nat, i: nat, op: RegOp):
    (map<Reg, seq<LiveRange>>, set<Reg>)
  {
    match op.usage
    case Use =>
      if op.reg in live then (regRanges, live)
      else (Push(regRanges, op.reg, LiveRange(b, Point(i, 0), Point(i, 0))), live + {op.reg})
    case Def =>
      if op.reg in live then (StartLast(regRanges, op.reg, Point(i, 1)), live - {op.reg})
      else (Push(regRanges, op.reg, LiveRange(b, Point(i, 1), Point(i, 1))), live)
    case UseDef =>
      if op.reg in live then (regRanges, live)
      else (Push(regRanges, op.reg, LiveRange(b, Point(i, 0), Point(i, 1))), live + {op.reg})
    case Kill =>
      (regRanges, live - {op.reg})
  }

  function Push(regRanges: map<Reg, seq<LiveRange>>, r: Reg, range: LiveRange): map<Reg, seq<LiveRange>> {
    regRanges[r := RangesIn(regRanges, r) + [range]]
  }

  function StartLast(regRanges: map<Reg, seq<LiveRange>>, r: Reg, p: Point): map<Reg, seq<LiveRange>> {
    regRanges[r := SetLastStart(RangesIn(regRanges, r), p)]
  }

  lemma ApplyOpIsScanOp(regRanges: map<Reg, seq<LiveRange>>, live: set<Reg>, b: nat, i: nat, op: RegOp, r: Reg)
    ensures var (regRanges', live') := ApplyOp(regRanges, live, b, i, op);
            RegScan(RangesIn(regRanges', r), r in live') ==
            if r == op.reg then ScanOp(RegScan(RangesIn(regRanges, r), r in live), b, i, op.usage)
            else RegScan(RangesIn(regRanges, r), r in live)
  {
  }

  /** One register's share of the state while block `b` is scanned: instructions after `i`, and `k` operands of `i`. */
  ghost function ScanAt(f: Func, b: nat, r: Reg, i: nat, k: nat): RegScan
    requires b < |f.blocks| && i < |f.blocks[b].instrs| && k <= |f.blocks[b].instrs[i].regs|
  {
    ScanOps(ScanInstrs(b, f.blocks[b].instrs, r, r in LiveOuts(f, b), i + 1), b, i, f.blocks[b].instrs[i].regs, r, k)
  }

  ghost predicate AgreesWith(f: Func, b: nat, regRanges: map<Reg, seq<LiveRange>>, live: set<Reg>, r: Reg, s: RegScan)
    requires b < |f.blocks|
  {
    RangesIn(regRanges, r) == RangesUpTo(f, r, b) + s.ranges && (r in live <==> s.live)
  }

  ghost predicate ScansBlock(f: Func, b: nat, regRanges: map<Reg, seq<LiveRange>>, live: set<Reg>, i: nat, k: nat)
    requires b < |f.blocks| && i < |f.blocks[b].instrs| && k <= |f.blocks[b].instrs[i].regs|
  {
    forall r {:trigger AgreesAt(f, b, regRanges, live, i, k, r)} :: AgreesAt(f, b, regRanges, live, i, k, r)
  }

  ghost predicate AgreesAt(f: Func, b: nat, regRanges: map<Reg, seq<LiveRange>>, live: set<Reg>, i: nat, k: nat, r: Reg)
    requires b < |f.blocks| && i < |f.blocks[b].instrs| && k <= |f.blocks[b].instrs[i].regs|
  {
    AgreesWith(f, b, regRanges, live, r, ScanAt(f, b, r, i, k))
  }

  /** All registers after the instructions from the last one down to `i`. */
  ghost predicate ScannedDownTo(f: Func, b: nat, regRanges: map<Reg, seq<LiveRange>>, live: set<Reg>, i: nat)
    requires b < |f.blocks| && i <= |f.blocks[b].instrs| && |f.blocks[b].instrs| > 0
  {
    forall r {:trigger AgreesDownTo(f, b, regRanges, live, i, r)} :: AgreesDownTo(f, b, regRanges, live, i, r)
  }

  ghost predicate AgreesDownTo(f: Func, b: nat, regRanges: map<Reg, seq<LiveRange>>, live: set<Reg>, i: nat, r: Reg)
    requires b < |f.blocks| && i <= |f.blocks[b].instrs| && |f.blocks[b].instrs| > 0
  {
    AgreesWith(f, b, regRanges, live, r, ScanInstrs(b, f.blocks[b].instrs, r, r in LiveOuts(f, b), i))
  }

  /** A live register always has a range to extend: `ranges.back()` is safe, and it belongs to this block. */
  lemma {:induction false} LiveHasRange(s: RegScan, b: nat, i: nat, ops: seq<RegOp>, r: Reg, k: nat)
    requires k <= |ops| && (s.live ==> s.ranges != [])
    ensures ScanOps(s, b, i, ops, r, k).live ==> ScanOps(s, b, i, ops, r, k).ranges != []
    ensures s.ranges != [] ==> ScanOps(s, b, i, ops, r, k).ranges != []
    ensures (exists j :: 0 <= j < k && ops[j] == RegOp(r, Use)) ==> ScanOps(s, b, i, ops, r, k).ranges != []
  {
    if k > 0 { LiveHasRange(s, b, i, ops, r, k - 1); }
  }

  lemma {:induction false} LiveHasRangeFrom(b: nat, instrs: seq<Instr>, r: Reg, out: bool, i: nat)
    requires i <= |instrs| && |instrs| > 0
    ensures var s := ScanInstrs(b, instrs, r, out, i);
            && (s.live ==> s.ranges != [])
            && (out ==> s.ranges != [])
            && forall l | i <= l < |instrs| :: Has(instrs[l], r, Use) ==> s.ranges != []
    decreases |instrs| - i
  {
    if i < |instrs| {
      LiveHasRangeFrom(b, instrs, r, out, i + 1);
      LiveHasRange(ScanInstrs(b, instrs, r, out, i + 1), b, i, instrs[i].regs, r, |instrs[i].regs|);
    }
  }

  /** One operand keeps each register in step; only the register it names changes. */
  lemma ApplyOpKeepsReg(f: Func, b: nat, regRanges: map<Reg, seq<LiveRange>>, live: set<Reg>, i: nat, k: nat, r: Reg)
    requires b < |f.blocks| && i < |f.blocks[b].instrs| && k < |f.blocks[b].instrs[i].regs|
    requires AgreesAt(f, b, regRanges, live, i, k, r)
    ensures var (regRanges', live') := ApplyOp(regRanges, live, b, i, f.blocks[b].instrs[i].regs[k]);
            AgreesAt(f, b, regRanges', live', i, k + 1, r)
    ensures r in live ==> RangesIn(regRanges, r) != []
  {
    var op := f.blocks[b].instrs[i].regs[k];
    var s := ScanAt(f, b, r, i, k);
    var t := ScanAt(f, b, r, i, k + 1);
    assert t == if op.reg == r then ScanOp(s, b, i, op.usage) else s;
    LiveHasRangeFrom(b, f.blocks[b].instrs, r, r in LiveOuts(f, b), i + 1);
    LiveHasRange(ScanInstrs(b, f.blocks[b].instrs, r, r in LiveOuts(f, b), i + 1), b, i, f.blocks[b].instrs[i].regs, r, k);
    ApplyOpIsScanOp(regRanges, live, b, i, op, r);
    ScanOpShift(RangesUpTo(f, r, b), s, b, i, op.usage);
  }

  lemma ApplyOpKeepsStep(f: Func, b: nat, regRanges: map<Reg, seq<LiveRange>>, live: set<Reg>, i: nat, k: nat)
    requires b < |f.blocks| && i < |f.blocks[b].instrs| && k < |f.blocks[b].instrs[i].regs|
    requires ScansBlock(f, b, regRanges, live, i, k)
    ensures var op := f.blocks[b].instrs[i].regs[k];
            var (regRanges', live') := ApplyOp(regRanges, live, b, i, op);
            && ScansBlock(f, b, regRanges', live', i, k + 1)
            && (op.usage == Def && op.reg in live ==> RangesIn(regRanges, op.reg) != [])
  {
    var op := f.blocks[b].instrs[i].regs[k];
    var (regRanges', live') := ApplyOp(regRanges, live, b, i, op);
    var next := k + 1;
    forall r
      ensures AgreesAt(f, b, regRanges', live', i, next, r)
    {
      assert AgreesAt(f, b, regRanges, live, i, k, r);
      ApplyOpKeepsReg(f, b, regRanges, live, i, k, r);
    }
    assert AgreesAt(f, b, regRanges, live, i, k, op.reg);
    ApplyOpKeepsReg(f, b, regRanges, live, i, k, op.reg);
  }

  /** Ranges of earlier blocks stay in front and are not touched. */
  lemma ScanOpShift(before: seq<LiveRange>, s: RegScan, b: nat, i: nat, u: Usage)
    requires s.live ==> s.ranges != []
    ensures var t := ScanOp(s, b, i, u);
            ScanOp(RegScan(before + s.ranges, s.live), b, i, u) == RegScan(before + t.ranges, t.live)
  {
    match u
    case Use => assert before + s.ranges + [LiveRange(b, Point(i, 0), Point(i, 0))]
                    == before + (s.ranges + [LiveRange(b, Point(i, 0), Point(i, 0))]);
    case UseDef => assert before + s.ranges + [LiveRange(b, Point(i, 0), Point(i, 1))]
                       == before + (s.ranges + [LiveRange(b, Point(i, 0), Point(i, 1))]);
    case Def =>
      if s.live {
        SetLastStartShift(before, s.ranges, Point(i, 1));
      } else {
        assert before + s.ranges + [LiveRange(b, Point(i, 1), Point(i, 1))]
            == before + (s.ranges + [LiveRange(b, Point(i, 1), Point(i, 1))]);
      }
    case Kill =>
  }

  lemma SetLastStartShift(before: seq<LiveRange>, ranges: seq<LiveRange>, p: Point)
    requires ranges != []
    ensures SetLastStart(before + ranges, p) == before + SetLastStart(ranges, p)
  {
    assert (before + ranges)[|before + ranges| - 1] == ranges[|ranges| - 1];
  }

  /** Whatever its operands look like, a register live into a block has a range in it. */
  lemma LiveInHasRange(f: Func, b: nat, r: Reg)
    requires b < |f.blocks| && f.blocks[b].instrs != [] && r in LiveIns(f, b)
    ensures ScanInstrs(b, f.blocks[b].instrs, r, r in LiveOuts(f, b), 0).ranges != []
  {
    LiveInsEquationAt(f, b, r);
    LiveHasRangeFrom(b, f.blocks[b].instrs, r, r in LiveOuts(f, b), 0);
    if r in BlockUses(f.blocks[b]) {
      ExposedUseIsBlockUse(f.blocks[b], r);
      var i: nat, j: nat :| ExposedUseAt(f.blocks[b], r, i, j);
      assert f.blocks[b].instrs[i].regs[j] in f.blocks[b].instrs[i].regs;
    }
  }

  ghost predicate RangesFound(f: Func, b: nat, regRanges: map<Reg, seq<LiveRange>>)
    requires b <= |f.blocks|
  {
    forall r {:trigger RangesFoundFor(f, b, regRanges, r)} :: RangesFoundFor(f, b, regRanges, r)
  }

  ghost predicate RangesFoundFor(f: Func, b: nat, regRanges: map<Reg, seq<LiveRange>>, r: Reg)
    requires b <= |f.blocks|
  {
    RangesIn(regRanges, r) == RangesUpTo(f, r, b)
  }

  /** Opening a range over the whole block for each live-out register starts the scan. */
  lemma ScanStarts(f: Func, b: nat, regRanges: map<Reg, seq<LiveRange>>, regRanges': map<Reg, seq<LiveRange>>)
    requires b < |f.blocks| && |f.blocks[b].instrs| > 0 && RangesFound(f, b, regRanges)
    requires forall r :: RangesIn(regRanges', r) ==
               RangesIn(regRanges, r) +
               if r in LiveOuts(f, b) then [LiveRange(b, Point(0, 0), Point(|f.blocks[b].instrs| - 1, 1))] else []
    ensures ScannedDownTo(f, b, regRanges', LiveOuts(f, b), |f.blocks[b].instrs|)
  {
    forall r
      ensures AgreesDownTo(f, b, regRanges', LiveOuts(f, b), |f.blocks[b].instrs|, r)
    {
      assert RangesFoundFor(f, b, regRanges, r);
    }
  }

  /** Starting the last range of each live-in register at the top ends it. */
  lemma ScanFinishes(f: Func, b: nat, regRanges: map<Reg, seq<LiveRange>>, live: set<Reg>, regRanges': map<Reg, seq<LiveRange>>)
    requires b < |f.blocks| && |f.blocks[b].instrs| > 0 && ScannedDownTo(f, b, regRanges, live, 0)
    requires forall r :: RangesIn(regRanges', r) ==
               if r in LiveIns(f, b) then SetLastStart(RangesIn(regRanges, r), Point(0, 0)) else RangesIn(regRanges, r)
    ensures RangesFound(f, b + 1, regRanges')
  {
    var next := b + 1;
    forall r
      ensures RangesFoundFor(f, next, regRanges', r)
    {
      var s := ScanInstrs(b, f.blocks[b].instrs, r, r in LiveOuts(f, b), 0);
      assert AgreesDownTo(f, b, regRanges, live, 0, r);
      if r in LiveIns(f, b) {
        LiveInHasRange(f, b, r);
        SetLastStartShift(RangesUpTo(f, r, b), s.ranges, Point(0, 0));
      }
    }
  }

  lemma LiveInsHaveRanges(f: Func, b: nat, regRanges: map<Reg, seq<LiveRange>>, live: set<Reg>)
    requires b < |f.blocks| && |f.blocks[b].instrs| > 0 && ScannedDownTo(f, b, regRanges, live, 0)
    ensures forall r :: r in LiveIns(f, b) ==> RangesIn(regRanges, r) != []
  {
    forall r | r in LiveIns(f, b)
      ensures RangesIn(regRanges, r) != []
    {
      assert AgreesDownTo(f, b, regRanges, live, 0, r);
      LiveInHasRange(f, b, r);
    }
  }

  lemma ScanEntersInstr(f: Func, b: nat, regRanges: map<Reg, seq<LiveRange>>, live: set<Reg>, i: nat)
    requires b < |f.blocks| && i < |f.blocks[b].instrs| && ScannedDownTo(f, b, regRanges, live, i + 1)
    ensures ScansBlock(f, b, regRanges, live, i, 0)
  {
    forall r
      ensures AgreesAt(f, b, regRanges, live, i, 0, r)
    {
      assert AgreesDownTo(f, b, regRanges, live, i + 1, r);
    }
  }

  lemma ScanLeavesInstr(f: Func, b: nat, regRanges: map<Reg, seq<LiveRange>>, live: set<Reg>, i: nat)
    requires b < |f.blocks| && i < |f.blocks[b].instrs|
    requires ScansBlock(f, b, regRanges, live, i, |f.blocks[b].instrs[i].regs|)
    ensures ScannedDownTo(f, b, regRanges, live, i)
  {
    forall r
      ensures AgreesDownTo(f, b, regRanges, live, i, r)
    {
      assert AgreesAt(f, b, regRanges, live, i, |f.blocks[b].instrs[i].regs|, r);
    }
  }

  lemma NothingFoundYet(f: Func)
    ensures RangesFound(f, 0, map[])
  {
  }

  lemma EmptyBlockAddsNothing(f: Func, b: nat, regRanges: map<Reg, seq<LiveRange>>)
    requires b < |f.blocks| && f.blocks[b].instrs == [] && RangesFound(f, b, regRanges)
    ensures RangesFound(f, b + 1, regRanges)
  {
    var next := b + 1;
    forall r
      ensures RangesFoundFor(f, next, regRanges, r)
    {
      assert RangesFoundFor(f, b, regRanges, r);
      assert RangesInBlock(f, b, r) == [];
    }
  }

  lemma {:induction false} KillsOfOpsAre(b: nat, i: nat, ops: seq<RegOp>, k: nat, kp: KillPoint)
    requires k <= |ops|
    ensures kp in KillsOfOps(b, i, ops, k) <==>
            kp.block == b && kp.instr == i && RegOp(Physical(kp.reg), Kill) in ops[..k]
  {
    if k > 0 {
      KillsOfOpsAre(b, i, ops, k - 1, kp);
      assert ops[..k] == ops[..k - 1] + [ops[k - 1]];
    }
  }

  lemma {:induction false} KillsOfInstrsAre(b: nat, instrs: seq<Instr>, i: nat, kp: KillPoint)
    requires i <= |instrs|
    ensures kp in KillsOfInstrs(b, instrs, i) <==>
            kp.block == b && i <= kp.instr < |instrs| && Has(instrs[kp.instr], Physical(kp.reg), Kill)
    decreases |instrs| - i
  {
    if i < |instrs| {
      KillsOfInstrsAre(b, instrs, i + 1, kp);
      KillsOfOpsAre(b, i, instrs[i].regs, |instrs[i].regs|, kp);
      assert instrs[i].regs[..|instrs[i].regs|] == instrs[i].regs;
    }
  }

  /** The list of kill points holds the KILL operands of the function and nothing else. */
  lemma {:induction false} KillsAre(f: Func, n: nat, kp: KillPoint)
    requires n <= |f.blocks|
    ensures kp in KillsUpTo(f, n) <==> IsKillPoint(f, kp) && kp.block < n
  {
    if n > 0 {
      KillsAre(f, n - 1, kp);
      KillsOfInstrsAre(n - 1, f.blocks[n - 1].instrs, 0, kp);
    }
  }
}
