/**
  Live ranges of physical registers, which instructions may clobber (src/banjo/codegen/liveness.cpp, the KILL branch).
  KILL ends liveness without starting the open range, so a value can go unprotected before or after an instruction that
  clobbers its register. This module says exactly when.
 */
module Clobbers {
  import opened RegAllocFunc
  import opened LivenessSpec
  import opened LiveRanges
  import opened FuncRanges
  import opened Placement
  import opened R = Roles

  // ---- Operand lists ----

  /** The role an instruction plays for a register after one more operand. */
  function NextRole(role: Role, u: Usage): Option<Role> {
    match u
    case Kill => if role.does == Nothing then Some(Role(true, Nothing)) else None
    case Use =>
      if role.does == Nothing then Some(role.(does := Reads))
      else if role.does == Reads || role.does == Updates then Some(role) else None
    case UseDef => if role.does == Nothing then Some(role.(does := Updates)) else None
    case Def =>
      if role.does == Nothing then Some(role.(does := Defines))
      else if role.does == Reads && role.killed then Some(role.(does := Exchanges)) else None
  }

  /**
    The role of an operand list. A register is clobbered first. Then it is read, or updated in place, or defined, and only
    an instruction that clobbers it may read and define it: a call reads its arguments and leaves its result.
   */
  function RoleOfOps(ops: seq<RegOp>, r: Reg, k: nat): Option<Role>
    requires k <= |ops|
  {
    if k == 0 then Some(Role(false, Nothing))
    else
      var role := RoleOfOps(ops, r, k - 1);
      if role.None? || ops[k - 1].reg != r then role else NextRole(role.value, ops[k - 1].usage)
  }

  predicate HasRole(instr: Instr, r: Reg) {
    RoleOfOps(instr.regs, r, |instr.regs|).Some?
  }

  function RoleOf(instr: Instr, r: Reg): Role
    requires HasRole(instr, r)
  {
    RoleOfOps(instr.regs, r, |instr.regs|).value
  }

  predicate AllHaveRoles(instrs: seq<Instr>, r: Reg) {
    forall i | 0 <= i < |instrs| :: HasRole(instrs[i], r)
  }

  function RolesOf(instrs: seq<Instr>, r: Reg): (roles: seq<Role>)
    requires AllHaveRoles(instrs, r)
    ensures |roles| == |instrs| && forall i | 0 <= i < |instrs| :: roles[i] == RoleOf(instrs[i], r)
  {
    seq(|instrs|, i requires 0 <= i < |instrs| => RoleOf(instrs[i], r))
  }

  predicate Among(ops: seq<RegOp>, k: nat, op: RegOp)
    requires k <= |ops|
  {
    exists j | 0 <= j < k :: ops[j] == op
  }

  lemma {:induction false} RoleTellsOps(ops: seq<RegOp>, r: Reg, k: nat)
    requires k <= |ops| && RoleOfOps(ops, r, k).Some?
    ensures var role := RoleOfOps(ops, r, k).value;
            && role.killed == Among(ops, k, RegOp(r, Usage.Kill))
            && role.Reading() == (Among(ops, k, RegOp(r, Usage.Use)) || Among(ops, k, RegOp(r, Usage.UseDef)))
            && role.Defining() == Among(ops, k, RegOp(r, Usage.Def))
            && (role.does == Updates) == Among(ops, k, RegOp(r, Usage.UseDef))
            && (role.does == Exchanges ==> role.killed)
    decreases k
  {
    if k > 0 {
      RoleTellsOps(ops, r, k - 1);
      AmongNext(ops, k);
    }
  }

  lemma AmongNext(ops: seq<RegOp>, k: nat)
    requires 0 < k <= |ops|
    ensures forall op :: Among(ops, k, op) <==> Among(ops, k - 1, op) || ops[k - 1] == op
  {
  }

  lemma RoleTells(instr: Instr, r: Reg)
    requires HasRole(instr, r)
    ensures var role := RoleOf(instr, r);
            && role.killed == Has(instr, r, Usage.Kill) && role.Reading() == ReadsReg(instr, r)
            && role.Defining() == Has(instr, r, Usage.Def) && role.Writing() == WritesReg(instr, r)
            && role.Resetting() == ResetsReg(instr, r)
            && (role.does == Exchanges ==> role.killed && Has(instr, r, Usage.Use))
  {
    RoleTellsOps(instr.regs, r, |instr.regs|);
    assert forall op :: Among(instr.regs, |instr.regs|, op) <==> op in instr.regs;
  }

  lemma {:induction false} LiveAgrees(instrs: seq<Instr>, r: Reg, out: bool, i: nat)
    requires i <= |instrs| && AllHaveRoles(instrs, r)
    ensures R.Live(RolesOf(instrs, r), out, i) == LiveBefore(instrs, r, out, i)
    decreases |instrs| - i
  {
    if i < |instrs| {
      LiveAgrees(instrs, r, out, i + 1);
      RoleTells(instrs[i], r);
    }
  }

  // ---- The scan, seen from one point ----

  ghost function ViewOf(s: RegScan, b: nat, w: nat): View {
    if s.ranges == [] then View(s.live, false, 0, -1)
    else
      var n := |s.ranges| - 1;
      View(s.live, CoveredBy(if s.live then s.ranges[..n] else s.ranges, b, w), s.ranges[n].start.Value(), s.ranges[n].end.Value())
  }

  function StepOp(s: View, w: nat, i: nat, u: Usage): View {
    match u
    case Kill => R.Kill(s, w)
    case Use => R.Use(s, i)
    case UseDef => R.UseDef(s, i)
    case Def => R.Def(s, w, i)
  }

  lemma ViewOfPush(s: RegScan, b: nat, w: nat, x: LiveRange)
    requires !s.live && x.block == b
    ensures ViewOf(RegScan(s.ranges + [x], true), b, w) == View(true, ViewOf(s, b, w).hit, x.start.Value(), x.end.Value())
    ensures ViewOf(RegScan(s.ranges + [x], false), b, w) ==
            View(false, ViewOf(s, b, w).hit || x.start.Value() <= w <= x.end.Value(), x.start.Value(), x.end.Value())
  {
    assert (s.ranges + [x])[..|s.ranges|] == s.ranges;
    CoveredByAppend(s.ranges, x, b, w);
  }

  lemma ViewOfClose(ranges: seq<LiveRange>, b: nat, w: nat, p: Point)
    requires ranges != [] && ranges[|ranges| - 1].block == b
    ensures var s, t := ViewOf(RegScan(ranges, true), b, w), ViewOf(RegScan(SetLastStart(ranges, p), false), b, w);
            t == View(false, s.hit || p.Value() <= w <= s.hi, p.Value(), s.hi)
  {
    var n := |ranges| - 1;
    assert SetLastStart(ranges, p) == ranges[..n] + [ranges[n].(start := p)];
    CoveredByAppend(ranges[..n], ranges[n].(start := p), b, w);
  }

  lemma ViewOfStep(s: RegScan, b: nat, w: nat, i: nat, u: Usage)
    requires RangesLieIn(s.ranges, b) && (s.live ==> s.ranges != [])
    ensures ViewOf(ScanOp(s, b, i, u), b, w) == StepOp(ViewOf(s, b, w), w, i, u)
    ensures ScanOp(s, b, i, u).live ==> ScanOp(s, b, i, u).ranges != []
  {
    if s.live {
      ViewOfLiveStep(s, b, w, i, u);
    } else {
      ViewOfDeadStep(s, b, w, i, u);
    }
  }

  lemma ViewOfLiveStep(s: RegScan, b: nat, w: nat, i: nat, u: Usage)
    requires RangesLieIn(s.ranges, b) && s.live && s.ranges != []
    ensures ViewOf(ScanOp(s, b, i, u), b, w) == StepOp(ViewOf(s, b, w), w, i, u)
  {
    ViewOfClose(s.ranges, b, w, Point(i, 1));
    ViewOfClose(s.ranges, b, w, s.ranges[|s.ranges| - 1].start);
    SetLastStartSame(s.ranges);
  }

  lemma ViewOfDeadStep(s: RegScan, b: nat, w: nat, i: nat, u: Usage)
    requires RangesLieIn(s.ranges, b) && !s.live
    ensures ViewOf(ScanOp(s, b, i, u), b, w) == StepOp(ViewOf(s, b, w), w, i, u)
  {
    match u
    case Use => ViewOfPush(s, b, w, LiveRange(b, Point(i, 0), Point(i, 0)));
    case UseDef => ViewOfPush(s, b, w, LiveRange(b, Point(i, 0), Point(i, 1)));
    case Def => ViewOfPush(s, b, w, LiveRange(b, Point(i, 1), Point(i, 1)));
    case Kill =>
  }

  /** An operand list does to the view what its role does. */
  lemma {:induction false} ViewOfOps(s: RegScan, b: nat, w: nat, i: nat, ops: seq<RegOp>, r: Reg, k: nat)
    requires k <= |ops| && RoleOfOps(ops, r, k).Some?
    requires RangesLieIn(s.ranges, b) && (s.live ==> s.ranges != [])
    ensures ViewOf(ScanOps(s, b, i, ops, r, k), b, w) == Step(ViewOf(s, b, w), w, i, RoleOfOps(ops, r, k).value)
    ensures ScanOps(s, b, i, ops, r, k).live ==> ScanOps(s, b, i, ops, r, k).ranges != []
    decreases k
  {
    if k > 0 {
      ViewOfOps(s, b, w, i, ops, r, k - 1);
      ScanOpsStayInBlock(s, b, i, ops, r, k - 1);
      if ops[k - 1].reg == r {
        ViewOfStep(ScanOps(s, b, i, ops, r, k - 1), b, w, i, ops[k - 1].usage);
        StepNext(ViewOf(s, b, w), w, i, RoleOfOps(ops, r, k - 1).value, ops[k - 1].usage);
      }
    }
  }

  lemma StepNext(s: View, w: nat, i: nat, role: Role, u: Usage)
    requires NextRole(role, u).Some?
    ensures Step(s, w, i, NextRole(role, u).value) == StepOp(Step(s, w, i, role), w, i, u)
  {
  }

  lemma {:induction false} ViewOfScan(b: nat, instrs: seq<Instr>, r: Reg, out: bool, w: nat, i: nat)
    requires i <= |instrs| && |instrs| > 0 && AllHaveRoles(instrs, r)
    ensures ViewOf(ScanInstrs(b, instrs, r, out, i), b, w) == Scan(RolesOf(instrs, r), out, w, i)
    ensures ScanInstrs(b, instrs, r, out, i).live ==> ScanInstrs(b, instrs, r, out, i).ranges != []
    decreases |instrs| - i
  {
    if i < |instrs| {
      ViewOfScan(b, instrs, r, out, w, i + 1);
      ScanStaysInBlock(b, instrs, r, out, i + 1);
      ViewOfOps(ScanInstrs(b, instrs, r, out, i + 1), b, w, i, instrs[i].regs, r, |instrs[i].regs|);
    }
  }

  lemma ViewOfFinish(s: RegScan, in_: bool, b: nat, w: nat)
    requires RangesLieIn(s.ranges, b) && (s.live ==> s.ranges != [])
    ensures CoveredBy(FinishRanges(s, in_), b, w) == Finish(ViewOf(s, b, w), in_, w)
  {
    if s.ranges != [] {
      var n := |s.ranges| - 1;
      assert s.ranges == s.ranges[..n] + [s.ranges[n]];
      CoveredByAppend(s.ranges[..n], s.ranges[n], b, w);
      if in_ {
        var x := s.ranges[n].(start := Point(0, 0));
        assert SetLastStart(s.ranges, Point(0, 0)) == s.ranges[..n] + [x];
        CoveredByAppend(s.ranges[..n], x, b, w);
      }
    }
  }

  /** The ranges of a block cover the points that the scan over roles covers. */
  lemma CoveredAgrees(b: nat, instrs: seq<Instr>, r: Reg, in_: bool, out: bool, w: nat)
    requires |instrs| > 0 && AllHaveRoles(instrs, r)
    ensures CoveredBy(BlockRanges(b, instrs, r, in_, out), b, w) == Covered(RolesOf(instrs, r), in_, out, w)
  {
    ViewOfScan(b, instrs, r, out, w, 0);
    ScanStaysInBlock(b, instrs, r, out, 0);
    ViewOfFinish(ScanInstrs(b, instrs, r, out, 0), in_, b, w);
  }

  // ---- Whole functions ----

  ghost predicate RolesIn(f: Func, b: nat, p: PhysicalReg)
    requires b < |f.blocks|
  {
    AllHaveRoles(f.blocks[b].instrs, Physical(p))
  }

  /** Instructions list physical registers in the order of `RoleOfOps`. */
  ghost predicate RolesThroughout(f: Func) {
    forall b, p {:trigger RolesIn(f, b, p)} :: 0 <= b < |f.blocks| && Reachable(f, b) ==> RolesIn(f, b, p)
  }

  ghost predicate ProtectedIn(f: Func, b: nat, p: PhysicalReg)
    requires b < |f.blocks| && RolesIn(f, b, p)
  {
    Protected(RolesOf(f.blocks[b].instrs, Physical(p)), Physical(p) in LiveIns(f, b), Physical(p) in LiveOuts(f, b))
  }

  ghost predicate AllProtected(f: Func)
    requires RolesThroughout(f)
  {
    forall b, p {:trigger RolesIn(f, b, p)} ::
      0 <= b < |f.blocks| && Reachable(f, b) && RolesIn(f, b, p) && f.blocks[b].instrs != [] ==> ProtectedIn(f, b, p)
  }

  /** An exchange reads its register before it defines it. */
  lemma {:induction false} ReadBeforeDefined(ops: seq<RegOp>, r: Reg, k: nat) returns (j: nat)
    requires k <= |ops| && RoleOfOps(ops, r, k).Some?
    requires var does := RoleOfOps(ops, r, k).value.does; does == Exchanges || (does == Reads && Among(ops, k, RegOp(r, Usage.Use)))
    ensures j < k && ops[j] == RegOp(r, Usage.Use) && !Among(ops, j, RegOp(r, Usage.Def))
    decreases k
  {
    RoleTellsOps(ops, r, k - 1);
    if RoleOfOps(ops, r, k - 1).value.does == Nothing {
      j := k - 1;
    } else {
      j := ReadBeforeDefined(ops, r, k - 1);
    }
  }

  /** A value that an exchange reads comes into the block, or the block defines it before. */
  lemma ExchangedIsKnown(f: Func, b: nat, r: Reg, i: nat)
    requires b < |f.blocks| && Reachable(f, b) && AllHaveRoles(f.blocks[b].instrs, r) && i < |f.blocks[b].instrs|
    requires RoleOf(f.blocks[b].instrs[i], r).does == Exchanges && r !in LiveIns(f, b)
    ensures DefinedBefore(RolesOf(f.blocks[b].instrs, r), i)
  {
    var block := f.blocks[b];
    LiveInsEquationAt(f, b, r);
    ExposedUseIsBlockUse(block, r);
    var j := ReadBeforeDefined(block.instrs[i].regs, r, |block.instrs[i].regs|);
    assert !ExposedUseAt(block, r, i, j);
    var k: nat, l: nat :| Before(k, l, i, j) && IsOp(block, r, Usage.Def, k, l);
    RoleTells(block.instrs[k], r);
    assert RolesOf(block.instrs, r)[k].Defining();
  }

  /** Block liveness, which knows nothing of KILL, provides what the result about one block needs. */
  lemma BlockLivenessIsSetting(f: Func, b: nat, r: Reg)
    requires b < |f.blocks| && Reachable(f, b) && AllHaveRoles(f.blocks[b].instrs, r)
    ensures Setting(RolesOf(f.blocks[b].instrs, r), r in LiveIns(f, b), r in LiveOuts(f, b))
  {
    var block := f.blocks[b];
    var roles := RolesOf(block.instrs, r);
    LiveInsEquationAt(f, b, r);
    NotDefinedMeansNoDef(block, r);
    forall i | 0 <= i < |roles|
      ensures roles[i].Defining() == Has(block.instrs[i], r, Usage.Def)
      ensures roles[i].does == Exchanges ==> roles[i].killed && (r !in LiveIns(f, b) ==> DefinedBefore(roles, i))
    {
      RoleTells(block.instrs[i], r);
      if roles[i].does == Exchanges && r !in LiveIns(f, b) { ExchangedIsKnown(f, b, r, i); }
    }
    if r in LiveOuts(f, b) && r !in LiveIns(f, b) {
      var d :| 0 <= d < |block.instrs| && Has(block.instrs[d], r, Usage.Def);
      assert roles[d].Defining();
    }
  }

  lemma HoldingAgrees(f: Func, b: nat, i: nat, r: Reg)
    requires b < |f.blocks| && AllHaveRoles(f.blocks[b].instrs, r) && i <= |f.blocks[b].instrs|
    ensures Tracked(f, b, i, r) == Holding(RolesOf(f.blocks[b].instrs, r), r in LiveIns(f, b), r in LiveOuts(f, b), i)
  {
    var instrs := f.blocks[b].instrs;
    LiveAgrees(instrs, r, r in LiveOuts(f, b), i);
    forall k | 0 <= k < i
      ensures RolesOf(instrs, r)[k].Resetting() == ResetsReg(instrs[k], r)
    {
      RoleTells(instrs[k], r);
    }
  }

  lemma PhysicalCoveredAgrees(f: Func, b: nat, i: nat, p: PhysicalReg)
    requires b < |f.blocks| && RolesIn(f, b, p) && i < |f.blocks[b].instrs|
    ensures PhysicalCovered(f, b, i, p) ==
            PointsCovered(RolesOf(f.blocks[b].instrs, Physical(p)), Physical(p) in LiveIns(f, b), Physical(p) in LiveOuts(f, b), i)
  {
    var instrs, r := f.blocks[b].instrs, Physical(p);
    HoldingAgrees(f, b, i, r);
    HoldingAgrees(f, b, i + 1, r);
    RoleTells(instrs[i], r);
    CoveredByItsBlock(f, r, b, 2 * i);
    CoveredByItsBlock(f, r, b, 2 * i + 1);
    CoveredAgrees(b, instrs, r, r in LiveIns(f, b), r in LiveOuts(f, b), 2 * i);
    CoveredAgrees(b, instrs, r, r in LiveIns(f, b), r in LiveOuts(f, b), 2 * i + 1);
  }

  /** One register in one block. */
  lemma PhysicalCoveredIff(f: Func, b: nat, p: PhysicalReg)
    requires b < |f.blocks| && Reachable(f, b) && RolesIn(f, b, p) && f.blocks[b].instrs != []
    ensures (forall i: nat | i < |f.blocks[b].instrs| :: PhysicalCovered(f, b, i, p)) <==> ProtectedIn(f, b, p)
  {
    var roles, in_, out := RolesOf(f.blocks[b].instrs, Physical(p)), Physical(p) in LiveIns(f, b), Physical(p) in LiveOuts(f, b);
    BlockLivenessIsSetting(f, b, Physical(p));
    if ProtectedIn(f, b, p) {
      forall i: nat | i < |f.blocks[b].instrs|
        ensures PhysicalCovered(f, b, i, p)
      {
        ProtectedIsCovered(roles, in_, out, i);
        PhysicalCoveredAgrees(f, b, i, p);
      }
    } else {
      var i := UnprotectedIsMissed(roles, in_, out);
      PhysicalCoveredAgrees(f, b, i, p);
      assert !PhysicalCovered(f, b, i, p);
    }
  }

  /** Exactly when physical registers are covered: what register allocation needs, in terms the caller can check. */
  lemma PhysicalsCoveredIff(f: Func)
    requires RolesThroughout(f)
    ensures PhysicalsCovered(f) <==> AllProtected(f)
  {
    forall b, p | 0 <= b < |f.blocks| && Reachable(f, b) && f.blocks[b].instrs != []
      ensures RolesIn(f, b, p)
      ensures (forall i: nat | i < |f.blocks[b].instrs| :: PhysicalCovered(f, b, i, p)) <==> ProtectedIn(f, b, p)
    {
      assert RolesIn(f, b, p);
      PhysicalCoveredIff(f, b, p);
    }
    if AllProtected(f) {
      forall b, i, p | 0 <= b < |f.blocks| && Reachable(f, b) && 0 <= i < |f.blocks[b].instrs|
        ensures PhysicalCovered(f, b, i, p)
      {
        assert RolesIn(f, b, p);
        assert ProtectedIn(f, b, p);
      }
    }
  }
}
