/**
  The operand lists that analyzers hand to the allocator, for an instruction that names one register several times: the
  merging of src/banjo/target/aarch64/aarch64_reg_analyzer.cpp, and what goes wrong in src/banjo/target/x86_64/
  x86_64_reg_analyzer.cpp, which does not merge.
 */
module OperandLists {
  import opened Graph
  import opened RegAllocFunc
  import opened LivenessSpec
  import opened LiveRanges
  import opened FuncRanges
  import opened Spills

  /** The role of `r` among operands that are plain uses and definitions. */
  predicate Given(given: seq<RegOp>, r: Reg, u: Usage) {
    RegOp(r, u) in given
  }

  ghost predicate SingleOps(ops: seq<RegOp>) {
    forall j, k :: 0 <= j < k < |ops| ==> ops[j].reg != ops[k].reg
  }

  /** Each register is listed once, for all that was given for it. */
  ghost predicate Merged(ops: seq<RegOp>, given: seq<RegOp>) {
    && SingleOps(ops)
    && forall r, u :: RegOp(r, u) in ops <==> u == MergedUsage(given, r) && (Given(given, r, Use) || Given(given, r, Def))
  }

  function MergedUsage(given: seq<RegOp>, r: Reg): Usage {
    if Given(given, r, Use) && Given(given, r, Def) then UseDef else if Given(given, r, Use) then Use else Def
  }

  class OperandList {
    var ops: seq<RegOp>
    ghost var given: seq<RegOp>

    constructor ()
      ensures ops == [] && given == [] && Merged(ops, given)
    {
      ops, given := [], [];
    }

    method InsertReg(reg: Reg, usage: Usage)
      requires Merged(ops, given) && usage in {Use, Def}
      modifies this
      ensures given == old(given) + [RegOp(reg, usage)] && Merged(ops, given)
    {
      ghost var was := given;
      given := given + [RegOp(reg, usage)];
      GivenGrows(was, reg, usage);
      var k := 0;
      while k < |ops|
        invariant 0 <= k <= |ops| && ops == old(ops)
        invariant forall j :: 0 <= j < k ==> ops[j].reg != reg
      {
        if ops[k].reg == reg {
          assert ops[k] in ops;
          if ops[k].usage != usage {
            ops := ops[k := RegOp(reg, UseDef)];
          }
          MergedAt(old(ops), ops, was, reg, usage, k);
          return;
        }
        k := k + 1;
      }
      ops := ops + [RegOp(reg, usage)];
      Appended(old(ops), was, reg, usage);
    }
  }

  lemma GivenGrows(given: seq<RegOp>, reg: Reg, usage: Usage)
    ensures forall r, u :: Given(given + [RegOp(reg, usage)], r, u) <==> Given(given, r, u) || (r == reg && u == usage)
  {
  }

  lemma MergedAt(ops: seq<RegOp>, ops': seq<RegOp>, given: seq<RegOp>, reg: Reg, usage: Usage, k: nat)
    requires Merged(ops, given) && usage in {Use, Def} && k < |ops| && ops[k].reg == reg
    requires ops' == if ops[k].usage == usage then ops else ops[k := RegOp(reg, UseDef)]
    ensures Merged(ops', given + [RegOp(reg, usage)])
  {
    var given' := given + [RegOp(reg, usage)];
    GivenGrows(given, reg, usage);
    assert RegOp(reg, ops[k].usage) in ops;
    forall r, u
      ensures RegOp(r, u) in ops' <==> u == MergedUsage(given', r) && (Given(given', r, Use) || Given(given', r, Def))
    {
      if r == reg {
        assert RegOp(r, u) in ops' <==> u == ops'[k].usage;
      } else {
        assert RegOp(r, u) in ops' <==> RegOp(r, u) in ops;
      }
    }
  }

  lemma Appended(ops: seq<RegOp>, given: seq<RegOp>, reg: Reg, usage: Usage)
    requires Merged(ops, given) && usage in {Use, Def} && forall j :: 0 <= j < |ops| ==> ops[j].reg != reg
    ensures Merged(ops + [RegOp(reg, usage)], given + [RegOp(reg, usage)])
  {
    GivenGrows(given, reg, usage);
    assert RegOp(reg, MergedUsage(given, reg)) !in ops;
  }

  /** Merged lists read and write what was given, and are in the form that live ranges and spilling ask for. */
  lemma MergedIsWellFormed(instr: Instr, given: seq<RegOp>)
    requires Merged(instr.regs, given)
    ensures forall r :: PlainFor(instr, r) && (ReadsReg(instr, r) <==> Given(given, r, Use)) && (WritesReg(instr, r) <==> Given(given, r, Def))
    ensures forall v :: WrittenOnce(instr, v)
    ensures KillsPhysicalOnly(instr)
  {
    forall r
      ensures PlainFor(instr, r) && (ReadsReg(instr, r) <==> Given(given, r, Use)) && (WritesReg(instr, r) <==> Given(given, r, Def))
    {
      assert Has(instr, r, MergedUsage(given, r)) <==> Given(given, r, Use) || Given(given, r, Def);
    }
  }

  // ---- A list that is not merged ----

  /** `v` is defined, `w` is defined and read, and the next block overwrites `v` with what it loads from the address in `v`. */
  function Reload(v: VirtualReg, w: VirtualReg, load: seq<RegOp>): Func {
    Func([Block([Instr(0, [RegOp(Virtual(v), Def)]), Instr(1, [RegOp(Virtual(w), Def)]), Instr(2, [RegOp(Virtual(w), Use)])], [1]),
          Block([Instr(3, load), Instr(4, [RegOp(Virtual(v), Use)])], [])])
  }

  lemma FirstBlockRanges(instrs: seq<Instr>, v: VirtualReg, w: VirtualReg, r: Reg, out: bool)
    requires v != w && instrs == Reload(v, w, []).blocks[0].instrs && (r == Virtual(w) ==> !out)
    ensures r == Virtual(v) ==> BlockRanges(0, instrs, r, false, out) == [LiveRange(0, Point(0, 1), if out then Point(2, 1) else Point(0, 1))]
    ensures r == Virtual(w) ==> BlockRanges(0, instrs, r, false, out) == [LiveRange(0, Point(1, 1), Point(2, 0))]
  {
    var start := ScanStart(0, instrs, out);
    assert ScanInstrs(0, instrs, r, out, 3) == start;
    var read := RegScan([LiveRange(0, Point(2, 0), Point(2, 0))], true);
    assert ScanOps(start, 0, 2, instrs[2].regs, r, 1) == if r == Virtual(w) then read else start;
    var third := ScanInstrs(0, instrs, r, out, 2);
    assert third == if r == Virtual(w) then read else start;
    assert ScanOps(third, 0, 1, instrs[1].regs, r, 1) ==
           if r == Virtual(w) then RegScan([LiveRange(0, Point(1, 1), Point(2, 0))], false) else third;
    var second := ScanInstrs(0, instrs, r, out, 1);
    assert ScanOps(second, 0, 0, instrs[0].regs, r, 1) == if r == Virtual(v) then ScanOp(second, 0, 0, Def) else second;
  }

  /** What is live out of the first block is what the second one reads before it defines it. */
  lemma LiveOutOfFirst(v: VirtualReg, w: VirtualReg, load: seq<RegOp>, r: Reg)
    ensures var f := Reload(v, w, load); r in LiveOuts(f, 0) <==> ExposedUse(f.blocks[1], r)
  {
    var f := Reload(v, w, load);
    ExposedUseIsBlockUse(f.blocks[1], r);
    PathLiveUnfold(f, 1, r);
    assert LiveAfterBlock(f, 0, r) <==> PathLive(f, f.blocks[0].succs[0], r);
    if PathLive(f, 1, r) { PathLiveIsKnownReg(f, 1, r); }
    assert IsPathFromTo(FlowEdges(f), [0], 0, 0);
    assert Reachable(f, 0);
  }

  lemma NotLiveIntoFirst(v: VirtualReg, w: VirtualReg, load: seq<RegOp>, r: Reg)
    requires r in {Virtual(v), Virtual(w)}
    ensures r !in LiveIns(Reload(v, w, load), 0)
  {
    var f := Reload(v, w, load);
    var block := f.blocks[0];
    assert IsOp(block, Virtual(v), Def, 0, 0) && IsOp(block, Virtual(w), Def, 1, 0);
    assert block.instrs[0].regs[0] == RegOp(Virtual(v), Def) && block.instrs[1].regs[0] == RegOp(Virtual(w), Def);
    ExposedUseIsBlockUse(block, r);
    PathLiveUnfold(f, 0, r);
  }

  /** Where one instruction both reads and writes a register first, the order of its operands decides if the value is kept. */
  lemma KeptIffUseIsFirst(block: Block, r: Reg, i: nat, j: nat)
    requires IsOp(block, r, Use, i, j) || IsOp(block, r, Def, i, j)
    requires forall u, k: nat, l: nat | Before(k, l, i, j) :: !IsOp(block, r, u, k, l)
    ensures ExposedUse(block, r) <==> IsOp(block, r, Use, i, j)
  {
    if IsOp(block, r, Use, i, j) {
      assert ExposedUseAt(block, r, i, j);
    }
  }

  /** Without merging, the definition that is listed first hides the use, and nothing keeps `v` for the load. */
  lemma ReloadIsNotKept(v: VirtualReg, w: VirtualReg, p: nat)
    requires v != w
    ensures var f := Reload(v, w, [RegOp(Virtual(v), Def), RegOp(Virtual(v), Use)]);
            && (CoveredBy(RangesOf(f, Virtual(v)), 0, p) <==> p == 1)
            && (CoveredBy(RangesOf(f, Virtual(w)), 0, p) <==> p == 3 || p == 4)
  {
    var load := [RegOp(Virtual(v), Def), RegOp(Virtual(v), Use)];
    var f := Reload(v, w, load);
    assert IsOp(f.blocks[1], Virtual(v), Def, 0, 0);
    FirstBlockCovers(v, w, load, p);
  }

  /** Merged into one operand, it is kept. */
  lemma MergedReloadIsKept(v: VirtualReg, w: VirtualReg, p: nat)
    requires v != w
    ensures var f := Reload(v, w, [RegOp(Virtual(v), UseDef)]); CoveredBy(RangesOf(f, Virtual(v)), 0, p) <==> 1 <= p <= 5
  {
    var load := [RegOp(Virtual(v), UseDef)];
    var f := Reload(v, w, load);
    assert ExposedUseAt(f.blocks[1], Virtual(v), 1, 0);
    FirstBlockCovers(v, w, load, p);
  }

  lemma FirstBlockCovers(v: VirtualReg, w: VirtualReg, load: seq<RegOp>, p: nat)
    requires v != w && RegOp(Virtual(w), Use) !in load
    ensures var f := Reload(v, w, load);
            && (CoveredBy(RangesOf(f, Virtual(v)), 0, p) <==> 1 <= p <= if ExposedUse(f.blocks[1], Virtual(v)) then 5 else 1)
            && (CoveredBy(RangesOf(f, Virtual(w)), 0, p) <==> p == 3 || p == 4)
  {
    var f := Reload(v, w, load);
    forall r | r in {Virtual(v), Virtual(w)}
      ensures r !in LiveIns(f, 0) && (r in LiveOuts(f, 0) <==> ExposedUse(f.blocks[1], r))
    {
      LiveOutOfFirst(v, w, load, r);
      NotLiveIntoFirst(v, w, load, r);
    }
    assert !ExposedUse(f.blocks[1], Virtual(w));
    FirstBlockRanges(f.blocks[0].instrs, v, w, Virtual(v), Virtual(v) in LiveOuts(f, 0));
    FirstBlockRanges(f.blocks[0].instrs, v, w, Virtual(w), false);
    CoveredByItsBlock(f, Virtual(v), 0, p);
    CoveredByItsBlock(f, Virtual(w), 0, p);
    OneRangeCovers(RangesInBlock(f, 0, Virtual(v)), p);
    OneRangeCovers(RangesInBlock(f, 0, Virtual(w)), p);
  }

  lemma OneRangeCovers(ranges: seq<LiveRange>, p: nat)
    requires |ranges| == 1
    ensures CoveredBy(ranges, 0, p) <==> ranges[0].Covers(0, p)
  {
  }
}
