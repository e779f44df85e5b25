/** The data the register allocator works on (src/banjo/codegen/reg_alloc_func.hpp, src/banjo/mcode/register.hpp). */
module RegAllocFunc {

  type VirtualReg = nat
  type PhysicalReg = nat
  type RegClass = nat
  type StackSlotID = nat

  datatype Reg = Virtual(v: VirtualReg) | Physical(p: PhysicalReg)

  datatype Usage = Def | Use | UseDef | Kill

  datatype RegOp = RegOp(reg: Reg, usage: Usage)

  /** An instruction as the target analyzer presents it: an identity and its register operands in order. */
  datatype Instr = Instr(id: nat, regs: seq<RegOp>)

  datatype Block = Block(instrs: seq<Instr>, succs: seq<nat>)

  datatype Func = Func(blocks: seq<Block>)

  datatype Option<+T> = None | Some(value: T)

  /** A half-instruction: stage 0 is where operands are read, stage 1 is where results are written. */
  datatype Point = Point(instr: nat, stage: nat) {
    function Value(): nat { 2 * instr + stage }
  }

  datatype LiveRange = LiveRange(block: nat, start: Point, end: Point) {

    predicate Intersects(other: LiveRange) {
      block == other.block && start.Value() <= other.end.Value() && other.start.Value() <= end.Value()
    }

    predicate Contains(other: LiveRange) {
      block == other.block && start.Value() <= other.start.Value() && end.Value() >= other.end.Value()
    }

    /** The point with value `w` of block `b` lies in this range. */
    predicate Covers(b: nat, w: nat) {
      block == b && start.Value() <= w <= end.Value()
    }

    predicate WellFormed() {
      start.stage <= 1 && end.stage <= 1 && start.Value() <= end.Value()
    }

    /** The instructions a range touches. */
    predicate Spans(b: nat, i: nat) {
      block == b && start.instr <= i <= end.instr
    }
  }

  datatype ReservedSegment = ReservedSegment(reg: PhysicalReg, range: LiveRange)

  datatype Segment = Segment(reg: VirtualReg, range: LiveRange)

  datatype Bundle = Bundle(
    segments: seq<Segment>,
    regClass: RegClass,
    evictable: bool := true,
    srcStackSlot: Option<StackSlotID> := None,
    dstStackSlot: Option<StackSlotID> := None,
    deleted: bool := false)

  datatype Alloc = Alloc(physicalReg: PhysicalReg, bundle: Bundle)

  datatype KillPoint = KillPoint(reg: PhysicalReg, block: nat, instr: nat)

  /** `Intersects` decides whether two ranges share a point. */
  lemma IntersectsMeansSharedPoint(a: LiveRange, b: LiveRange)
    requires a.WellFormed() && b.WellFormed()
    ensures a.Intersects(b) <==> exists w :: a.Covers(a.block, w) && b.Covers(a.block, w)
  {
    if a.Intersects(b) {
      var w := if a.start.Value() <= b.start.Value() then b.start.Value() else a.start.Value();
      assert a.Covers(a.block, w) && b.Covers(a.block, w);
    }
  }

  /** `Contains` decides whether every point of one range is a point of the other. */
  lemma ContainsMeansEveryPoint(a: LiveRange, b: LiveRange)
    requires a.WellFormed() && b.WellFormed()
    ensures a.Contains(b) <==> forall w :: b.Covers(b.block, w) ==> a.Covers(b.block, w)
  {
    assert b.Covers(b.block, b.start.Value()) && b.Covers(b.block, b.end.Value());
  }

  /** What an instruction does with a register. */
  predicate Has(instr: Instr, r: Reg, u: Usage) {
    RegOp(r, u) in instr.regs
  }

  predicate ReadsReg(instr: Instr, r: Reg) {
    Has(instr, r, Use) || Has(instr, r, UseDef)
  }

  predicate WritesReg(instr: Instr, r: Reg) {
    Has(instr, r, Def) || Has(instr, r, UseDef)
  }

  /** The register's old value does not survive the instruction and is not read by it through USE_DEF. */
  predicate ResetsReg(instr: Instr, r: Reg) {
    Has(instr, r, Def) || Has(instr, r, Kill)
  }

  predicate KillsPhysicalOnly(instr: Instr) {
    forall op | op in instr.regs :: op.usage == Kill ==> op.reg.Physical?
  }

  ghost predicate ValidFunc(f: Func) {
    && |f.blocks| > 0
    && (forall b, k :: 0 <= b < |f.blocks| && 0 <= k < |f.blocks[b].succs| ==> f.blocks[b].succs[k] < |f.blocks|)
    && (forall b, i | 0 <= b < |f.blocks| && 0 <= i < |f.blocks[b].instrs| :: KillsPhysicalOnly(f.blocks[b].instrs[i]))
  }

  /** All registers an instruction sequence mentions. */
  function InstrsRegs(instrs: seq<Instr>): set<Reg> {
    set i, j | 0 <= i < |instrs| && 0 <= j < |instrs[i].regs| :: instrs[i].regs[j].reg
  }

  function AllRegs(f: Func): set<Reg> {
    set b, r | 0 <= b < |f.blocks| && r in InstrsRegs(f.blocks[b].instrs) :: r
  }
}
