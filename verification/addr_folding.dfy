/** Folding chains of pointer arithmetic into addressing modes (src/banjo/codegen/ssa_lowerer.cpp, collect_addr). */
module AddrFolding {
  import opened RegAllocFunc

  type VReg = nat

  type TypeId = nat

  /** What a register, an immediate or a global symbol stands for. */
  datatype Operand = Register(r: VReg) | Immediate(value: int) | Symbol(name: nat)

  /** Pointer arithmetic, and anything else. */
  datatype Operation =
    | OffsetPtr(base: Operand, offset: Operand, elementType: TypeId)
    | MemberPtr(structure: TypeId, owner: Operand, member: nat)
    | Other(id: nat)

  datatype Instr = Instr(dest: Option<VReg>, op: Operation)

  datatype RegOffset = RegOffset(reg: VReg, scale: nat)

  datatype AddrComponents = AddrComponents(base: Operand, constOffset: int, regOffset: Option<RegOffset>)

  /** The target: data layout, and whether its addresses may have a register offset. */
  datatype Target = Target(sizeOf: TypeId -> nat, memberOffset: (TypeId, nat) -> nat, isWasm: bool)

  // ---- What a block computes ----

  type Regs = map<VReg, int>

  datatype World = World(symbols: nat -> int, other: (nat, Regs) -> int)

  function Get(regs: Regs, r: VReg): int {
    if r in regs then regs[r] else 0
  }

  function ValueOf(w: World, regs: Regs, operand: Operand): int {
    match operand
    case Register(r) => Get(regs, r)
    case Immediate(value) => value
    case Symbol(name) => w.symbols(name)
  }

  function Compute(t: Target, w: World, op: Operation, regs: Regs): int {
    match op
    case OffsetPtr(base, offset, elementType) => ValueOf(w, regs, base) + ValueOf(w, regs, offset) * t.sizeOf(elementType)
    case MemberPtr(structure, owner, member) => ValueOf(w, regs, owner) + t.memberOffset(structure, member)
    case Other(id) => w.other(id, regs)
  }

  /** The registers before instruction `n`. */
  function Before(t: Target, w: World, block: seq<Instr>, start: Regs, n: nat): Regs
    requires n <= |block|
  {
    if n == 0 then start
    else
      var regs := Before(t, w, block, start, n - 1);
      var instr := block[n - 1];
      if instr.dest.Some? then regs[instr.dest.value := Compute(t, w, instr.op, regs)] else regs
  }

  /** The address that the components stand for. */
  function AddressOf(w: World, regs: Regs, c: AddrComponents): int {
    ValueOf(w, regs, c.base) + c.constOffset + if c.regOffset.Some? then Get(regs, c.regOffset.value.reg) * c.regOffset.value.scale else 0
  }

  // ---- Blocks in SSA form ----

  predicate Names(op: Operation, r: VReg) {
    match op
    case OffsetPtr(base, offset, _) => base == Register(r) || offset == Register(r)
    case MemberPtr(_, owner, _) => owner == Register(r)
    case Other(_) => false
  }

  predicate Defines(block: seq<Instr>, i: nat, r: VReg) {
    i < |block| && block[i].dest == Some(r)
  }

  /** Registers are defined once, and before pointer arithmetic names them. */
  ghost predicate InSsaForm(block: seq<Instr>) {
    && (forall i: nat, j: nat, r {:trigger Defines(block, i, r), Defines(block, j, r)} :: Defines(block, i, r) && Defines(block, j, r) ==> i == j)
    && forall i: nat, j: nat, r {:trigger Defines(block, i, r), Names(block[j].op, r)} ::
         Defines(block, i, r) && j < |block| && Names(block[j].op, r) ==> i < j
  }

  /** `operand` may be used by instruction `n`. */
  ghost predicate UsableAt(block: seq<Instr>, operand: Operand, n: nat) {
    operand.Register? ==> forall i: nat :: Defines(block, i, operand.r) ==> i < n
  }

  /** A register keeps its value where the block does not define it. */
  lemma {:induction false} Keeps(t: Target, w: World, block: seq<Instr>, start: Regs, r: VReg, m: nat, n: nat)
    requires m <= n <= |block| && forall i: nat | m <= i < n :: !Defines(block, i, r)
    ensures Get(Before(t, w, block, start, n), r) == Get(Before(t, w, block, start, m), r)
    decreases n
  {
    if m < n {
      assert !Defines(block, n - 1, r);
      Keeps(t, w, block, start, r, m, n - 1);
    }
  }

  /** An operand that instruction `m` may use has the same value later in the block. */
  lemma OperandKeeps(t: Target, w: World, block: seq<Instr>, start: Regs, operand: Operand, m: nat, n: nat)
    requires m <= n <= |block| && UsableAt(block, operand, m)
    ensures ValueOf(w, Before(t, w, block, start, n), operand) == ValueOf(w, Before(t, w, block, start, m), operand)
  {
    if operand.Register? { Keeps(t, w, block, start, operand.r, m, n); }
  }

  /** At a later instruction, the register that `j` defines holds what `j` computes from the values it still finds. */
  lemma ProducedValue(t: Target, w: World, block: seq<Instr>, start: Regs, j: nat, n: nat)
    requires InSsaForm(block) && j < n <= |block| && block[j].dest.Some?
    ensures Get(Before(t, w, block, start, n), block[j].dest.value) == Compute(t, w, block[j].op, Before(t, w, block, start, j))
  {
    var r := block[j].dest.value;
    assert Defines(block, j, r);
    forall i: nat | j + 1 <= i < n
      ensures !Defines(block, i, r)
    {
    }
    Keeps(t, w, block, start, r, j + 1, n);
  }

  // ---- The loop ----

  /** How far an operation can be folded: into a constant, into the one register offset, or not. */
  predicate Foldable(t: Target, op: Operation, regOffset: Option<RegOffset>) {
    match op
    case OffsetPtr(_, offset, _) => offset.Immediate? || (offset.Register? && !t.isWasm && regOffset.None?)
    case MemberPtr(_, _, _) => true
    case Other(_) => false
  }

  function BaseOf(op: Operation): Operand
    requires !op.Other?
  {
    if op.OffsetPtr? then op.base else op.owner
  }

  /** The components after the producer of the base has been folded in. */
  function Folded(t: Target, op: Operation, c: AddrComponents): AddrComponents
    requires Foldable(t, op, c.regOffset)
  {
    match op
    case OffsetPtr(base, offset, elementType) =>
      if offset.Immediate? then AddrComponents(base, c.constOffset + t.sizeOf(elementType) * offset.value, c.regOffset)
      else AddrComponents(base, c.constOffset, Some(RegOffset(offset.r, t.sizeOf(elementType))))
    case MemberPtr(structure, owner, member) =>
      AddrComponents(owner, c.constOffset + t.memberOffset(structure, member), c.regOffset)
  }

  /** Folding a producer does not change the address, as seen from any instruction after it. */
  lemma FoldKeepsAddress(t: Target, w: World, block: seq<Instr>, start: Regs, c: AddrComponents, j: nat, n: nat)
    requires InSsaForm(block) && j < n <= |block| && c.base.Register? && Defines(block, j, c.base.r)
    requires Foldable(t, block[j].op, c.regOffset)
    ensures AddressOf(w, Before(t, w, block, start, n), Folded(t, block[j].op, c)) == AddressOf(w, Before(t, w, block, start, n), c)
  {
    var op := block[j].op;
    ProducedValue(t, w, block, start, j, n);
    NamedIsUsable(block, j);
    OperandKeeps(t, w, block, start, BaseOf(op), j, n);
    if op.OffsetPtr? {
      OperandKeeps(t, w, block, start, op.offset, j, n);
      assert t.sizeOf(op.elementType) * ValueOf(w, Before(t, w, block, start, j), op.offset)
          == ValueOf(w, Before(t, w, block, start, j), op.offset) * t.sizeOf(op.elementType);
    }
  }

  lemma NamedIsUsable(block: seq<Instr>, j: nat)
    requires InSsaForm(block) && j < |block| && !block[j].op.Other?
    ensures UsableAt(block, BaseOf(block[j].op), j)
    ensures block[j].op.OffsetPtr? ==> UsableAt(block, block[j].op.offset, j)
  {
    var op := block[j].op;
    forall i: nat, r | Defines(block, i, r) && Names(op, r)
      ensures i < j
    {
    }
    if op.OffsetPtr? && op.offset.Register? {
      forall i: nat | Defines(block, i, op.offset.r)
        ensures i < j
      {
        assert Names(op, op.offset.r);
      }
    }
    if BaseOf(op).Register? {
      forall i: nat | Defines(block, i, BaseOf(op).r)
        ensures i < j
      {
        assert Names(op, BaseOf(op).r);
      }
    }
  }

  class SsaLowerer {
    const target: Target
    const block: seq<Instr>

    constructor (target: Target, block: seq<Instr>)
      ensures this.target == target && this.block == block
    {
      this.target, this.block := target, block;
    }

    /** `get_producer`: the last instruction of the block that defines the register. */
    method GetProducer(r: VReg) returns (producer: Option<nat>)
      ensures producer.Some? ==> Defines(block, producer.value, r) && forall i: nat :: Defines(block, i, r) ==> i <= producer.value
      ensures producer.None? ==> forall i: nat :: !Defines(block, i, r)
    {
      var i := |block|;
      while i > 0
        invariant i <= |block| && forall k: nat :: i <= k ==> !Defines(block, k, r)
      {
        i := i - 1;
        if block[i].dest == Some(r) {
          return Some(i);
        }
      }
      return None;
    }

    /**
      Nothing more can be folded into the components: the base is no register, or the block does not compute it by pointer
      arithmetic, or its offset is not a number and there is no room for a register.
     */
    ghost predicate Exhausted(c: AddrComponents) {
      c.base.Register? ==> forall i: nat :: Defines(block, i, c.base.r) ==>
        var op := block[i].op;
        op.Other? || (op.OffsetPtr? && (op.offset.Symbol? || (op.offset.Register? && (target.isWasm || c.regOffset.Some?))))
    }

    /**
      The address operand of instruction `n`, as base, constant offset and scaled register. Whatever the block has
      computed so far, the components stand for the same address, and nothing more can be folded into them.
     */
    method CollectAddr(addr: Operand, n: nat) returns (c: AddrComponents)
      requires InSsaForm(block) && n <= |block| && UsableAt(block, addr, n)
      ensures forall w, start: Regs :: AddressOf(w, Before(target, w, block, start, n), c) == ValueOf(w, Before(target, w, block, start, n), addr)
      ensures Exhausted(c) && UsableAt(block, c.base, n) && (target.isWasm ==> c.regOffset.None?)
    {
      c := AddrComponents(addr, 0, None);
      ghost var limit: nat := n;
      while c.base.Register?
        invariant limit <= n && UsableAt(block, c.base, limit) && (target.isWasm ==> c.regOffset.None?)
        invariant forall w, start: Regs ::
          AddressOf(w, Before(target, w, block, start, n), c) == ValueOf(w, Before(target, w, block, start, n), addr)
        decreases limit, c.base.Register?
      {
        var producer := GetProducer(c.base.r);
        if producer.None? || !Foldable(target, block[producer.value].op, c.regOffset) {
          return;
        }
        var j := producer.value;
        forall w, start: Regs
          ensures AddressOf(w, Before(target, w, block, start, n), Folded(target, block[j].op, c)) == AddressOf(w, Before(target, w, block, start, n), c)
        {
          FoldKeepsAddress(target, w, block, start, c, j, n);
        }
        NamedIsUsable(block, j);
        c := Folded(target, block[j].op, c);
        limit := j;
      }
    }
  }
}
