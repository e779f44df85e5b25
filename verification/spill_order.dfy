/**
  What becomes of a spilled register that one instruction names more than once (src/banjo/codegen/reg_alloc_pass.cpp,
  spill and apply_alloc): the first allocation takes all its operands, but every allocation loads and stores its own
  register. This module says exactly when that is right.
 */
module SpillOrder {
  import opened RegAllocFunc
  import opened Worklist
  import opened Rewrite
  import opened Machine

  /** An allocation born of an operand: the register it got, and the role of the operand. */
  datatype Piece = Piece(reg: PhysicalReg, usage: Usage)

  ghost predicate NoKills(pieces: seq<Piece>) {
    forall k | 0 <= k < |pieces| :: pieces[k].usage != Kill
  }

  /** Where the spilled register is, and its slot. */
  datatype Spot = Spot(b: nat, i: nat, v: VirtualReg, c: RegClass, slot: StackSlotID)

  function AllocOf(t: Spot, piece: Piece): Alloc
    requires piece.usage != Kill
  {
    Alloc(piece.reg, BornBundle(t.b, t.i, t.v, piece.usage, t.c, t.slot))
  }

  /** The allocations, in the order in which they are applied. */
  function AllocsOf(t: Spot, pieces: seq<Piece>): (allocs: seq<Alloc>)
    requires NoKills(pieces)
    ensures |allocs| == |pieces| && forall k | 0 <= k < |pieces| :: allocs[k] == AllocOf(t, pieces[k])
  {
    seq(|pieces|, k requires 0 <= k < |pieces| => AllocOf(t, pieces[k]))
  }

  function RewrittenBy(t: Spot, pieces: seq<Piece>, instr: Instr): RInstr
    requires NoKills(pieces)
  {
    Rewritten(AllocsOf(t, pieces), |pieces|, t.b, t.i, instr)
  }

  // ---- What is right ----

  /** Whatever registers and slots hold, the loads leave the slot's value in `q`. */
  ghost predicate ReadsSlot(x: RInstr, q: PhysicalReg, slot: StackSlotID) {
    forall regs, slots :: ReadsSlotIn(x, q, slot, regs, slots)
  }

  ghost predicate ReadsSlotIn(x: RInstr, q: PhysicalReg, slot: StackSlotID, regs: RegFile, slots: map<StackSlotID, Value>) {
    Get(RunLoads(regs, slots, x.loads, |x.loads|), Physical(q)) == GetSlot(slots, slot)
  }

  /** Whatever registers and slots hold, the stores leave the value of `q` in the slot. */
  ghost predicate UpdatesSlot(x: RInstr, q: PhysicalReg, slot: StackSlotID) {
    forall regs, slots :: UpdatesSlotIn(x, q, slot, regs, slots)
  }

  ghost predicate UpdatesSlotIn(x: RInstr, q: PhysicalReg, slot: StackSlotID, regs: RegFile, slots: map<StackSlotID, Value>) {
    GetSlot(RunStores(slots, regs, x.stores, |x.stores|), slot) == Get(regs, Physical(q))
  }

  // ---- What the rewriting leaves behind ----

  function LoadsOf(t: Spot, pieces: seq<Piece>, n: nat): seq<SlotMove>
    requires n <= |pieces|
  {
    if n == 0 then []
    else LoadsOf(t, pieces, n - 1) + if IsRead(pieces[n - 1].usage) then [SlotMove(pieces[n - 1].reg, t.slot)] else []
  }

  function StoresOf(t: Spot, pieces: seq<Piece>, n: nat): seq<SlotMove>
    requires n <= |pieces|
  {
    if n == 0 then []
    else (if IsWrite(pieces[n - 1].usage) then [SlotMove(pieces[n - 1].reg, t.slot)] else []) + StoresOf(t, pieces, n - 1)
  }

  lemma {:induction false} MovesAre(t: Spot, pieces: seq<Piece>, n: nat)
    requires NoKills(pieces) && n <= |pieces|
    ensures LoadsBy(AllocsOf(t, pieces), n, t.b, t.i) == LoadsOf(t, pieces, n)
    ensures StoresBy(AllocsOf(t, pieces), n, t.b, t.i) == StoresOf(t, pieces, n)
  {
    if n > 0 {
      MovesAre(t, pieces, n - 1);
      PieceMoves(t, pieces[n - 1]);
    }
  }

  lemma PieceMoves(t: Spot, piece: Piece)
    requires piece.usage != Kill
    ensures LoadOf(AllocOf(t, piece), t.b, t.i) == if IsRead(piece.usage) then [SlotMove(piece.reg, t.slot)] else []
    ensures StoreOf(AllocOf(t, piece), t.b, t.i) == if IsWrite(piece.usage) then [SlotMove(piece.reg, t.slot)] else []
    ensures Replaces(AllocOf(t, piece), t.b, t.i, t.v)
  {
    var a := AllocOf(t, piece);
    assert a.bundle.segments[0].reg == t.v && a.bundle.segments[0].range.Spans(t.b, t.i);
  }

  lemma {:induction false} FirstPieceReplaces(t: Spot, pieces: seq<Piece>, n: nat)
    requires NoKills(pieces) && n <= |pieces|
    ensures FirstReplacer(AllocsOf(t, pieces), n, t.b, t.i, t.v) == if n == 0 then None else Some(0)
  {
    if n > 0 {
      FirstPieceReplaces(t, pieces, n - 1);
      PieceMoves(t, pieces[n - 1]);
    }
  }

  /** All operands that name the register end up in the register of the first allocation. */
  lemma OperandsGoToFirst(t: Spot, pieces: seq<Piece>, instr: Instr, j: nat)
    requires NoKills(pieces) && pieces != [] && j < |instr.regs| && instr.regs[j].reg == Virtual(t.v)
    ensures OperandIs(RewrittenBy(t, pieces, instr), j, RegOp(Physical(pieces[0].reg), instr.regs[j].usage))
  {
    FirstPieceReplaces(t, pieces, |pieces|);
    RewrittenOperand(AllocsOf(t, pieces), |pieces|, t.b, t.i, instr, j);
  }

  // ---- Reading ----

  ghost predicate SomePieceReadsInto(pieces: seq<Piece>, q: PhysicalReg, n: nat)
    requires n <= |pieces|
  {
    exists k | 0 <= k < n :: IsRead(pieces[k].usage) && pieces[k].reg == q
  }

  lemma RunLoadsNext(regs: RegFile, slots: map<StackSlotID, Value>, loads: seq<SlotMove>, more: seq<SlotMove>)
    requires |more| <= 1
    ensures RunLoads(regs, slots, loads + more, |loads| + |more|) ==
            if more == [] then RunLoads(regs, slots, loads, |loads|)
            else RunLoads(regs, slots, loads, |loads|)[Physical(more[0].reg) := GetSlot(slots, more[0].slot)]
  {
    RunLoadsPrefix(regs, slots, loads, more, |loads|);
  }

  lemma {:induction false} RunLoadsPrefix(regs: RegFile, slots: map<StackSlotID, Value>, loads: seq<SlotMove>, more: seq<SlotMove>, n: nat)
    requires n <= |loads|
    ensures RunLoads(regs, slots, loads + more, n) == RunLoads(regs, slots, loads, n)
  {
    if n > 0 { RunLoadsPrefix(regs, slots, loads, more, n - 1); }
  }

  lemma {:induction false} LoadedValue(t: Spot, pieces: seq<Piece>, n: nat, q: PhysicalReg, regs: RegFile, slots: map<StackSlotID, Value>)
    requires n <= |pieces|
    ensures Get(RunLoads(regs, slots, LoadsOf(t, pieces, n), |LoadsOf(t, pieces, n)|), Physical(q)) ==
            if SomePieceReadsInto(pieces, q, n) then GetSlot(slots, t.slot) else Get(regs, Physical(q))
  {
    if n > 0 {
      LoadedValue(t, pieces, n - 1, q, regs, slots);
      var more := if IsRead(pieces[n - 1].usage) then [SlotMove(pieces[n - 1].reg, t.slot)] else [];
      RunLoadsNext(regs, slots, LoadsOf(t, pieces, n - 1), more);
      assert LoadsOf(t, pieces, n) == LoadsOf(t, pieces, n - 1) + more;
    }
  }

  // ---- Writing ----

  /** The first piece that writes. */
  function FirstWriter(pieces: seq<Piece>, n: nat): Option<nat>
    requires n <= |pieces|
  {
    if n == 0 then None
    else
      var k := FirstWriter(pieces, n - 1);
      if k.Some? then k else if IsWrite(pieces[n - 1].usage) then Some(n - 1) else None
  }

  lemma {:induction false} FirstWriterTells(pieces: seq<Piece>, n: nat)
    requires n <= |pieces|
    ensures var k := FirstWriter(pieces, n);
            && (k.Some? ==> k.value < n && IsWrite(pieces[k.value].usage) && forall j :: 0 <= j < k.value ==> !IsWrite(pieces[j].usage))
            && (k.None? ==> forall j :: 0 <= j < n ==> !IsWrite(pieces[j].usage))
  {
    if n > 0 { FirstWriterTells(pieces, n - 1); }
  }

  /** The first to write is the last to store. */
  lemma {:induction false} LastStore(t: Spot, pieces: seq<Piece>, n: nat)
    requires n <= |pieces|
    ensures var k, stores := FirstWriter(pieces, n), StoresOf(t, pieces, n);
            && (k.Some? ==> k.value < |pieces| && stores != [] && stores[|stores| - 1] == SlotMove(pieces[k.value].reg, t.slot))
            && (k.None? ==> stores == [])
  {
    if n > 0 {
      LastStore(t, pieces, n - 1);
      FirstWriterTells(pieces, n - 1);
    }
  }

  lemma StoredValue(t: Spot, pieces: seq<Piece>, regs: RegFile, slots: map<StackSlotID, Value>)
    ensures var k, stores := FirstWriter(pieces, |pieces|), StoresOf(t, pieces, |pieces|);
            && (k.Some? ==> k.value < |pieces|)
            && GetSlot(RunStores(slots, regs, stores, |stores|), t.slot) ==
               if k.Some? then Get(regs, Physical(pieces[k.value].reg)) else GetSlot(slots, t.slot)
  {
    LastStore(t, pieces, |pieces|);
  }

  // ---- Exactly when it is right ----

  lemma PartsAre(t: Spot, pieces: seq<Piece>, instr: Instr)
    requires NoKills(pieces)
    ensures var x := RewrittenBy(t, pieces, instr);
            x.loads == LoadsOf(t, pieces, |pieces|) && x.stores == StoresOf(t, pieces, |pieces|)
  {
    RewrittenParts(AllocsOf(t, pieces), |pieces|, t.b, t.i, instr);
    MovesAre(t, pieces, |pieces|);
  }

  /** The operands read the slot exactly if some allocation with the register of the first one loads it. */
  lemma ReadsSlotIff(t: Spot, pieces: seq<Piece>, instr: Instr)
    requires NoKills(pieces) && pieces != []
    ensures ReadsSlot(RewrittenBy(t, pieces, instr), pieces[0].reg, t.slot) <==> SomePieceReadsInto(pieces, pieces[0].reg, |pieces|)
  {
    var x, q := RewrittenBy(t, pieces, instr), pieces[0].reg;
    PartsAre(t, pieces, instr);
    forall regs, slots
      ensures SomePieceReadsInto(pieces, q, |pieces|) ==> ReadsSlotIn(x, q, t.slot, regs, slots)
    {
      LoadedValue(t, pieces, |pieces|, q, regs, slots);
    }
    if !SomePieceReadsInto(pieces, q, |pieces|) {
      var regs: RegFile, slots: map<StackSlotID, Value> := map[Physical(q) := 0], map[t.slot := 1];
      LoadedValue(t, pieces, |pieces|, q, regs, slots);
      assert !ReadsSlotIn(x, q, t.slot, regs, slots);
    }
  }

  /** The first allocation that stores has the register of the first one. */
  predicate FirstStores(pieces: seq<Piece>)
    requires pieces != []
  {
    var k := FirstWriter(pieces, |pieces|);
    k.Some? && k.value < |pieces| && pieces[k.value].reg == pieces[0].reg
  }

  lemma StoredByFirst(t: Spot, pieces: seq<Piece>, regs: RegFile, slots: map<StackSlotID, Value>)
    requires pieces != []
    ensures FirstStores(pieces) ==>
              GetSlot(RunStores(slots, regs, StoresOf(t, pieces, |pieces|), |StoresOf(t, pieces, |pieces|)|), t.slot)
              == Get(regs, Physical(pieces[0].reg))
  {
    StoredValue(t, pieces, regs, slots);
  }

  /** States in which the slot does not receive the value. */
  lemma NotStoredByFirst(t: Spot, pieces: seq<Piece>) returns (regs: RegFile, slots: map<StackSlotID, Value>)
    requires pieces != [] && !FirstStores(pieces)
    ensures GetSlot(RunStores(slots, regs, StoresOf(t, pieces, |pieces|), |StoresOf(t, pieces, |pieces|)|), t.slot)
            != Get(regs, Physical(pieces[0].reg))
  {
    regs, slots := map[Physical(pieces[0].reg) := 1], map[t.slot := 0];
    StoredValue(t, pieces, regs, slots);
  }

  /** The slot receives what they write exactly if the first allocation that stores has the register of the first one. */
  lemma UpdatesSlotIff(t: Spot, pieces: seq<Piece>, instr: Instr)
    requires NoKills(pieces) && pieces != []
    ensures UpdatesSlot(RewrittenBy(t, pieces, instr), pieces[0].reg, t.slot) <==> FirstStores(pieces)
  {
    var x, q := RewrittenBy(t, pieces, instr), pieces[0].reg;
    PartsAre(t, pieces, instr);
    if FirstStores(pieces) {
      forall regs, slots
        ensures UpdatesSlotIn(x, q, t.slot, regs, slots)
      {
        StoredByFirst(t, pieces, regs, slots);
      }
    } else {
      var regs, slots := NotStoredByFirst(t, pieces);
      assert !UpdatesSlotIn(x, q, t.slot, regs, slots);
    }
  }

  // ---- Whatever the order ----

  /** Pieces of one instruction that may share a register: one that only reads, and one that only writes. */
  ghost predicate SafeRegs(pieces: seq<Piece>) {
    forall j, k | 0 <= j < k < |pieces| && pieces[j].reg == pieces[k].reg ::
      (pieces[j].usage == Use && pieces[k].usage == Def) || (pieces[j].usage == Def && pieces[k].usage == Use)
  }

  ghost predicate DifferentRegs(pieces: seq<Piece>) {
    forall j, k :: 0 <= j < k < |pieces| ==> pieces[j].reg != pieces[k].reg
  }

  function UsagesOf(pieces: seq<Piece>): multiset<Usage> {
    if pieces == [] then multiset{} else UsagesOf(pieces[..|pieces| - 1]) + multiset{pieces[|pieces| - 1].usage}
  }

  /** The roles in which the first `n` operands name `v`. */
  function RolesFor(ops: seq<RegOp>, v: VirtualReg, n: nat): seq<Usage>
    requires n <= |ops|
  {
    if n == 0 then [] else RolesFor(ops, v, n - 1) + if ops[n - 1].reg == Virtual(v) then [ops[n - 1].usage] else []
  }

  /** Allocations as a spill of `v` may produce them: one for each operand, in any order, each in a safe register. */
  ghost predicate PiecesFor(instr: Instr, v: VirtualReg, pieces: seq<Piece>) {
    NoKills(pieces) && SafeRegs(pieces) && UsagesOf(pieces) == multiset(RolesFor(instr.regs, v, |instr.regs|))
  }

  /** Operands that read see the slot, and what operands write gets there. */
  ghost predicate Right(t: Spot, pieces: seq<Piece>, instr: Instr)
    requires NoKills(pieces) && pieces != []
  {
    var x := RewrittenBy(t, pieces, instr);
    && ((exists k | 0 <= k < |pieces| :: IsRead(pieces[k].usage)) ==> ReadsSlot(x, pieces[0].reg, t.slot))
    && ((exists k | 0 <= k < |pieces| :: IsWrite(pieces[k].usage)) ==> UpdatesSlot(x, pieces[0].reg, t.slot))
  }

  predicate OneRole(roles: seq<Usage>) {
    forall j, k | 0 <= j < k < |roles| :: roles[j] == roles[k]
  }

  ghost predicate AlwaysRight(t: Spot, instr: Instr) {
    forall pieces | PiecesFor(instr, t.v, pieces) && pieces != [] :: Right(t, pieces, instr)
  }

  lemma {:induction false} UsageIsListed(pieces: seq<Piece>, k: nat)
    requires k < |pieces|
    ensures pieces[k].usage in UsagesOf(pieces)
  {
    if k < |pieces| - 1 { UsageIsListed(pieces[..|pieces| - 1], k); }
  }

  lemma OneUsage(pieces: seq<Piece>, roles: seq<Usage>, k: nat)
    requires k < |pieces| && UsagesOf(pieces) == multiset(roles) && OneRole(roles)
    ensures pieces[k].usage == pieces[0].usage
  {
    UsageIsListed(pieces, k);
    UsageIsListed(pieces, 0);
    assert pieces[k].usage in roles && pieces[0].usage in roles;
  }

  lemma OneRoleIsRight(t: Spot, pieces: seq<Piece>, instr: Instr)
    requires PiecesFor(instr, t.v, pieces) && pieces != [] && OneRole(RolesFor(instr.regs, t.v, |instr.regs|))
    ensures Right(t, pieces, instr)
  {
    forall k | 0 <= k < |pieces|
      ensures pieces[k].usage == pieces[0].usage
    {
      OneUsage(pieces, RolesFor(instr.regs, t.v, |instr.regs|), k);
    }
    OneUsageIsRight(t, pieces, instr);
  }

  lemma OneUsageIsRight(t: Spot, pieces: seq<Piece>, instr: Instr)
    requires NoKills(pieces) && pieces != [] && forall k | 0 <= k < |pieces| :: pieces[k].usage == pieces[0].usage
    ensures Right(t, pieces, instr)
  {
    ReadsSlotIff(t, pieces, instr);
    UpdatesSlotIff(t, pieces, instr);
    FirstWriterTells(pieces, |pieces|);
  }

  ghost predicate Distinct(regs: seq<PhysicalReg>) {
    forall j, k :: 0 <= j < k < |regs| ==> regs[j] != regs[k]
  }

  /** Pieces for the given roles, in the given registers. */
  function PiecesIn(regs: seq<PhysicalReg>, roles: seq<Usage>): (pieces: seq<Piece>)
    requires |roles| <= |regs|
    ensures |pieces| == |roles| && forall k :: 0 <= k < |roles| ==> pieces[k] == Piece(regs[k], roles[k])
  {
    seq(|roles|, k requires 0 <= k < |roles| => Piece(regs[k], roles[k]))
  }

  lemma {:induction false} UsagesAre(pieces: seq<Piece>, roles: seq<Usage>)
    requires |pieces| == |roles| && forall k | 0 <= k < |roles| :: pieces[k].usage == roles[k]
    ensures UsagesOf(pieces) == multiset(roles)
  {
    if roles != [] {
      var n := |roles| - 1;
      UsagesAre(pieces[..n], roles[..n]);
      LastOfRoles(roles);
    }
  }

  lemma LastOfRoles(roles: seq<Usage>)
    requires roles != []
    ensures multiset(roles) == multiset(roles[..|roles| - 1]) + multiset{roles[|roles| - 1]}
  {
    assert roles == roles[..|roles| - 1] + [roles[|roles| - 1]];
  }

  /** The same roles with entry `k` moved to the front. */
  function ToFront(roles: seq<Usage>, k: nat): seq<Usage>
    requires k < |roles|
  {
    [roles[k]] + roles[..k] + roles[k + 1..]
  }

  lemma ToFrontSame(roles: seq<Usage>, k: nat)
    requires k < |roles|
    ensures multiset(ToFront(roles, k)) == multiset(roles)
    ensures forall j | 0 <= j < |roles| :: roles[j] in ToFront(roles, k)
  {
    assert roles == roles[..k] + [roles[k]] + roles[k + 1..];
    forall j | 0 <= j < |roles|
      ensures roles[j] in ToFront(roles, k)
    {
      assert roles[j] in multiset(roles);
    }
  }

  /** Pieces in a given order, each with a register of its own. */
  lemma PiecesInAreSafe(regs: seq<PhysicalReg>, order: seq<Usage>)
    requires Kill !in order && |order| <= |regs| && Distinct(regs)
    ensures NoKills(PiecesIn(regs, order)) && SafeRegs(PiecesIn(regs, order)) && DifferentRegs(PiecesIn(regs, order))
  {
    forall n | 0 <= n < |order|
      ensures order[n] != Kill
    {
      assert order[n] in order;
    }
  }

  lemma OrderedPieces(instr: Instr, v: VirtualReg, regs: seq<PhysicalReg>, order: seq<Usage>)
    requires multiset(order) == multiset(RolesFor(instr.regs, v, |instr.regs|)) && Kill !in order
    requires |order| <= |regs| && Distinct(regs)
    ensures PiecesFor(instr, v, PiecesIn(regs, order)) && DifferentRegs(PiecesIn(regs, order))
  {
    UsagesAre(PiecesIn(regs, order), order);
    PiecesInAreSafe(regs, order);
  }

  /** One operand does not do what the other one does. */
  predicate FallsShort(first: Usage, other: Usage) {
    (!IsWrite(first) && IsWrite(other)) || (!IsRead(first) && IsRead(other))
  }

  /** The first operand does not do what another one does. */
  predicate StartsShort(order: seq<Usage>) {
    exists n :: 0 < n < |order| && FallsShort(order[0], order[n])
  }

  /** Operands with different roles can be ordered like that. */
  lemma BadOrder(roles: seq<Usage>) returns (order: seq<Usage>)
    requires Kill !in roles && !OneRole(roles)
    ensures multiset(order) == multiset(roles) && |order| == |roles| && StartsShort(order)
  {
    var j, k := TwoRoles(roles);
    order := ToFront(roles, j);
    ToFrontSame(roles, j);
    var n :| 0 <= n < |order| && order[n] == roles[k];
    assert order[0] == roles[j];
  }

  /** Such an order goes wrong, whatever registers the operands get, if each gets one of its own. */
  lemma BadOrderIsWrong(t: Spot, instr: Instr, regs: seq<PhysicalReg>, order: seq<Usage>)
    requires multiset(order) == multiset(RolesFor(instr.regs, t.v, |instr.regs|)) && Kill !in order && StartsShort(order)
    requires |order| <= |regs| && Distinct(regs)
    ensures PiecesFor(instr, t.v, PiecesIn(regs, order)) && !Right(t, PiecesIn(regs, order), instr)
  {
    var pieces := PiecesIn(regs, order);
    OrderedPieces(instr, t.v, regs, order);
    FirstDecides(t, pieces, instr);
    var n :| 0 < n < |order| && FallsShort(order[0], order[n]);
    assert pieces[0].usage == order[0] && pieces[n].usage == order[n];
  }

  /** With a register for each, the operand whose allocation is applied first decides: its role must cover both. */
  lemma FirstDecides(t: Spot, pieces: seq<Piece>, instr: Instr)
    requires NoKills(pieces) && pieces != [] && DifferentRegs(pieces)
    ensures ReadsSlot(RewrittenBy(t, pieces, instr), pieces[0].reg, t.slot) <==> IsRead(pieces[0].usage)
    ensures UpdatesSlot(RewrittenBy(t, pieces, instr), pieces[0].reg, t.slot) <==> IsWrite(pieces[0].usage)
  {
    ReadsSlotIff(t, pieces, instr);
    UpdatesSlotIff(t, pieces, instr);
    FirstWriterTells(pieces, |pieces|);
  }

  /** Spilling is right in every order of allocation exactly if all operands that name the register have one role. */
  lemma AlwaysRightIff(t: Spot, instr: Instr)
    requires Kill !in RolesFor(instr.regs, t.v, |instr.regs|)
    ensures AlwaysRight(t, instr) <==> OneRole(RolesFor(instr.regs, t.v, |instr.regs|))
  {
    var roles := RolesFor(instr.regs, t.v, |instr.regs|);
    if OneRole(roles) {
      forall pieces | PiecesFor(instr, t.v, pieces) && pieces != []
        ensures Right(t, pieces, instr)
      {
        OneRoleIsRight(t, pieces, instr);
      }
    } else {
      var regs := seq(|roles|, n => n);
      var order := BadOrder(roles);
      assert Kill !in multiset(roles);
      BadOrderIsWrong(t, instr, regs, order);
      assert PiecesIn(regs, order) != [];
    }
  }

  lemma TwoRoles(roles: seq<Usage>) returns (j: nat, k: nat)
    requires !OneRole(roles) && Kill !in roles
    ensures j < |roles| && k < |roles| && FallsShort(roles[j], roles[k])
  {
    j, k :| 0 <= j < k < |roles| && roles[j] != roles[k];
    assert roles[j] in roles && roles[k] in roles;
    if !FallsShort(roles[j], roles[k]) { j, k := k, j; }
  }
}
