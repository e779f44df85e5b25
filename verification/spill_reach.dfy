/**
  Every order in which spilled operands can be given registers is the order of some run of the worklist
  (src/banjo/codegen/reg_alloc_pass.cpp: the queue is ordered by weight, and born bundles all weigh the same).
 */
module SpillReach {
  import opened RegAllocFunc
  import opened Bundles
  import opened Worklist
  import opened AllocContext
  import opened Spills
  import opened Machine
  import opened SpillOrder

  /** Taken in this order, each bundle gets the register that is first possible for it. */
  ghost predicate Assignable(fx: Fixed, allocs: seq<Alloc>, order: seq<Alloc>) {
    forall n | 0 <= n < |order| :: GetsNext(fx, allocs, order, n)
  }

  ghost predicate GetsNext(fx: Fixed, allocs: seq<Alloc>, order: seq<Alloc>, n: nat)
    requires n < |order|
  {
    ChosenReg(fx, allocs + order[..n], order[n].bundle) == Some(order[n].physicalReg)
  }

  /** As often as a bundle is to be allocated, it waits. */
  ghost predicate Waiting(order: seq<Alloc>, q: seq<Bundle>) {
    forall x :: Count(BundlesOf(order), x) <= Count(q, x)
  }

  /** What still waits after the first `n`. */
  ghost predicate LeftOf(q: seq<Bundle>, order: seq<Alloc>, n: nat, q': seq<Bundle>)
    requires n <= |order|
  {
    forall x :: Count(q', x) + Count(BundlesOf(order[..n]), x) == Count(q, x)
  }

  lemma PopNext(fx: Fixed, s0: Ctx, s: Ctx, a: Alloc) returns (s': Ctx)
    requires ReachableCtx(fx, s0, s) && Count(s.bundles, a.bundle) > 0 && ChosenReg(fx, s.allocs, a.bundle) == Some(a.physicalReg)
    ensures ReachableCtx(fx, s0, s') && s'.allocs == s.allocs + [a] && s'.nextSlot == s.nextSlot
    ensures forall x :: Count(s'.bundles, x) + (if x == a.bundle then 1 else 0) == Count(s.bundles, x)
  {
    CountPositive(s.bundles, a.bundle);
    var k :| 0 <= k < |s.bundles| && s.bundles[k] == a.bundle;
    s' := StepAt(fx, s, k);
    StepAtIs(fx, s, k);
    forall x
      ensures Count(s'.bundles, x) + (if x == a.bundle then 1 else 0) == Count(s.bundles, x)
    {
      CountRemove(s.bundles, k, x);
    }
    assert Step(fx, s, s');
    ReachableNext(fx, s0, s, s');
  }

  lemma LastBundle(order: seq<Alloc>, n: nat, x: Bundle)
    requires n < |order|
    ensures Count(BundlesOf(order[..n + 1]), x) == Count(BundlesOf(order[..n]), x) + if order[n].bundle == x then 1 else 0
  {
    assert order[..n + 1][..n] == order[..n];
    CountLast(BundlesOf(order[..n]), order[n].bundle, x);
  }

  lemma CountLast(q: seq<Bundle>, y: Bundle, x: Bundle)
    ensures Count(q + [y], x) == Count(q, x) + if y == x then 1 else 0
  {
    assert (q + [y])[..|q|] == q;
  }

  lemma {:induction false} CountGrows(order: seq<Alloc>, n: nat, x: Bundle)
    requires n <= |order|
    ensures Count(BundlesOf(order[..n]), x) <= Count(BundlesOf(order), x)
    decreases |order| - n
  {
    if n == |order| {
      assert order[..n] == order;
    } else {
      LastBundle(order, n, x);
      CountGrows(order, n + 1, x);
    }
  }

  lemma NextWaits(q: seq<Bundle>, order: seq<Alloc>, n: nat, q': seq<Bundle>)
    requires n < |order| && Waiting(order, q) && LeftOf(q, order, n, q')
    ensures Count(q', order[n].bundle) > 0
  {
    var x := order[n].bundle;
    LastBundle(order, n, x);
    CountGrows(order, n + 1, x);
    assert Count(BundlesOf(order), x) <= Count(q, x);
    assert Count(q', x) + Count(BundlesOf(order[..n]), x) == Count(q, x);
  }

  lemma OneLess(q: seq<Bundle>, order: seq<Alloc>, n: nat, q': seq<Bundle>, q'': seq<Bundle>)
    requires n < |order| && LeftOf(q, order, n, q')
    requires forall x :: Count(q'', x) + (if x == order[n].bundle then 1 else 0) == Count(q', x)
    ensures LeftOf(q, order, n + 1, q'')
  {
    forall x
      ensures Count(q'', x) + Count(BundlesOf(order[..n + 1]), x) == Count(q, x)
    {
      LastBundle(order, n, x);
      assert Count(q', x) + Count(BundlesOf(order[..n]), x) == Count(q, x);
    }
  }

  lemma NextInOrder(fx: Fixed, s0: Ctx, s: Ctx, order: seq<Alloc>, n: nat, before: Ctx) returns (s': Ctx)
    requires n < |order| && Waiting(order, s.bundles) && GetsNext(fx, s.allocs, order, n)
    requires ReachableCtx(fx, s0, before) && before.allocs == s.allocs + order[..n] && LeftOf(s.bundles, order, n, before.bundles)
    ensures ReachableCtx(fx, s0, s') && s'.allocs == s.allocs + order[..n + 1] && LeftOf(s.bundles, order, n + 1, s'.bundles)
  {
    NextWaits(s.bundles, order, n, before.bundles);
    s' := PopNext(fx, s0, before, order[n]);
    OneLess(s.bundles, order, n, before.bundles, s'.bundles);
    assert order[..n + 1] == order[..n] + [order[n]];
  }

  /** Bundles that wait together can be popped in any order. */
  lemma {:induction false} AnyOrderIsReached(fx: Fixed, s0: Ctx, s: Ctx, order: seq<Alloc>, n: nat) returns (s': Ctx)
    requires ReachableCtx(fx, s0, s) && n <= |order| && Waiting(order, s.bundles) && Assignable(fx, s.allocs, order)
    ensures ReachableCtx(fx, s0, s') && s'.allocs == s.allocs + order[..n] && LeftOf(s.bundles, order, n, s'.bundles)
  {
    if n == 0 {
      s' := s;
      assert BundlesOf(order[..0]) == [];
    } else {
      var before := AnyOrderIsReached(fx, s0, s, order, n - 1);
      s' := NextInOrder(fx, s0, s, order, n - 1, before);
    }
  }

  // ---- Room at one instruction ----

  ghost predicate AtSpot(x: Bundle, t: Spot) {
    && |x.segments| == 1 && x.regClass == t.c && x.segments[0].range.block == t.b
    && x.segments[0].range.start.instr == x.segments[0].range.end.instr == t.i
  }

  ghost predicate FreeFor(fx: Fixed, allocs: seq<Alloc>, x: Bundle, free: set<PhysicalReg>) {
    forall p | p in free :: p in fx.analyzer.candidates(x.regClass) && AllocPossible(fx, allocs, x, p)
  }

  /** These candidates are free at the instruction. */
  ghost predicate Room(fx: Fixed, allocs: seq<Alloc>, t: Spot, free: set<PhysicalReg>) {
    forall x | AtSpot(x, t) :: FreeFor(fx, allocs, x, free)
  }

  /** No two operands that read their registers can share one. */
  lemma ReadersClash(t: Spot, a: Piece, b: Piece)
    requires IsRead(a.usage) && IsRead(b.usage)
    ensures Clash(AllocOf(t, a).bundle, AllocOf(t, b).bundle)
  {
    var x, y := AllocOf(t, a).bundle, AllocOf(t, b).bundle;
    assert x.segments[0].range.Intersects(y.segments[0].range);
  }

  lemma {:induction false} OneIsLeft(free: set<PhysicalReg>, regs: seq<PhysicalReg>) returns (p: PhysicalReg)
    requires |regs| < |free|
    ensures p in free && p !in regs
  {
    if regs == [] {
      p :| p in free;
    } else {
      p := OneIsLeft(free - {regs[0]}, regs[1..]);
    }
  }

  /** The pieces that have their registers. */
  ghost predicate Served(fx: Fixed, allocs: seq<Alloc>, t: Spot, regs: seq<PhysicalReg>, order: seq<Usage>)
    requires |regs| == |order|
  {
    && NoKills(PiecesIn(regs, order)) && Distinct(regs)
    && forall n | 0 <= n < |order| :: GetsNext(fx, allocs, AllocsOf(t, PiecesIn(regs, order)), n)
  }

  lemma FreeIsPossible(fx: Fixed, allocs: seq<Alloc>, more: seq<Alloc>, x: Bundle, p: PhysicalReg)
    requires AllocPossible(fx, allocs, x, p) && forall k | 0 <= k < |more| :: more[k].physicalReg != p
    ensures AllocPossible(fx, allocs + more, x, p)
  {
    forall k | 0 <= k < |allocs + more|
      ensures (allocs + more)[k].physicalReg == p ==> k < |allocs| && (allocs + more)[k] == allocs[k]
    {
      if k >= |allocs| { assert (allocs + more)[k] == more[k - |allocs|]; }
    }
  }

  lemma PossibleIsApart(fx: Fixed, allocs: seq<Alloc>, more: seq<Alloc>, x: Bundle, p: PhysicalReg, k: nat)
    requires AllocPossible(fx, allocs + more, x, p) && k < |more| && Clash(more[k].bundle, x)
    ensures more[k].physicalReg != p
  {
    assert (allocs + more)[|allocs| + k] == more[k];
  }

  /** With fewer pieces than free candidates the next one finds a register, suggested or not, that no other one has. */
  lemma NextFindsRegister(fx: Fixed, allocs: seq<Alloc>, t: Spot, free: set<PhysicalReg>, pieces: seq<Piece>, u: Usage)
      returns (p: PhysicalReg)
    requires Room(fx, allocs, t, free) && NoKills(pieces) && |pieces| < |free| && IsRead(u)
    requires forall k | 0 <= k < |pieces| :: IsRead(pieces[k].usage)
    ensures ChosenReg(fx, allocs + AllocsOf(t, pieces), AllocOf(t, Piece(p, u)).bundle) == Some(p)
    ensures forall k | 0 <= k < |pieces| :: pieces[k].reg != p
  {
    var more, x := AllocsOf(t, pieces), BornBundle(t.b, t.i, t.v, u, t.c, t.slot);
    assert AtSpot(x, t) && FreeFor(fx, allocs, x, free);
    var regs := seq(|pieces|, k requires 0 <= k < |pieces| => pieces[k].reg);
    var q := OneIsLeft(free, regs);
    forall k | 0 <= k < |more|
      ensures more[k].physicalReg != q
    {
      assert regs[k] == more[k].physicalReg;
    }
    FreeIsPossible(fx, allocs, more, x, q);
    FirstPossibleIsPossible(fx, allocs + more, x, fx.analyzer.suggest(x.segments));
    FirstPossibleIsPossible(fx, allocs + more, x, fx.analyzer.candidates(x.regClass));
    p := ChosenReg(fx, allocs + more, x).value;
    forall k | 0 <= k < |pieces|
      ensures pieces[k].reg != p
    {
      ReadersClash(t, pieces[k], Piece(p, u));
      PossibleIsApart(fx, allocs, more, x, p, k);
    }
  }

  lemma ServedNext(fx: Fixed, allocs: seq<Alloc>, t: Spot, regs: seq<PhysicalReg>, order: seq<Usage>, p: PhysicalReg, u: Usage)
    requires |regs| == |order| && Served(fx, allocs, t, regs, order) && IsRead(u) && p !in regs
    requires ChosenReg(fx, allocs + AllocsOf(t, PiecesIn(regs, order)), AllocOf(t, Piece(p, u)).bundle) == Some(p)
    ensures Served(fx, allocs, t, regs + [p], order + [u])
  {
    var before, pieces := PiecesIn(regs, order), PiecesIn(regs + [p], order + [u]);
    var old_, now := AllocsOf(t, before), AllocsOf(t, pieces);
    assert now[..|order|] == old_;
    forall n | 0 <= n < |order| + 1
      ensures GetsNext(fx, allocs, now, n)
    {
      if n < |order| {
        assert GetsNext(fx, allocs, old_, n);
        assert now[..n] == old_[..n];
      }
    }
  }

  /** With room for all, each gets a register of its own. */
  lemma {:induction false} AllAreServed(fx: Fixed, allocs: seq<Alloc>, t: Spot, free: set<PhysicalReg>, order: seq<Usage>)
      returns (regs: seq<PhysicalReg>)
    requires Room(fx, allocs, t, free) && |order| <= |free| && forall k | 0 <= k < |order| :: IsRead(order[k])
    ensures |regs| == |order| && Served(fx, allocs, t, regs, order)
  {
    regs := [];
    if order != [] {
      var n := |order| - 1;
      var before := AllAreServed(fx, allocs, t, free, order[..n]);
      var p := NextFindsRegister(fx, allocs, t, free, PiecesIn(before, order[..n]), order[n]);
      ServedNext(fx, allocs, t, before, order[..n], p, order[n]);
      regs := before + [p];
      assert order == order[..n] + [order[n]];
    }
  }

  // ---- The bundles that wait ----

  function BornWith(t: Spot, u: Usage): Bundle
    requires u != Kill
  {
    BornBundle(t.b, t.i, t.v, u, t.c, t.slot)
  }

  /** For every operand with the role, a bundle waits. */
  ghost predicate WaitsFor(t: Spot, roles: multiset<Usage>, q: seq<Bundle>, u: Usage)
    requires u != Kill
  {
    roles[u] <= Count(q, BornWith(t, u))
  }

  ghost predicate BundlesWait(t: Spot, roles: multiset<Usage>, q: seq<Bundle>) {
    forall u | u != Kill :: WaitsFor(t, roles, q, u)
  }

  lemma CountBorn(q: seq<Bundle>, t: Spot, w: Usage, u: Usage)
    requires w != Kill && u != Kill
    ensures Count(q + [BornWith(t, w)], BornWith(t, u)) == Count(q, BornWith(t, u)) + if w == u then 1 else 0
  {
    CountLast(q, BornWith(t, w), BornWith(t, u));
  }

  lemma BornLast(t: Spot, pieces: seq<Piece>)
    requires NoKills(pieces) && pieces != []
    ensures var n := |pieces| - 1;
            BundlesOf(AllocsOf(t, pieces)) == BundlesOf(AllocsOf(t, pieces[..n])) + [BornWith(t, pieces[n].usage)]
  {
    assert AllocsOf(t, pieces)[..|pieces| - 1] == AllocsOf(t, pieces[..|pieces| - 1]);
  }

  lemma {:induction false} CountsOfPieces(t: Spot, pieces: seq<Piece>, u: Usage)
    requires NoKills(pieces) && u != Kill
    ensures Count(BundlesOf(AllocsOf(t, pieces)), BornWith(t, u)) == UsagesOf(pieces)[u]
  {
    if pieces != [] {
      var n := |pieces| - 1;
      CountsOfPieces(t, pieces[..n], u);
      BornLast(t, pieces);
      CountBorn(BundlesOf(AllocsOf(t, pieces[..n])), t, pieces[n].usage, u);
    }
  }

  lemma OnlyBornWith(t: Spot, pieces: seq<Piece>, x: Bundle)
    requires NoKills(pieces) && Count(BundlesOf(AllocsOf(t, pieces)), x) > 0
    ensures exists u :: u != Kill && x == BornWith(t, u)
  {
    CountPositive(BundlesOf(AllocsOf(t, pieces)), x);
    var k :| 0 <= k < |pieces| && BundlesOf(AllocsOf(t, pieces))[k] == x;
    BundlesOfAllocs(AllocsOf(t, pieces));
    assert x == BornWith(t, pieces[k].usage);
  }

  lemma PiecesWait(t: Spot, pieces: seq<Piece>, q: seq<Bundle>)
    requires NoKills(pieces) && BundlesWait(t, UsagesOf(pieces), q)
    ensures Waiting(AllocsOf(t, pieces), q)
  {
    forall x
      ensures Count(BundlesOf(AllocsOf(t, pieces)), x) <= Count(q, x)
    {
      if Count(BundlesOf(AllocsOf(t, pieces)), x) > 0 {
        OnlyBornWith(t, pieces, x);
        var u :| u != Kill && x == BornWith(t, u);
        CountsOfPieces(t, pieces, u);
        assert WaitsFor(t, UsagesOf(pieces), q, u);
      }
    }
  }

  /** With candidates free at the instruction, bundles that wait for its operands get registers in any order. */
  lemma PiecesAreReached(fx: Fixed, s0: Ctx, s: Ctx, t: Spot, free: set<PhysicalReg>, order: seq<Usage>)
      returns (regs: seq<PhysicalReg>, s': Ctx)
    requires |order| <= |free| && (forall n | 0 <= n < |order| :: IsRead(order[n]))
    requires ReachableCtx(fx, s0, s) && Room(fx, s.allocs, t, free) && BundlesWait(t, multiset(order), s.bundles)
    ensures |regs| == |order| && Distinct(regs) && NoKills(PiecesIn(regs, order))
    ensures ReachableCtx(fx, s0, s') && s'.allocs == s.allocs + AllocsOf(t, PiecesIn(regs, order))
  {
    regs := AllAreServed(fx, s.allocs, t, free, order);
    var pieces := PiecesIn(regs, order);
    UsagesAre(pieces, order);
    PiecesWait(t, pieces, s.bundles);
    s' := AnyOrderIsReached(fx, s0, s, AllocsOf(t, pieces), |pieces|);
    assert AllocsOf(t, pieces)[..|pieces|] == AllocsOf(t, pieces);
  }

  lemma ReadingOrder(roles: seq<Usage>, order: seq<Usage>)
    requires multiset(order) == multiset(roles) && forall k | 0 <= k < |roles| :: IsRead(roles[k])
    ensures Kill !in order && forall n | 0 <= n < |order| :: IsRead(order[n])
  {
    forall n | 0 <= n < |order|
      ensures IsRead(order[n])
    {
      assert order[n] in multiset(order);
      assert order[n] in roles;
    }
  }

  /**
    A spilled register that an instruction names in two roles can lose: from every state in which the bundles of the
    operands wait, and with candidates free at the instruction, a run goes on to allocations that are wrong there.
   */
  lemma WrongOrderIsReached(fx: Fixed, s0: Ctx, s: Ctx, t: Spot, instr: Instr, free: set<PhysicalReg>)
      returns (pieces: seq<Piece>, s': Ctx)
    requires var roles := RolesFor(instr.regs, t.v, |instr.regs|);
             !OneRole(roles) && |roles| <= |free| && forall k | 0 <= k < |roles| :: IsRead(roles[k])
    requires ReachableCtx(fx, s0, s) && Room(fx, s.allocs, t, free)
    requires BundlesWait(t, multiset(RolesFor(instr.regs, t.v, |instr.regs|)), s.bundles)
    ensures PiecesFor(instr, t.v, pieces) && pieces != [] && !Right(t, pieces, instr)
    ensures ReachableCtx(fx, s0, s') && s'.allocs == s.allocs + AllocsOf(t, pieces)
  {
    var roles := RolesFor(instr.regs, t.v, |instr.regs|);
    ReadingOrder(roles, roles);
    var order := BadOrder(roles);
    ReadingOrder(roles, order);
    var regs;
    regs, s' := PiecesAreReached(fx, s0, s, t, free, order);
    pieces := PiecesIn(regs, order);
    BadOrderIsWrong(t, instr, regs, order);
  }

  // ---- From the spill on ----

  /** How many of the first `n` operands name `v` in the role. */
  function NamedAs(ops: seq<RegOp>, v: VirtualReg, u: Usage, n: nat): nat
    requires n <= |ops|
  {
    if n == 0 then 0 else NamedAs(ops, v, u, n - 1) + if ops[n - 1] == RegOp(Virtual(v), u) then 1 else 0
  }

  lemma {:induction false} RolesCount(ops: seq<RegOp>, v: VirtualReg, u: Usage, n: nat)
    requires n <= |ops|
    ensures multiset(RolesFor(ops, v, n))[u] == NamedAs(ops, v, u, n)
  {
    if n > 0 { RolesCount(ops, v, u, n - 1); }
  }

  lemma BornNext(t: Spot, ops: seq<RegOp>, u: Usage, n: nat)
    requires 0 < n <= |ops| && u != Kill
    ensures Count(BornOfOps(t.b, t.i, ops, t.v, t.c, t.slot, n), BornWith(t, u))
         == Count(BornOfOps(t.b, t.i, ops, t.v, t.c, t.slot, n - 1), BornWith(t, u)) + if ops[n - 1] == RegOp(Virtual(t.v), u) then 1 else 0
  {
    var op, before := ops[n - 1], BornOfOps(t.b, t.i, ops, t.v, t.c, t.slot, n - 1);
    if op.reg == Virtual(t.v) && op.usage != Kill {
      CountBorn(before, t, op.usage, u);
    } else {
      assert before + [] == before;
    }
  }

  lemma {:induction false} BornCount(t: Spot, ops: seq<RegOp>, u: Usage, n: nat)
    requires n <= |ops| && u != Kill
    ensures Count(BornOfOps(t.b, t.i, ops, t.v, t.c, t.slot, n), BornWith(t, u)) == NamedAs(ops, t.v, u, n)
  {
    if n > 0 {
      BornCount(t, ops, u, n - 1);
      BornNext(t, ops, u, n);
    }
  }

  lemma {:induction false} InstructionIsAmong(block: nat, instrs: seq<Instr>, v: VirtualReg, c: RegClass, slot: StackSlotID,
                                              lo: nat, hi: nat, i: nat, x: Bundle)
    requires lo <= i < hi <= |instrs|
    ensures Count(BornOfOps(block, i, instrs[i].regs, v, c, slot, |instrs[i].regs|), x)
         <= Count(BornOfInstrs(block, instrs, v, c, slot, lo, hi), x)
    decreases hi
  {
    BornOfInstrsCount(block, instrs, v, c, slot, lo, hi, x);
    if i < hi - 1 { InstructionIsAmong(block, instrs, v, c, slot, lo, hi - 1, i, x); }
  }

  lemma {:induction false} SegmentIsAmong(f: Func, b: Bundle, slot: StackSlotID, n: nat, k: nat, x: Bundle)
    requires k < n <= |b.segments|
    ensures Count(BornOfSegment(f, b.segments[k], b.regClass, slot), x) <= Count(BornOf(f, b, slot, n), x)
  {
    BornOfCount(f, b, slot, n, x);
    if k < n - 1 { SegmentIsAmong(f, b, slot, n - 1, k, x); }
  }

  lemma SpillHoldsOperands(f: Func, x: Bundle, t: Spot, k: nat, y: Bundle)
    requires t.b < |f.blocks| && t.i < |f.blocks[t.b].instrs| && k < |x.segments|
    requires x.segments[k].reg == t.v && x.segments[k].range.Spans(t.b, t.i) && x.regClass == t.c && InFunc(f, x)
    ensures var ops := f.blocks[t.b].instrs[t.i].regs;
            Count(BornOfOps(t.b, t.i, ops, t.v, t.c, t.slot, |ops|), y) <= Count(Born(f, x, t.slot), y)
  {
    var range := x.segments[k].range;
    SegmentBears(f, x, t, k);
    InstructionIsAmong(t.b, f.blocks[t.b].instrs, t.v, t.c, t.slot, range.start.instr, range.end.instr + 1, t.i, y);
    SegmentIsAmong(f, x, t.slot, |x.segments|, k, y);
  }

  /** What is spilled over an instruction leaves a bundle waiting for each of its operands there. */
  lemma SpilledOperandsWait(f: Func, x: Bundle, t: Spot, k: nat, u: Usage)
    requires t.b < |f.blocks| && t.i < |f.blocks[t.b].instrs| && k < |x.segments| && u != Kill
    requires x.segments[k].reg == t.v && x.segments[k].range.Spans(t.b, t.i) && x.regClass == t.c && InFunc(f, x)
    ensures var ops := f.blocks[t.b].instrs[t.i].regs;
            WaitsFor(t, multiset(RolesFor(ops, t.v, |ops|)), Born(f, x, t.slot), u)
  {
    var ops := f.blocks[t.b].instrs[t.i].regs;
    RolesCount(ops, t.v, u, |ops|);
    BornCount(t, ops, u, |ops|);
    SpillHoldsOperands(f, x, t, k, BornWith(t, u));
  }

  lemma SegmentBears(f: Func, x: Bundle, t: Spot, k: nat)
    requires t.b < |f.blocks| && t.i < |f.blocks[t.b].instrs| && k < |x.segments|
    requires x.segments[k].reg == t.v && x.segments[k].range.Spans(t.b, t.i) && InFunc(f, x)
    ensures var range := x.segments[k].range;
            BornOfSegment(f, x.segments[k], t.c, t.slot) ==
            BornOfInstrs(t.b, f.blocks[t.b].instrs, t.v, t.c, t.slot, range.start.instr, range.end.instr + 1)
  {
  }

  /** They still wait where more does. */
  lemma SpilledOperandsWaitAmong(f: Func, x: Bundle, t: Spot, k: nat, q: seq<Bundle>)
    requires t.b < |f.blocks| && t.i < |f.blocks[t.b].instrs| && k < |x.segments|
    requires x.segments[k].reg == t.v && x.segments[k].range.Spans(t.b, t.i) && x.regClass == t.c && InFunc(f, x)
    ensures var ops := f.blocks[t.b].instrs[t.i].regs;
            BundlesWait(t, multiset(RolesFor(ops, t.v, |ops|)), q + Born(f, x, t.slot))
  {
    forall u | u != Kill
      ensures WaitsFor(t, multiset(RolesFor(f.blocks[t.b].instrs[t.i].regs, t.v, |f.blocks[t.b].instrs[t.i].regs|)), q + Born(f, x, t.slot), u)
    {
      SpilledOperandsWait(f, x, t, k, u);
      CountConcat(q, Born(f, x, t.slot), BornWith(t, u));
    }
  }

  /**
    So it is whenever a bundle has to be spilled over an instruction that names one of its registers in two roles, and
    there is room for spill code there: some run goes wrong.
   */
  lemma SpillCanGoWrong(fx: Fixed, s0: Ctx, s: Ctx, n: nat, k: nat, t: Spot, free: set<PhysicalReg>)
      returns (pieces: seq<Piece>, s': Ctx)
    requires ReachableCtx(fx, s0, s) && n < |s.bundles| && k < |s.bundles[n].segments| && InFunc(fx.f, s.bundles[n])
    requires ChosenReg(fx, s.allocs, s.bundles[n]).None? && Victim(s.allocs, s.bundles[n]).None?
    requires t.b < |fx.f.blocks| && t.i < |fx.f.blocks[t.b].instrs| && t.slot == s.nextSlot && t.c == s.bundles[n].regClass
    requires s.bundles[n].segments[k].reg == t.v && s.bundles[n].segments[k].range.Spans(t.b, t.i)
    requires var ops := fx.f.blocks[t.b].instrs[t.i].regs; var roles := RolesFor(ops, t.v, |ops|);
             !OneRole(roles) && |roles| <= |free| && forall j | 0 <= j < |roles| :: IsRead(roles[j])
    requires Room(fx, s.allocs, t, free)
    ensures var instr := fx.f.blocks[t.b].instrs[t.i];
            PiecesFor(instr, t.v, pieces) && pieces != [] && !Right(t, pieces, instr)
    ensures ReachableCtx(fx, s0, s') && s'.allocs == s.allocs + AllocsOf(t, pieces)
  {
    var x, after, instr := s.bundles[n], StepAt(fx, s, n), fx.f.blocks[t.b].instrs[t.i];
    StepAtIs(fx, s, n);
    assert Step(fx, s, after);
    ReachableNext(fx, s0, s, after);
    SpilledOperandsWaitAmong(fx.f, x, t, k, Remove(s.bundles, n));
    pieces, s' := WrongOrderIsReached(fx, s0, after, t, instr, free);
  }
}
