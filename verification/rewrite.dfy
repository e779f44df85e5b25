/** Rewriting operands and inserting spill code (src/banjo/codegen/reg_alloc_pass.cpp, apply_alloc and try_replace). */
module Rewrite {
  import opened RegAllocFunc
  import opened Bundles

  datatype SlotMove = SlotMove(reg: PhysicalReg, slot: StackSlotID)

  /**
    An instruction with the code inserted around it: loads in the order in which `insert_before` leaves them, stores in
    the order in which `insert_after` leaves them. `removed` marks what `remove_useless_instrs` takes out.
   */
  datatype RInstr = RInstr(id: nat, loads: seq<SlotMove>, regs: seq<RegOp>, stores: seq<SlotMove>, removed: bool)

  type Code = seq<seq<RInstr>>

  // ---- What one allocation does to one instruction ----

  predicate ReplacesBy(segments: seq<Segment>, n: nat, b: nat, i: nat, v: VirtualReg)
    requires n <= |segments|
  {
    exists k | 0 <= k < n :: segments[k].reg == v && segments[k].range.Spans(b, i)
  }

  predicate Replaces(a: Alloc, b: nat, i: nat, v: VirtualReg) {
    ReplacesBy(a.bundle.segments, |a.bundle.segments|, b, i, v)
  }

  function ReplaceReg(a: Alloc, n: nat, b: nat, i: nat, r: Reg): Reg
    requires n <= |a.bundle.segments|
  {
    if r.Virtual? && ReplacesBy(a.bundle.segments, n, b, i, r.v) then Physical(a.physicalReg) else r
  }

  function ReplaceOps(a: Alloc, n: nat, b: nat, i: nat, ops: seq<RegOp>): (ops': seq<RegOp>)
    requires n <= |a.bundle.segments|
    ensures |ops'| == |ops|
    ensures forall j :: 0 <= j < |ops| ==> ops'[j] == ops[j].(reg := ReplaceReg(a, n, b, i, ops[j].reg))
  {
    if ops == [] then []
    else
      ReplaceOps(a, n, b, i, ops[..|ops| - 1])
      + [ops[|ops| - 1].(reg := ReplaceReg(a, n, b, i, ops[|ops| - 1].reg))]
  }

  predicate LoadsHere(a: Alloc, b: nat, i: nat) {
    && a.bundle.srcStackSlot.Some? && a.bundle.segments != []
    && a.bundle.segments[0].range.block == b && a.bundle.segments[0].range.start.instr == i
  }

  predicate StoresHere(a: Alloc, b: nat, i: nat) {
    && a.bundle.dstStackSlot.Some? && a.bundle.segments != []
    && a.bundle.segments[0].range.block == b && a.bundle.segments[0].range.end.instr == i
  }

  function LoadOf(a: Alloc, b: nat, i: nat): seq<SlotMove> {
    if LoadsHere(a, b, i) then [SlotMove(a.physicalReg, a.bundle.srcStackSlot.value)] else []
  }

  function StoreOf(a: Alloc, b: nat, i: nat): seq<SlotMove> {
    if StoresHere(a, b, i) then [SlotMove(a.physicalReg, a.bundle.dstStackSlot.value)] else []
  }

  function Applied(a: Alloc, b: nat, i: nat, x: RInstr): RInstr {
    x.(loads := x.loads + LoadOf(a, b, i),
       regs := ReplaceOps(a, |a.bundle.segments|, b, i, x.regs),
       stores := StoreOf(a, b, i) + x.stores)
  }

  // ---- What all allocations do, in order ----

  function Untouched(instr: Instr): RInstr {
    RInstr(instr.id, [], instr.regs, [], false)
  }

  function Rewritten(allocs: seq<Alloc>, n: nat, b: nat, i: nat, instr: Instr): RInstr
    requires n <= |allocs|
  {
    if n == 0 then Untouched(instr) else Applied(allocs[n - 1], b, i, Rewritten(allocs, n - 1, b, i, instr))
  }

  ghost predicate Shaped(f: Func, code: Code) {
    |code| == |f.blocks| && forall b :: 0 <= b < |code| ==> |code[b]| == |f.blocks[b].instrs|
  }

  ghost predicate CodeAfter(f: Func, allocs: seq<Alloc>, n: nat, code: Code)
    requires n <= |allocs|
  {
    && Shaped(f, code)
    && forall b, i {:trigger InstrAfter(f, allocs, n, code, b, i)} :: InstrAfter(f, allocs, n, code, b, i)
  }

  ghost predicate InstrAfter(f: Func, allocs: seq<Alloc>, n: nat, code: Code, b: nat, i: nat)
    requires n <= |allocs|
  {
    b < |f.blocks| && i < |f.blocks[b].instrs| && b < |code| && i < |code[b]| ==>
      code[b][i] == Rewritten(allocs, n, b, i, f.blocks[b].instrs[i])
  }

  /** The rewritten function, with the instructions that became useless taken out. */
  ghost predicate FinalCode(f: Func, allocs: seq<Alloc>, removable: (nat, seq<RegOp>) -> bool, code: Code) {
    && Shaped(f, code)
    && forall b, i :: 0 <= b < |code| && 0 <= i < |code[b]| ==>
         code[b][i] == Marked(Rewritten(allocs, |allocs|, b, i, f.blocks[b].instrs[i]), removable)
  }

  class Rewriter {
    const f: Func
    var code: Code

    constructor (f: Func)
      ensures this.f == f && CodeAfter(f, [], 0, code)
    {
      var initial := InitialCode(f);
      this.f := f;
      code := initial;
    }

    /** `code[b][i]` becomes `x`. */
    method Set(b: nat, i: nat, x: RInstr)
      requires Shaped(f, code) && b < |code| && i < |code[b]|
      modifies this`code
      ensures Shaped(f, code) && code == SetAt(old(code), b, i, x)
    {
      code := code[b := code[b][i := x]];
    }

    /** Replaces the operands of every instruction segment `k` of the allocation touches. */
    method ReplaceInSegment(a: Alloc, k: nat, ghost start: Code)
      requires Shaped(f, code) && Shaped(f, start) && k < |a.bundle.segments| && InFunc(f, a.bundle)
      requires ReplacedSoFar(f, a, k, start, code)
      modifies this`code
      ensures Shaped(f, code) && ReplacedSoFar(f, a, k + 1, start, code)
    {
      var range := a.bundle.segments[k].range;
      ghost var before := code;
      var index := range.start.instr;
      while index <= range.end.instr
        invariant Shaped(f, code) && range.start.instr <= index
        invariant SegmentReplacedSoFar(a, k, index, before, code)
        decreases range.end.instr + 1 - index
      {
        var x := code[range.block][index];
        assert SegmentStep(a, k, index, before, code, range.block, index);
        SegmentReplaceNext(a, k, index, before, code);
        Set(range.block, index, x.(regs := ReplaceOpsBy(a.bundle.segments[k].reg, a.physicalReg, x.regs)));
        index := index + 1;
      }
      SegmentDone(f, a, k, index, start, before, code);
    }

    /** `apply_alloc`: load, replaced operands, store. */
    method ApplyAlloc(a: Alloc, ghost done: seq<Alloc>)
      requires CodeAfter(f, done, |done|, code) && InFunc(f, a.bundle)
      requires a.bundle.srcStackSlot.Some? || a.bundle.dstStackSlot.Some? ==> a.bundle.segments != []
      modifies this`code
      ensures CodeAfter(f, done + [a], |done| + 1, code)
    {
      ghost var start := code;
      if a.bundle.srcStackSlot.Some? {
        var range := a.bundle.segments[0].range;
        var x := code[range.block][range.start.instr];
        Set(range.block, range.start.instr, x.(loads := x.loads + [SlotMove(a.physicalReg, a.bundle.srcStackSlot.value)]));
      }
      ghost var loaded := code;
      LoadPlaced(f, a, start, loaded);
      NothingReplacedYet(f, a, loaded);
      for k := 0 to |a.bundle.segments|
        invariant Shaped(f, code) && ReplacedSoFar(f, a, k, loaded, code)
      {
        ReplaceInSegment(a, k, loaded);
      }
      ghost var replaced := code;
      if a.bundle.dstStackSlot.Some? {
        var range := a.bundle.segments[0].range;
        var x := code[range.block][range.end.instr];
        Set(range.block, range.end.instr, x.(stores := [SlotMove(a.physicalReg, a.bundle.dstStackSlot.value)] + x.stores));
      }
      StorePlaced(f, a, replaced, code);
      AllocApplied(f, a, done, start, loaded, replaced, code);
    }

    method ApplyAll(allocs: seq<Alloc>)
      requires CodeAfter(f, [], 0, code)
      requires forall k | 0 <= k < |allocs| :: Applicable(f, allocs[k])
      modifies this`code
      ensures CodeAfter(f, allocs, |allocs|, code)
    {
      for n := 0 to |allocs|
        invariant CodeAfter(f, allocs[..n], n, code)
      {
        assert Applicable(f, allocs[n]);
        ApplyAlloc(allocs[n], allocs[..n]);
        assert allocs[..n] + [allocs[n]] == allocs[..n + 1];
      }
      assert allocs[..|allocs|] == allocs;
    }

    method RemoveUselessInstrs(removable: (nat, seq<RegOp>) -> bool, ghost allocs: seq<Alloc>)
      requires CodeAfter(f, allocs, |allocs|, code)
      modifies this`code
      ensures FinalCode(f, allocs, removable, code)
      ensures forall b, i :: 0 <= b < |code| && 0 <= i < |code[b]| ==>
        (code[b][i].removed <==> removable(code[b][i].id, code[b][i].regs)) && code[b][i] == old(code)[b][i].(removed := code[b][i].removed)
    {
      ghost var start: Code := code;
      for b := 0 to |code|
        invariant Shaped(f, code) && |code| == |start|
        invariant forall c, i :: 0 <= c < |code| && 0 <= i < |code[c]| ==>
          code[c][i] == if c < b then Marked(start[c][i], removable) else start[c][i]
      {
        var block := RemoveInBlock(code[b], removable);
        code := code[b := block];
      }
      forall b, i | 0 <= b < |code| && 0 <= i < |code[b]|
        ensures start[b][i] == Rewritten(allocs, |allocs|, b, i, f.blocks[b].instrs[i])
      {
        assert InstrAfter(f, allocs, |allocs|, start, b, i);
      }
    }
  }

  function Marked(x: RInstr, removable: (nat, seq<RegOp>) -> bool): RInstr {
    x.(removed := removable(x.id, x.regs))
  }

  ghost predicate Applicable(f: Func, a: Alloc) {
    InFunc(f, a.bundle) && (a.bundle.srcStackSlot.Some? || a.bundle.dstStackSlot.Some? ==> a.bundle.segments != [])
  }

  method RemoveInBlock(block: seq<RInstr>, removable: (nat, seq<RegOp>) -> bool) returns (block': seq<RInstr>)
    ensures |block'| == |block|
    ensures forall i :: 0 <= i < |block| ==> block'[i] == Marked(block[i], removable)
  {
    block' := [];
    for i := 0 to |block|
      invariant |block'| == i
      invariant forall j :: 0 <= j < i ==> block'[j] == Marked(block[j], removable)
    {
      block' := block' + [Marked(block[i], removable)];
    }
  }

  function SetAt(code: Code, b: nat, i: nat, x: RInstr): Code
    requires b < |code| && i < |code[b]|
  {
    code[b := code[b][i := x]]
  }

  method InitialCode(f: Func) returns (code: Code)
    ensures CodeAfter(f, [], 0, code)
  {
    code := [];
    for b := 0 to |f.blocks|
      invariant |code| == b
      invariant forall c :: 0 <= c < b ==> |code[c]| == |f.blocks[c].instrs|
      invariant forall c, i :: 0 <= c < b && 0 <= i < |code[c]| ==> code[c][i] == Untouched(f.blocks[c].instrs[i])
    {
      var instrs := f.blocks[b].instrs;
      var block := seq(|instrs|, i requires 0 <= i < |instrs| => Untouched(instrs[i]));
      code := code + [block];
    }
  }

  // ---- Replacing operands segment by segment ----

  function ReplaceOpsBy(v: VirtualReg, p: PhysicalReg, ops: seq<RegOp>): (ops': seq<RegOp>)
    ensures |ops'| == |ops|
    ensures forall j :: 0 <= j < |ops| ==> ops'[j] == if ops[j].reg == Virtual(v) then ops[j].(reg := Physical(p)) else ops[j]
  {
    if ops == [] then []
    else
      var op := ops[|ops| - 1];
      ReplaceOpsBy(v, p, ops[..|ops| - 1]) + [if op.reg == Virtual(v) then op.(reg := Physical(p)) else op]
  }

  ghost predicate ReplacedAt(a: Alloc, n: nat, start: Code, code: Code, b: nat, i: nat)
    requires n <= |a.bundle.segments|
  {
    b < |start| && i < |start[b]| && b < |code| && i < |code[b]| ==>
      code[b][i] == start[b][i].(regs := ReplaceOps(a, n, b, i, start[b][i].regs))
  }

  ghost predicate ReplacedSoFar(f: Func, a: Alloc, n: nat, start: Code, code: Code)
    requires n <= |a.bundle.segments|
  {
    forall b, i {:trigger ReplacedAt(a, n, start, code, b, i)} :: ReplacedAt(a, n, start, code, b, i)
  }

  ghost predicate SegmentStep(a: Alloc, k: nat, index: nat, before: Code, code: Code, b: nat, i: nat)
    requires k < |a.bundle.segments|
  {
    var s := a.bundle.segments[k];
    b < |before| && i < |before[b]| && b < |code| && i < |code[b]| ==>
      code[b][i] == if s.range.Spans(b, i) && i < index
                    then before[b][i].(regs := ReplaceOpsBy(s.reg, a.physicalReg, before[b][i].regs)) else before[b][i]
  }

  ghost predicate SegmentReplacedSoFar(a: Alloc, k: nat, index: nat, before: Code, code: Code)
    requires k < |a.bundle.segments|
  {
    forall b, i {:trigger SegmentStep(a, k, index, before, code, b, i)} :: SegmentStep(a, k, index, before, code, b, i)
  }

  lemma SegmentReplaceNext(a: Alloc, k: nat, index: nat, before: Code, code: Code)
    requires k < |a.bundle.segments| && SegmentReplacedSoFar(a, k, index, before, code)
    requires |before| == |code| && forall b :: 0 <= b < |code| ==> |before[b]| == |code[b]|
    requires var range := a.bundle.segments[k].range;
             range.block < |code| && index < |code[range.block]| && range.start.instr <= index <= range.end.instr
    ensures var s := a.bundle.segments[k];
            var x := code[s.range.block][index];
            SegmentReplacedSoFar(a, k, index + 1, before,
              SetAt(code, s.range.block, index, x.(regs := ReplaceOpsBy(s.reg, a.physicalReg, x.regs))))
  {
    var s := a.bundle.segments[k];
    var x := code[s.range.block][index];
    var code' := SetAt(code, s.range.block, index, x.(regs := ReplaceOpsBy(s.reg, a.physicalReg, x.regs)));
    var next := index + 1;
    assert SegmentStep(a, k, index, before, code, s.range.block, index);
    forall b: nat, i: nat
      ensures SegmentStep(a, k, next, before, code', b, i)
    {
      assert SegmentStep(a, k, index, before, code, b, i);
    }
  }

  lemma ReplaceOneMore(a: Alloc, k: nat, b: nat, i: nat, ops: seq<RegOp>)
    requires k < |a.bundle.segments|
    ensures var s := a.bundle.segments[k];
            ReplaceOps(a, k + 1, b, i, ops) ==
            if s.range.Spans(b, i) then ReplaceOpsBy(s.reg, a.physicalReg, ReplaceOps(a, k, b, i, ops)) else ReplaceOps(a, k, b, i, ops)
  {
    forall r
      ensures var s := a.bundle.segments[k];
              var t := ReplaceReg(a, k, b, i, r);
              ReplaceReg(a, k + 1, b, i, r) == if s.range.Spans(b, i) && t == Virtual(s.reg) then Physical(a.physicalReg) else t
    {
      if r.Virtual? {
        assert ReplacesBy(a.bundle.segments, k + 1, b, i, r.v) <==>
               ReplacesBy(a.bundle.segments, k, b, i, r.v)
               || (a.bundle.segments[k].reg == r.v && a.bundle.segments[k].range.Spans(b, i));
      }
    }
  }

  lemma SegmentDone(f: Func, a: Alloc, k: nat, index: nat, start: Code, before: Code, code: Code)
    requires k < |a.bundle.segments| && a.bundle.segments[k].range.end.instr < index
    requires Shaped(f, start) && Shaped(f, before) && Shaped(f, code)
    requires ReplacedSoFar(f, a, k, start, before) && SegmentReplacedSoFar(a, k, index, before, code)
    ensures ReplacedSoFar(f, a, k + 1, start, code)
  {
    var next := k + 1;
    forall b: nat, i: nat
      ensures ReplacedAt(a, next, start, code, b, i)
    {
      assert ReplacedAt(a, k, start, before, b, i);
      assert SegmentStep(a, k, index, before, code, b, i);
      if b < |start| && i < |start[b]| { ReplaceOneMore(a, k, b, i, start[b][i].regs); }
    }
  }

  lemma NothingReplacedYet(f: Func, a: Alloc, code: Code)
    ensures ReplacedSoFar(f, a, 0, code, code)
  {
    forall b: nat, i: nat
      ensures ReplacedAt(a, 0, code, code, b, i)
    {
      if b < |code| && i < |code[b]| {
        assert ReplaceOps(a, 0, b, i, code[b][i].regs) == code[b][i].regs;
      }
    }
  }

  ghost predicate LoadPlacedAt(a: Alloc, start: Code, loaded: Code, b: nat, i: nat) {
    b < |start| && i < |start[b]| && b < |loaded| && i < |loaded[b]| ==>
      loaded[b][i] == start[b][i].(loads := start[b][i].loads + LoadOf(a, b, i))
  }

  /** The load goes before the first instruction of the first segment, and nowhere else. */
  lemma LoadPlaced(f: Func, a: Alloc, start: Code, loaded: Code)
    requires Shaped(f, start) && Applicable(f, a)
    requires loaded ==
             if a.bundle.srcStackSlot.Some? then
               var range := a.bundle.segments[0].range;
               var x := start[range.block][range.start.instr];
               SetAt(start, range.block, range.start.instr,
                     x.(loads := x.loads + [SlotMove(a.physicalReg, a.bundle.srcStackSlot.value)]))
             else start
    ensures forall b, i {:trigger LoadPlacedAt(a, start, loaded, b, i)} :: LoadPlacedAt(a, start, loaded, b, i)
  {
    forall b: nat, i: nat
      ensures LoadPlacedAt(a, start, loaded, b, i)
    {
      if b < |start| && i < |start[b]| {
        assert start[b][i].loads + [] == start[b][i].loads;
      }
    }
  }

  ghost predicate StorePlacedAt(a: Alloc, replaced: Code, code: Code, b: nat, i: nat) {
    b < |replaced| && i < |replaced[b]| && b < |code| && i < |code[b]| ==>
      code[b][i] == replaced[b][i].(stores := StoreOf(a, b, i) + replaced[b][i].stores)
  }

  lemma StorePlaced(f: Func, a: Alloc, replaced: Code, code: Code)
    requires Shaped(f, replaced) && Applicable(f, a)
    requires code ==
             if a.bundle.dstStackSlot.Some? then
               var range := a.bundle.segments[0].range;
               var x := replaced[range.block][range.end.instr];
               SetAt(replaced, range.block, range.end.instr,
                     x.(stores := [SlotMove(a.physicalReg, a.bundle.dstStackSlot.value)] + x.stores))
             else replaced
    ensures forall b, i {:trigger StorePlacedAt(a, replaced, code, b, i)} :: StorePlacedAt(a, replaced, code, b, i)
  {
    forall b: nat, i: nat
      ensures StorePlacedAt(a, replaced, code, b, i)
    {
      if b < |replaced| && i < |replaced[b]| {
        assert [] + replaced[b][i].stores == replaced[b][i].stores;
      }
    }
  }

  lemma AllocApplied(f: Func, a: Alloc, done: seq<Alloc>, start: Code, loaded: Code, replaced: Code, code: Code)
    requires Applicable(f, a) && CodeAfter(f, done, |done|, start)
    requires Shaped(f, loaded) && Shaped(f, replaced) && Shaped(f, code)
    requires forall b, i {:trigger LoadPlacedAt(a, start, loaded, b, i)} :: LoadPlacedAt(a, start, loaded, b, i)
    requires ReplacedSoFar(f, a, |a.bundle.segments|, loaded, replaced)
    requires forall b, i {:trigger StorePlacedAt(a, replaced, code, b, i)} :: StorePlacedAt(a, replaced, code, b, i)
    ensures CodeAfter(f, done + [a], |done| + 1, code)
  {
    var n, all := |done| + 1, done + [a];
    forall b: nat, i: nat
      ensures InstrAfter(f, all, n, code, b, i)
    {
      if b < |f.blocks| && i < |f.blocks[b].instrs| {
        assert InstrAfter(f, done, |done|, start, b, i);
        assert LoadPlacedAt(a, start, loaded, b, i);
        assert ReplacedAt(a, |a.bundle.segments|, loaded, replaced, b, i);
        assert StorePlacedAt(a, replaced, code, b, i);
        RewrittenPrefix(done, [a], |done|, b, i, f.blocks[b].instrs[i]);
      }
    }
  }

  lemma {:induction false} RewrittenPrefix(allocs: seq<Alloc>, more: seq<Alloc>, n: nat, b: nat, i: nat, instr: Instr)
    requires n <= |allocs|
    ensures Rewritten(allocs + more, n, b, i, instr) == Rewritten(allocs, n, b, i, instr)
  {
    if n > 0 {
      RewrittenPrefix(allocs, more, n - 1, b, i, instr);
      assert (allocs + more)[n - 1] == allocs[n - 1];
    }
  }

  // ---- Reading off the result ----

  /** The first allocation that replaces the operands of an instruction that name `v`. */
  function FirstReplacer(allocs: seq<Alloc>, n: nat, b: nat, i: nat, v: VirtualReg): Option<nat>
    requires n <= |allocs|
  {
    if n == 0 then None
    else
      var a := FirstReplacer(allocs, n - 1, b, i, v);
      if a.Some? then a else if Replaces(allocs[n - 1], b, i, v) then Some(n - 1) else None
  }

  lemma {:induction false} FirstReplacerReplaces(allocs: seq<Alloc>, n: nat, b: nat, i: nat, v: VirtualReg)
    requires n <= |allocs|
    ensures var a := FirstReplacer(allocs, n, b, i, v);
            && (a.Some? ==> a.value < n && Replaces(allocs[a.value], b, i, v))
            && (a.None? ==> forall k :: 0 <= k < n ==> !Replaces(allocs[k], b, i, v))
  {
    if n > 0 { FirstReplacerReplaces(allocs, n - 1, b, i, v); }
  }

  function LoadsBy(allocs: seq<Alloc>, n: nat, b: nat, i: nat): seq<SlotMove>
    requires n <= |allocs|
  {
    if n == 0 then [] else LoadsBy(allocs, n - 1, b, i) + LoadOf(allocs[n - 1], b, i)
  }

  function StoresBy(allocs: seq<Alloc>, n: nat, b: nat, i: nat): seq<SlotMove>
    requires n <= |allocs|
  {
    if n == 0 then [] else StoreOf(allocs[n - 1], b, i) + StoresBy(allocs, n - 1, b, i)
  }

  lemma AppliedParts(a: Alloc, b: nat, i: nat, x: RInstr)
    ensures var y := Applied(a, b, i, x);
            y.id == x.id && |y.regs| == |x.regs| && y.loads == x.loads + LoadOf(a, b, i) && y.stores == StoreOf(a, b, i) + x.stores
  {
  }

  lemma {:induction false} RewrittenParts(allocs: seq<Alloc>, n: nat, b: nat, i: nat, instr: Instr)
    requires n <= |allocs|
    ensures var x := Rewritten(allocs, n, b, i, instr);
            && x.id == instr.id && |x.regs| == |instr.regs|
            && x.loads == LoadsBy(allocs, n, b, i) && x.stores == StoresBy(allocs, n, b, i)
  {
    if n > 0 {
      RewrittenParts(allocs, n - 1, b, i, instr);
      AppliedParts(allocs[n - 1], b, i, Rewritten(allocs, n - 1, b, i, instr));
    }
  }

  /** The register operand `r` of an instruction is rewritten to. */
  function FinalReg(allocs: seq<Alloc>, n: nat, b: nat, i: nat, r: Reg): Reg
    requires n <= |allocs|
  {
    match r
    case Physical(p) => r
    case Virtual(v) =>
      var a := FirstReplacer(allocs, n, b, i, v);
      if a.Some? && a.value < |allocs| then Physical(allocs[a.value].physicalReg) else r
  }

  lemma FinalRegStep(allocs: seq<Alloc>, n: nat, b: nat, i: nat, r: Reg)
    requires 0 < n <= |allocs|
    ensures var a := allocs[n - 1];
            FinalReg(allocs, n, b, i, r) == ReplaceReg(a, |a.bundle.segments|, b, i, FinalReg(allocs, n - 1, b, i, r))
  {
    if r.Virtual? { FirstReplacerReplaces(allocs, n - 1, b, i, r.v); }
  }

  lemma AppliedOperand(allocs: seq<Alloc>, n: nat, b: nat, i: nat, x: RInstr, op: RegOp, j: nat)
    requires 0 < n <= |allocs| && j < |x.regs| && x.regs[j] == op.(reg := FinalReg(allocs, n - 1, b, i, op.reg))
    ensures var y := Applied(allocs[n - 1], b, i, x);
            |y.regs| == |x.regs| && y.regs[j] == op.(reg := FinalReg(allocs, n, b, i, op.reg))
  {
    FinalRegStep(allocs, n, b, i, op.reg);
  }

  lemma RewrittenStep(allocs: seq<Alloc>, n: nat, b: nat, i: nat, instr: Instr)
    requires 0 < n <= |allocs|
    ensures Rewritten(allocs, n, b, i, instr) == Applied(allocs[n - 1], b, i, Rewritten(allocs, n - 1, b, i, instr))
  {
  }

  ghost predicate OperandIs(x: RInstr, j: nat, op: RegOp) {
    j < |x.regs| && x.regs[j] == op
  }

  /** An operand ends up in the register of the first allocation that replaces it; the later ones no longer see it. */
  lemma {:induction false} RewrittenOperand(allocs: seq<Alloc>, n: nat, b: nat, i: nat, instr: Instr, j: nat)
    requires n <= |allocs| && j < |instr.regs|
    ensures OperandIs(Rewritten(allocs, n, b, i, instr), j, instr.regs[j].(reg := FinalReg(allocs, n, b, i, instr.regs[j].reg)))
  {
    if n > 0 {
      RewrittenOperand(allocs, n - 1, b, i, instr, j);
      AppliedOperand(allocs, n, b, i, Rewritten(allocs, n - 1, b, i, instr), instr.regs[j], j);
      RewrittenStep(allocs, n, b, i, instr);
    }
  }

  ghost predicate LoadedBy(allocs: seq<Alloc>, n: nat, b: nat, i: nat, move: SlotMove)
    requires n <= |allocs|
  {
    exists a :: 0 <= a < n && LoadsHere(allocs[a], b, i)
                && move == SlotMove(allocs[a].physicalReg, allocs[a].bundle.srcStackSlot.value)
  }

  lemma {:induction false} LoadsAre(allocs: seq<Alloc>, n: nat, b: nat, i: nat, move: SlotMove)
    requires n <= |allocs|
    ensures move in LoadsBy(allocs, n, b, i) <==> LoadedBy(allocs, n, b, i, move)
  {
    if n > 0 { LoadsAre(allocs, n - 1, b, i, move); }
  }

  ghost predicate MovesApart(moves: seq<SlotMove>) {
    forall j, k :: 0 <= j < k < |moves| ==> moves[j].reg != moves[k].reg
  }

  lemma MovesApartAppend(moves: seq<SlotMove>, move: SlotMove)
    requires MovesApart(moves) && forall m :: m in moves ==> m.reg != move.reg
    ensures MovesApart(moves + [move])
  {
    var all := moves + [move];
    forall j, k | 0 <= j < k < |all|
      ensures all[j].reg != all[k].reg
    {
      assert moves[j] in moves;
    }
  }

  /** Loads before one instruction go to different registers if the allocations that load there hold different ones. */
  lemma {:induction false} LoadsAreApart(allocs: seq<Alloc>, n: nat, b: nat, i: nat)
    requires n <= |allocs|
    requires forall j, k | 0 <= j < k < n :: LoadsHere(allocs[j], b, i) && LoadsHere(allocs[k], b, i) ==>
               allocs[j].physicalReg != allocs[k].physicalReg
    ensures MovesApart(LoadsBy(allocs, n, b, i))
  {
    if n > 0 {
      LoadsAreApart(allocs, n - 1, b, i);
      var before, last := LoadsBy(allocs, n - 1, b, i), allocs[n - 1];
      if LoadsHere(last, b, i) {
        var move := SlotMove(last.physicalReg, last.bundle.srcStackSlot.value);
        forall m | m in before
          ensures m.reg != move.reg
        {
          LoadsAre(allocs, n - 1, b, i, m);
          var a :| 0 <= a < n - 1 && LoadsHere(allocs[a], b, i)
            && m == SlotMove(allocs[a].physicalReg, allocs[a].bundle.srcStackSlot.value);
        }
        MovesApartAppend(before, move);
        assert LoadsBy(allocs, n, b, i) == before + [move];
      } else {
        assert LoadsBy(allocs, n, b, i) == before;
      }
    }
  }

  ghost predicate StoredBy(allocs: seq<Alloc>, n: nat, b: nat, i: nat, move: SlotMove)
    requires n <= |allocs|
  {
    exists a :: 0 <= a < n && StoresHere(allocs[a], b, i)
                && move == SlotMove(allocs[a].physicalReg, allocs[a].bundle.dstStackSlot.value)
  }

  lemma {:induction false} StoresAre(allocs: seq<Alloc>, n: nat, b: nat, i: nat, move: SlotMove)
    requires n <= |allocs|
    ensures move in StoresBy(allocs, n, b, i) <==> StoredBy(allocs, n, b, i, move)
  {
    if n > 0 { StoresAre(allocs, n - 1, b, i, move); }
  }
}
