/** The bundles born of spills: one per operand, each knowing its slot. */
module Spills {
  import opened RegAllocFunc
  import opened Bundles
  import opened Worklist

  /** Two operands that name `v` are both plain uses. */
  predicate WrittenOnce(instr: Instr, v: VirtualReg) {
    forall j, k | 0 <= j < k < |instr.regs| && instr.regs[j].reg == instr.regs[k].reg == Virtual(v) ::
      instr.regs[j].usage == Use && instr.regs[k].usage == Use
  }

  ghost predicate AllWrittenOnce(f: Func, v: VirtualReg) {
    forall b, i | 0 <= b < |f.blocks| && 0 <= i < |f.blocks[b].instrs| :: WrittenOnce(f.blocks[b].instrs[i], v)
  }

  ghost predicate RegsWrittenOnce(f: Func, b: Bundle) {
    forall v | v in RegsOf(b) :: AllWrittenOnce(f, v)
  }

  /** Among the registers of spilled bundles there is none that one instruction writes and names again. */
  ghost predicate SpillsWrittenOnce(f: Func, spilled: seq<Bundle>) {
    forall j | 0 <= j < |spilled| :: RegsWrittenOnce(f, spilled[j])
  }

  // ---- Counting ----

  lemma {:induction false} CountAtLeastTwo(q: seq<Bundle>, j: nat, k: nat, x: Bundle)
    requires j < k < |q| && q[j] == x && q[k] == x
    ensures Count(q, x) >= 2
  {
    if k == |q| - 1 {
      CountPositive(q[..k], x);
      assert q[..k][j] == x;
    } else {
      CountAtLeastTwo(q[..|q| - 1], j, k, x);
    }
  }

  lemma {:induction false} CountAtMostOne(q: seq<Bundle>, x: Bundle)
    requires forall j, k :: 0 <= j < k < |q| ==> q[j] != x || q[k] != x
    ensures Count(q, x) <= 1
  {
    if q != [] {
      var n := |q| - 1;
      CountAtMostOne(q[..n], x);
      CountPositive(q[..n], x);
    }
  }

  // ---- Bundles born of spills ----

  predicate HasSlot(x: Bundle, slot: StackSlotID) {
    (x.srcStackSlot == Some(slot) || x.dstStackSlot == Some(slot))
    && (x.srcStackSlot.Some? ==> x.srcStackSlot.value == slot) && (x.dstStackSlot.Some? ==> x.dstStackSlot.value == slot)
  }

  /** The origin of a born bundle. */
  lemma BornOrigin(f: Func, b: Bundle, slot: StackSlotID, x: Bundle) returns (k: nat, i: nat, j: nat)
    requires InFunc(f, b) && x in Born(f, b, slot)
    ensures k < |b.segments| && b.segments[k].range.start.instr <= i <= b.segments[k].range.end.instr
    ensures BornFrom(f, b.segments[k].reg, b.regClass, slot, b.segments[k].range.block, i, j, x)
    ensures HasSlot(x, slot) && !x.evictable
  {
    BornOfAre(f, b, slot, |b.segments|, x);
    var k': int :| 0 <= k' < |b.segments| && BornInSegment(f, b.segments[k'], b.regClass, slot, x);
    var s := b.segments[k'];
    var i': nat, j': nat :| s.range.start.instr <= i' <= s.range.end.instr
      && BornFrom(f, s.reg, b.regClass, slot, s.range.block, i', j', x);
    k, i, j := k', i', j';
  }

  ghost predicate BornFor(f: Func, b: Bundle, slot: StackSlotID, x: Bundle) {
    x in Born(f, b, slot)
  }

  ghost predicate BornForSome(f: Func, spilled: seq<Bundle>, base: StackSlotID, x: Bundle) {
    exists j :: 0 <= j < |spilled| && BornFor(f, spilled[j], base + j, x)
  }

  lemma BornForSomeAppend(f: Func, earlier: seq<Bundle>, last: Bundle, base: StackSlotID, x: Bundle)
    ensures BornForSome(f, earlier + [last], base, x) <==>
            BornForSome(f, earlier, base, x) || BornFor(f, last, base + |earlier|, x)
  {
    var all := earlier + [last];
    assert forall j :: 0 <= j < |earlier| ==> all[j] == earlier[j];
    assert all[|earlier|] == last;
    if BornForSome(f, earlier, base, x) {
      var j :| 0 <= j < |earlier| && BornFor(f, earlier[j], base + j, x);
      assert BornFor(f, all[j], base + j, x);
    }
    if BornFor(f, last, base + |earlier|, x) {
      assert BornFor(f, all[|earlier|], base + |earlier|, x);
    }
  }

  lemma BornAllAppendMember(f: Func, earlier: seq<Bundle>, last: Bundle, base: StackSlotID, x: Bundle)
    ensures x in BornAll(f, earlier + [last], base) <==>
            x in BornAll(f, earlier, base) || BornFor(f, last, base + |earlier|, x)
  {
    BornAllAppend(f, earlier, base, last);
  }

  lemma {:induction false} BornAllAre(f: Func, spilled: seq<Bundle>, base: StackSlotID, x: Bundle)
    ensures x in BornAll(f, spilled, base) <==> BornForSome(f, spilled, base, x)
  {
    if spilled != [] {
      var earlier, last := spilled[..|spilled| - 1], spilled[|spilled| - 1];
      assert spilled == earlier + [last];
      BornAllAre(f, earlier, base, x);
      BornAllAppendMember(f, earlier, last, base, x);
      BornForSomeAppend(f, earlier, last, base, x);
    }
  }

  predicate IsAt(x: Bundle, b: nat, i: nat, v: VirtualReg) {
    |x.segments| == 1 && x.segments[0].reg == v && x.segments[0].range.block == b && x.segments[0].range.start.instr == i
  }

  /** An operand of `v` among the first `k` that is not a plain use. */
  predicate WrittenBefore(ops: seq<RegOp>, v: VirtualReg, k: nat)
    requires k <= |ops|
  {
    exists j | 0 <= j < k :: ops[j].reg == Virtual(v) && ops[j].usage != Use
  }

  lemma WrittenAtMostOnce(instr: Instr, v: VirtualReg, k: nat)
    requires k < |instr.regs| && WrittenOnce(instr, v) && instr.regs[k].reg == Virtual(v)
    ensures !WrittenBefore(instr.regs, v, k)
  {
  }

  lemma BornBundleTells(b: nat, i: nat, v: VirtualReg, u: Usage, c: RegClass, slot: StackSlotID)
    requires u != Kill
    ensures var x := BornBundle(b, i, v, u, c, slot); IsAt(x, b, i, v) && (x.dstStackSlot.Some? <==> u != Use)
  {
  }

  /** One more operand counts only if the bundle is its own. */
  lemma BornOfOpsCount(b: nat, i: nat, ops: seq<RegOp>, v: VirtualReg, c: RegClass, slot: StackSlotID, k: nat, x: Bundle) returns (more: nat)
    requires 0 < k <= |ops| && x.dstStackSlot.Some?
    ensures Count(BornOfOps(b, i, ops, v, c, slot, k), x) == Count(BornOfOps(b, i, ops, v, c, slot, k - 1), x) + more
    ensures more <= 1 && (more == 1 ==> IsAt(x, b, i, v) && ops[k - 1].reg == Virtual(v) && ops[k - 1].usage != Use)
  {
    var op, before := ops[k - 1], BornOfOps(b, i, ops, v, c, slot, k - 1);
    if op.reg == Virtual(v) && op.usage != Kill {
      var y := BornBundle(b, i, v, op.usage, c, slot);
      BornBundleTells(b, i, v, op.usage, c, slot);
      CountConcat(before, [y], x);
      CountOne(y, x);
      more := if y == x then 1 else 0;
    } else {
      assert before + [] == before;
      more := 0;
    }
  }

  /** How many of the first `k` operands name `v` and are not plain uses. */
  function WritesOf(ops: seq<RegOp>, v: VirtualReg, k: nat): nat
    requires k <= |ops|
  {
    if k == 0 then 0 else WritesOf(ops, v, k - 1) + if ops[k - 1].reg == Virtual(v) && ops[k - 1].usage != Use then 1 else 0
  }

  lemma {:induction false} WritesTell(ops: seq<RegOp>, v: VirtualReg, k: nat)
    requires k <= |ops|
    ensures WritesOf(ops, v, k) > 0 ==> WrittenBefore(ops, v, k)
  {
    if k > 0 { WritesTell(ops, v, k - 1); }
  }

  lemma {:induction false} AtMostOneWrite(instr: Instr, v: VirtualReg, k: nat)
    requires k <= |instr.regs| && WrittenOnce(instr, v)
    ensures WritesOf(instr.regs, v, k) <= 1
  {
    if k > 0 {
      AtMostOneWrite(instr, v, k - 1);
      WritesTell(instr.regs, v, k - 1);
      if instr.regs[k - 1].reg == Virtual(v) { WrittenAtMostOnce(instr, v, k - 1); }
    }
  }

  lemma {:induction false} BornOfOpsWrite(b: nat, i: nat, ops: seq<RegOp>, v: VirtualReg, c: RegClass, slot: StackSlotID, k: nat, x: Bundle)
    requires k <= |ops| && x.dstStackSlot.Some?
    ensures Count(BornOfOps(b, i, ops, v, c, slot, k), x) <= if IsAt(x, b, i, v) then WritesOf(ops, v, k) else 0
  {
    if k > 0 {
      BornOfOpsWrite(b, i, ops, v, c, slot, k - 1, x);
      var more := BornOfOpsCount(b, i, ops, v, c, slot, k, x);
    }
  }

  /** A bundle that writes stands for one operand only. */
  lemma BornOfOpsOnce(b: nat, i: nat, instr: Instr, v: VirtualReg, c: RegClass, slot: StackSlotID, k: nat, x: Bundle)
    requires k <= |instr.regs| && WrittenOnce(instr, v) && x.dstStackSlot.Some?
    ensures Count(BornOfOps(b, i, instr.regs, v, c, slot, k), x) <= if IsAt(x, b, i, v) then 1 else 0
  {
    BornOfOpsWrite(b, i, instr.regs, v, c, slot, k, x);
    AtMostOneWrite(instr, v, k);
  }

  lemma BornOfInstrsCount(b: nat, instrs: seq<Instr>, v: VirtualReg, c: RegClass, slot: StackSlotID, lo: nat, hi: nat, x: Bundle)
    requires lo < hi <= |instrs|
    ensures Count(BornOfInstrs(b, instrs, v, c, slot, lo, hi), x) ==
            Count(BornOfInstrs(b, instrs, v, c, slot, lo, hi - 1), x)
            + Count(BornOfOps(b, hi - 1, instrs[hi - 1].regs, v, c, slot, |instrs[hi - 1].regs|), x)
  {
    CountConcat(BornOfInstrs(b, instrs, v, c, slot, lo, hi - 1),
                BornOfOps(b, hi - 1, instrs[hi - 1].regs, v, c, slot, |instrs[hi - 1].regs|), x);
  }

  predicate IsBetween(x: Bundle, b: nat, lo: nat, hi: nat, v: VirtualReg) {
    |x.segments| == 1 && lo <= x.segments[0].range.start.instr < hi && IsAt(x, b, x.segments[0].range.start.instr, v)
  }

  lemma {:induction false} BornOfInstrsOnce(b: nat, instrs: seq<Instr>, v: VirtualReg, c: RegClass, slot: StackSlotID,
                                            lo: nat, hi: nat, x: Bundle)
    requires lo <= hi <= |instrs| && x.dstStackSlot.Some?
    requires forall i | 0 <= i < |instrs| :: WrittenOnce(instrs[i], v)
    ensures Count(BornOfInstrs(b, instrs, v, c, slot, lo, hi), x) <= if IsBetween(x, b, lo, hi, v) then 1 else 0
    decreases hi
  {
    if lo < hi {
      BornOfInstrsOnce(b, instrs, v, c, slot, lo, hi - 1, x);
      BornOfInstrsCount(b, instrs, v, c, slot, lo, hi, x);
      BornOfOpsOnce(b, hi - 1, instrs[hi - 1], v, c, slot, |instrs[hi - 1].regs|, x);
    }
  }

  /** Segments of the same register never share an instruction. */
  ghost predicate SegmentsShareNothing(b: Bundle) {
    forall j, k | 0 <= j < k < |b.segments| :: ShareNothing(b.segments[j], b.segments[k])
  }

  ghost predicate ShareNothing(s: Segment, t: Segment) {
    s.reg == t.reg ==> forall b, i :: s.range.Spans(b, i) ==> !t.range.Spans(b, i)
  }

  predicate WithinSegment(x: Bundle, s: Segment) {
    |x.segments| == 1 && x.segments[0].reg == s.reg && s.range.Spans(x.segments[0].range.block, x.segments[0].range.start.instr)
  }

  lemma BornOfCount(f: Func, b: Bundle, slot: StackSlotID, n: nat, x: Bundle)
    requires 0 < n <= |b.segments|
    ensures Count(BornOf(f, b, slot, n), x) ==
            Count(BornOf(f, b, slot, n - 1), x) + Count(BornOfSegment(f, b.segments[n - 1], b.regClass, slot), x)
  {
    CountConcat(BornOf(f, b, slot, n - 1), BornOfSegment(f, b.segments[n - 1], b.regClass, slot), x);
  }

  lemma BornOfSegmentOnce(f: Func, b: Bundle, s: Segment, slot: StackSlotID, x: Bundle)
    requires InFunc(f, b) && s in b.segments && AllWrittenOnce(f, s.reg) && x.dstStackSlot.Some?
    ensures Count(BornOfSegment(f, s, b.regClass, slot), x) <= if WithinSegment(x, s) then 1 else 0
  {
    if s.range.start.instr <= s.range.end.instr {
      BornOfInstrsOnce(s.range.block, f.blocks[s.range.block].instrs, s.reg, b.regClass, slot,
                       s.range.start.instr, s.range.end.instr + 1, x);
    }
  }

  ghost predicate WithinEarlier(x: Bundle, b: Bundle, n: nat)
    requires n <= |b.segments|
  {
    exists k :: 0 <= k < n && WithinSegment(x, b.segments[k])
  }

  /** How many of the first `n` segments the bundle stands in. */
  function Hits(x: Bundle, b: Bundle, n: nat): nat
    requires n <= |b.segments|
  {
    if n == 0 then 0 else Hits(x, b, n - 1) + if WithinSegment(x, b.segments[n - 1]) then 1 else 0
  }

  lemma {:induction false} HitsTell(x: Bundle, b: Bundle, n: nat)
    requires n <= |b.segments|
    ensures Hits(x, b, n) > 0 ==> WithinEarlier(x, b, n)
  {
    if n > 0 { HitsTell(x, b, n - 1); }
  }

  lemma {:induction false} AtMostOneHit(x: Bundle, b: Bundle, n: nat)
    requires n <= |b.segments| && SegmentsShareNothing(b)
    ensures Hits(x, b, n) <= 1
  {
    if n > 0 {
      AtMostOneHit(x, b, n - 1);
      HitsTell(x, b, n - 1);
    }
  }

  lemma {:induction false} BornOfHits(f: Func, b: Bundle, slot: StackSlotID, n: nat, x: Bundle)
    requires InFunc(f, b) && RegsWrittenOnce(f, b) && n <= |b.segments| && x.dstStackSlot.Some?
    ensures Count(BornOf(f, b, slot, n), x) <= Hits(x, b, n)
  {
    if n > 0 {
      BornOfHits(f, b, slot, n - 1, x);
      BornOfCount(f, b, slot, n, x);
      BornOfSegmentOnce(f, b, b.segments[n - 1], slot, x);
    }
  }

  lemma BornOfOnce(f: Func, b: Bundle, slot: StackSlotID, n: nat, x: Bundle)
    requires InFunc(f, b) && RegsWrittenOnce(f, b) && SegmentsShareNothing(b) && n <= |b.segments| && x.dstStackSlot.Some?
    ensures Count(BornOf(f, b, slot, n), x) <= 1
  {
    BornOfHits(f, b, slot, n, x);
    AtMostOneHit(x, b, n);
  }

  lemma BornHasSlot(f: Func, b: Bundle, slot: StackSlotID, x: Bundle)
    requires InFunc(f, b)
    ensures Count(Born(f, b, slot), x) > 0 ==> HasSlot(x, slot)
  {
    CountPositive(Born(f, b, slot), x);
    if x in Born(f, b, slot) {
      var _, _, _ := BornOrigin(f, b, slot, x);
    }
  }

  ghost predicate Spillable(f: Func, b: Bundle) {
    InFunc(f, b) && SegmentsShareNothing(b)
  }

  lemma BornAllCount(f: Func, earlier: seq<Bundle>, last: Bundle, base: StackSlotID, x: Bundle)
    ensures Count(BornAll(f, earlier + [last], base), x) ==
            Count(BornAll(f, earlier, base), x) + Count(Born(f, last, base + |earlier|), x)
  {
    BornAllAppend(f, earlier, base, last);
    CountConcat(BornAll(f, earlier, base), Born(f, last, base + |earlier|), x);
  }

  lemma BornOnce(f: Func, b: Bundle, slot: StackSlotID, x: Bundle)
    requires x.dstStackSlot.Some?
    ensures Spillable(f, b) && RegsWrittenOnce(f, b) ==>
              Count(Born(f, b, slot), x) <= if x.dstStackSlot.value == slot then 1 else 0
  {
    if Spillable(f, b) && RegsWrittenOnce(f, b) {
      BornOfOnce(f, b, slot, |b.segments|, x);
      BornHasSlot(f, b, slot, x);
    }
  }

  lemma SumOnce(a: nat, b: nat, d: nat, n: nat)
    requires a <= (if d < n then 1 else 0) && b <= if d == n then 1 else 0
    ensures a + b <= if d < n + 1 then 1 else 0
  {
  }

  lemma OneMoreSpill(f: Func, earlier: seq<Bundle>, last: Bundle, base: StackSlotID, slot: StackSlotID, x: Bundle, a: nat)
    requires x.dstStackSlot.Some? && slot == base + |earlier| && Spillable(f, last) && RegsWrittenOnce(f, last)
    requires a == Count(BornAll(f, earlier, base), x) && a <= if x.dstStackSlot.value < slot then 1 else 0
    ensures Count(BornAll(f, earlier + [last], base), x) <= if x.dstStackSlot.value < slot + 1 then 1 else 0
  {
    var b := Count(Born(f, last, slot), x);
    BornAllCount(f, earlier, last, base, x);
    BornOnce(f, last, slot, x);
    SumOnce(a, b, x.dstStackSlot.value, slot);
  }

  lemma {:induction false} BornAllOnce(f: Func, spilled: seq<Bundle>, base: StackSlotID, x: Bundle)
    requires SpillsWrittenOnce(f, spilled) && x.dstStackSlot.Some?
    requires forall j | 0 <= j < |spilled| :: Spillable(f, spilled[j])
    ensures Count(BornAll(f, spilled, base), x) <= if x.dstStackSlot.value < base + |spilled| then 1 else 0
  {
    if spilled != [] {
      var earlier, last := spilled[..|spilled| - 1], spilled[|spilled| - 1];
      assert spilled == earlier + [last];
      BornAllOnce(f, earlier, base, x);
      OneMoreSpill(f, earlier, last, base, base + |earlier|, x, Count(BornAll(f, earlier, base), x));
    }
  }

  lemma BornOfSegmentUnevictable(f: Func, s: Segment, c: RegClass, slot: StackSlotID, x: Bundle)
    ensures x in BornOfSegment(f, s, c, slot) ==> !x.evictable
  {
    if s.range.block < |f.blocks| && s.range.start.instr <= s.range.end.instr < |f.blocks[s.range.block].instrs| {
      BornOfInstrsAre(f, s.range.block, s.reg, c, slot, s.range.start.instr, s.range.end.instr + 1, x);
    }
  }

  /** No spill produces an evictable bundle. */
  lemma {:induction false} BornOfUnevictable(f: Func, b: Bundle, slot: StackSlotID, n: nat, x: Bundle)
    requires n <= |b.segments|
    ensures x in BornOf(f, b, slot, n) ==> !x.evictable
  {
    if n > 0 {
      BornOfUnevictable(f, b, slot, n - 1, x);
      BornOfSegmentUnevictable(f, b.segments[n - 1], b.regClass, slot, x);
    }
  }

  lemma BornIsUnevictable(f: Func, b: Bundle, slot: StackSlotID, x: Bundle)
    ensures BornFor(f, b, slot, x) ==> !x.evictable
  {
    BornOfUnevictable(f, b, slot, |b.segments|, x);
  }

  lemma {:induction false} NoneBornEvictable(f: Func, spilled: seq<Bundle>, base: StackSlotID, x: Bundle)
    requires x.evictable
    ensures x !in BornAll(f, spilled, base)
  {
    if spilled != [] {
      var earlier, last := spilled[..|spilled| - 1], spilled[|spilled| - 1];
      NoneBornEvictable(f, earlier, base, x);
      BornIsUnevictable(f, last, base + |earlier|, x);
    }
  }

  /** `x` was born of operand `(i, op)`, which lies in segment `k` of the `j`-th spill. */
  ghost predicate OriginAt(f: Func, spilled: seq<Bundle>, base: StackSlotID, x: Bundle, j: nat, k: nat, i: nat, op: nat) {
    && j < |spilled| && k < |spilled[j].segments|
    && spilled[j].segments[k].range.start.instr <= i <= spilled[j].segments[k].range.end.instr
    && BornFrom(f, spilled[j].segments[k].reg, spilled[j].regClass, base + j, spilled[j].segments[k].range.block, i, op, x)
  }

  lemma OriginOf(f: Func, spilled: seq<Bundle>, base: StackSlotID, x: Bundle) returns (j: nat, k: nat, i: nat, op: nat)
    requires BornForSome(f, spilled, base, x)
    requires forall n | 0 <= n < |spilled| :: Spillable(f, spilled[n])
    ensures OriginAt(f, spilled, base, x, j, k, i, op)
  {
    var j' :| 0 <= j' < |spilled| && BornFor(f, spilled[j'], base + j', x);
    assert Spillable(f, spilled[j']);
    j := j';
    k, i, op := BornOrigin(f, spilled[j], base + j, x);
  }

  /** An operand inside a spilled segment of its register gets a bundle of its own. */
  lemma SpannedOperandIsBorn(f: Func, b: Bundle, slot: StackSlotID, k: nat, block: nat, i: nat, j: nat)
    requires InFunc(f, b) && k < |b.segments| && b.segments[k].range.Spans(block, i)
    requires block < |f.blocks| && i < |f.blocks[block].instrs| && j < |f.blocks[block].instrs[i].regs|
    requires var op := f.blocks[block].instrs[i].regs[j]; op.reg == Virtual(b.segments[k].reg) && op.usage != Kill
    ensures BornFor(f, b, slot, BornBundle(block, i, b.segments[k].reg, f.blocks[block].instrs[i].regs[j].usage, b.regClass, slot))
  {
    var x := BornBundle(block, i, b.segments[k].reg, f.blocks[block].instrs[i].regs[j].usage, b.regClass, slot);
    assert BornFrom(f, b.segments[k].reg, b.regClass, slot, block, i, j, x);
    assert BornInSegment(f, b.segments[k], b.regClass, slot, x);
    BornOfAre(f, b, slot, |b.segments|, x);
  }
}
