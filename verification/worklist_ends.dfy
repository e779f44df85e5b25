/** When the worklist ends (src/banjo/codegen/reg_alloc_pass.cpp, the loop of run): exactly when spill code always fits. */
module WorklistEnds {
  import opened RegAllocFunc
  import opened Bundles
  import opened Worklist
  import opened AllocContext
  import opened Spills

  /** Entry `k` of the queue may not be evicted, and finds neither a register nor a victim. */
  ghost predicate StuckAt(fx: Fixed, s: Ctx, k: nat) {
    k < |s.bundles| && !s.bundles[k].evictable && ChosenReg(fx, s.allocs, s.bundles[k]).None? && Victim(s.allocs, s.bundles[k]).None?
  }

  ghost predicate Stuck(fx: Fixed, s: Ctx) {
    exists k: nat :: StuckAt(fx, s, k)
  }

  lemma StuckIff(fx: Fixed, s: Ctx)
    ensures Stuck(fx, s) <==> !NoBornBundleStuck(fx, s)
  {
    if !NoBornBundleStuck(fx, s) {
      var k: int :| 0 <= k < |s.bundles| && !s.bundles[k].evictable
        && !(ChosenReg(fx, s.allocs, s.bundles[k]).Some? || Victim(s.allocs, s.bundles[k]).Some?);
      assert StuckAt(fx, s, k);
    }
  }

  /** `x` stands for some operand of the function. */
  ghost predicate IsBorn(f: Func, x: Bundle) {
    exists v, c, slot, b: nat, i: nat, j: nat :: BornFrom(f, v, c, slot, b, i, j, x)
  }

  ghost predicate WaitingAreBorn(f: Func, s: Ctx) {
    forall k | 0 <= k < |s.bundles| :: s.bundles[k].evictable || IsBorn(f, s.bundles[k])
  }

  /** What all states of a run have in common. */
  ghost predicate Sane(fx: Fixed, legal: (RegClass, PhysicalReg) -> bool, s: Ctx) {
    Safe(fx, legal, s) && CtxInFunc(fx.f, s) && WaitingAreBorn(fx.f, s)
  }

  lemma BornAreBorn(f: Func, b: Bundle, slot: StackSlotID, x: Bundle)
    requires InFunc(f, b) && x in Born(f, b, slot)
    ensures IsBorn(f, x)
  {
    var k, i, j := BornOrigin(f, b, slot, x);
  }

  lemma StepKeepsWaiting(fx: Fixed, s: Ctx, k: nat)
    requires k < |s.bundles| && WaitingAreBorn(fx.f, s) && InFunc(fx.f, s.bundles[k])
    ensures WaitingAreBorn(fx.f, StepAt(fx, s, k))
  {
    var s', born := StepAt(fx, s, k), Born(fx.f, s.bundles[k], s.nextSlot);
    StepAtIs(fx, s, k);
    FirstEvictableCanBeEvicted(s.allocs, s.bundles[k], 0);
    forall n | 0 <= n < |born|
      ensures IsBorn(fx.f, born[n])
    {
      BornAreBorn(fx.f, s.bundles[k], s.nextSlot, born[n]);
    }
  }

  lemma StepKeepsSane(fx: Fixed, legal: (RegClass, PhysicalReg) -> bool, s: Ctx, k: nat)
    requires LegalRegs(fx, legal) && k < |s.bundles|
    ensures Sane(fx, legal, s) ==> Sane(fx, legal, StepAt(fx, s, k))
  {
    if Sane(fx, legal, s) {
      assert Step(fx, s, StepAt(fx, s, k));
      StepKeepsSafe(fx, legal, s, StepAt(fx, s, k));
      StepKeepsWaiting(fx, s, k);
    }
  }

  // ---- A stuck bundle comes back ----

  /** Whether a bundle finds a register or a victim depends on its segments and class. */
  lemma {:induction false} FirstPossibleSame(fx: Fixed, allocs: seq<Alloc>, x: Bundle, y: Bundle, regs: seq<PhysicalReg>)
    requires x.segments == y.segments
    ensures FirstPossible(fx, allocs, x, regs) == FirstPossible(fx, allocs, y, regs)
  {
    if regs != [] { FirstPossibleSame(fx, allocs, x, y, regs[1..]); }
  }

  lemma {:induction false} FirstEvictableSame(allocs: seq<Alloc>, x: Bundle, y: Bundle, k: nat)
    requires x.segments == y.segments && x.regClass == y.regClass && k <= |allocs|
    ensures FirstEvictable(allocs, x, k) == FirstEvictable(allocs, y, k)
    decreases |allocs| - k
  {
    if k < |allocs| {
      assert CanEvict(x, allocs[k]) == CanEvict(y, allocs[k]);
      FirstEvictableSame(allocs, x, y, k + 1);
    }
  }

  /** Spilling a bundle that was born of a spill recreates it, with a slot of its own. */
  lemma Recreated(f: Func, x: Bundle, slot: StackSlotID) returns (y: Bundle)
    requires IsBorn(f, x) && InFunc(f, x)
    ensures y in Born(f, x, slot) && !y.evictable && y.segments == x.segments && y.regClass == x.regClass && HasSlot(y, slot)
  {
    var v, c, old_, b: nat, i: nat, j: nat :| BornFrom(f, v, c, old_, b, i, j, x);
    var u := f.blocks[b].instrs[i].regs[j].usage;
    BornBundleShape(b, i, v, u, c, old_);
    y := BornBundle(b, i, v, u, c, slot);
    SpannedOperandIsBorn(f, x, slot, 0, b, i, j);
    assert BornFor(f, x, slot, y);
  }

  /** So the step that spills it leads to another stuck state. */
  lemma StuckAgain(fx: Fixed, legal: (RegClass, PhysicalReg) -> bool, s: Ctx, k: nat)
    requires Sane(fx, legal, s) && StuckAt(fx, s, k)
    ensures Stuck(fx, StepAt(fx, s, k))
  {
    var x := s.bundles[k];
    var y := Recreated(fx.f, x, s.nextSlot);
    var s' := StepAt(fx, s, k);
    StepAtIs(fx, s, k);
    var born := Born(fx.f, x, s.nextSlot);
    var n :| 0 <= n < |born| && born[n] == y;
    assert s'.bundles[|Remove(s.bundles, k)| + n] == y;
    FirstPossibleSame(fx, s.allocs, x, y, fx.analyzer.suggest(x.segments));
    FirstPossibleSame(fx, s.allocs, x, y, fx.analyzer.candidates(x.regClass));
    FirstEvictableSame(s.allocs, x, y, 0);
    assert StuckAt(fx, s', |Remove(s.bundles, k)| + n);
  }

  ghost predicate RunOf(fx: Fixed, s0: Ctx, run: seq<Ctx>) {
    Run(fx, run) && run[0] == s0
  }

  lemma {:induction false} EndlessFromStuck(fx: Fixed, legal: (RegClass, PhysicalReg) -> bool, s: Ctx, n: nat) returns (run: seq<Ctx>)
    requires LegalRegs(fx, legal) && Sane(fx, legal, s) && Stuck(fx, s)
    ensures RunOf(fx, s, run) && |run| == n + 1
    decreases n
  {
    run := [s];
    if n > 0 {
      var k: nat :| StuckAt(fx, s, k);
      StepKeepsSane(fx, legal, s, k);
      StuckAgain(fx, legal, s, k);
      var rest := EndlessFromStuck(fx, legal, StepAt(fx, s, k), n - 1);
      run := [s] + rest;
      RunExtends(fx, s, rest);
    }
  }

  lemma RunExtends(fx: Fixed, s: Ctx, rest: seq<Ctx>)
    requires Run(fx, rest) && Step(fx, s, rest[0])
    ensures Run(fx, [s] + rest)
  {
    var run := [s] + rest;
    forall k | 0 <= k < |run| - 1
      ensures Step(fx, run[k], run[k + 1])
    {
      if k > 0 { assert Step(fx, rest[k - 1], rest[k - 1 + 1]); }
    }
  }

  lemma RunsJoin(fx: Fixed, run: seq<Ctx>, more: seq<Ctx>)
    requires Run(fx, run) && Run(fx, more) && run[|run| - 1] == more[0]
    ensures Run(fx, run + more[1..])
  {
    var all := run + more[1..];
    forall k | 0 <= k < |all| - 1
      ensures Step(fx, all[k], all[k + 1])
    {
      if k >= |run| - 1 {
        var j := k - (|run| - 1);
        assert all[k] == more[j] && all[k + 1] == more[j + 1];
      }
    }
  }

  lemma AnyStepKeepsSane(fx: Fixed, legal: (RegClass, PhysicalReg) -> bool, s: Ctx, s': Ctx)
    requires LegalRegs(fx, legal) && Step(fx, s, s')
    ensures Sane(fx, legal, s) ==> Sane(fx, legal, s')
  {
    var j: int :| 0 <= j < |s.bundles| && s' == StepAt(fx, s, j);
    if Sane(fx, legal, s) { StepKeepsSane(fx, legal, s, j); }
  }

  lemma SaneThroughout(fx: Fixed, legal: (RegClass, PhysicalReg) -> bool, run: seq<Ctx>, k: nat)
    requires LegalRegs(fx, legal) && Run(fx, run) && k < |run| && Sane(fx, legal, run[0])
    ensures Sane(fx, legal, run[k])
  {
    var inv: Ctx -> bool := s => Sane(fx, legal, s);
    forall s, s' | inv(s) && Step(fx, s, s')
      ensures inv(s')
    {
      AnyStepKeepsSane(fx, legal, s, s');
    }
    RunKeeps(fx, inv, run, k);
  }

  /** A stuck state that can be reached is the beginning of runs that go on for as long as one likes. */
  lemma StuckRunsForever(fx: Fixed, legal: (RegClass, PhysicalReg) -> bool, s0: Ctx, s: Ctx, n: nat) returns (run: seq<Ctx>)
    requires LegalRegs(fx, legal) && Sane(fx, legal, s0) && ReachableCtx(fx, s0, s) && Stuck(fx, s)
    ensures RunOf(fx, s0, run) && |run| > n
  {
    var start :| Run(fx, start) && start[0] == s0 && start[|start| - 1] == s;
    SaneThroughout(fx, legal, start, |start| - 1);
    var more := EndlessFromStuck(fx, legal, s, n);
    RunsJoin(fx, start, more);
    run := start + more[1..];
  }

  // ---- Otherwise all runs end ----

  ghost predicate NeverStuck(fx: Fixed, s0: Ctx) {
    forall s :: ReachableCtx(fx, s0, s) ==> NoBornBundleStuck(fx, s)
  }

  lemma NeverStuckAfter(fx: Fixed, s: Ctx, k: nat)
    requires NeverStuck(fx, s) && k < |s.bundles|
    ensures NeverStuck(fx, StepAt(fx, s, k)) && NoBornBundleStuck(fx, s)
  {
    ReachableAtOnce(fx, s);
    forall t | ReachableCtx(fx, StepAt(fx, s, k), t)
      ensures NoBornBundleStuck(fx, t)
    {
      var run :| Run(fx, run) && run[0] == StepAt(fx, s, k) && run[|run| - 1] == t;
      RunExtends(fx, s, run);
      var longer := [s] + run;
      assert longer[|longer| - 1] == t;
      assert ReachableCtx(fx, s, t);
    }
  }

  ghost predicate RunsWithin(fx: Fixed, s: Ctx, bound: nat) {
    forall run :: RunOf(fx, s, run) ==> |run| <= bound
  }

  /** Runs whose first step pops one of the first `n` entries. */
  ghost predicate RunsWithinFrom(fx: Fixed, s: Ctx, n: nat, bound: nat) {
    forall run :: RunOf(fx, s, run) && |run| > 1 && PopsBefore(fx, s, n, run[1]) ==> |run| <= bound
  }

  ghost predicate PopsBefore(fx: Fixed, s: Ctx, n: nat, next: Ctx) {
    exists k: nat :: k < n && k < |s.bundles| && next == StepAt(fx, s, k)
  }

  lemma RunTail(fx: Fixed, run: seq<Ctx>)
    requires Run(fx, run) && |run| > 1
    ensures RunOf(fx, run[1], run[1..])
  {
    var tail := run[1..];
    forall k | 0 <= k < |tail| - 1
      ensures Step(fx, tail[k], tail[k + 1])
    {
      assert tail[k] == run[k + 1] && tail[k + 1] == run[k + 2];
    }
  }

  lemma RunsWithinOneMore(fx: Fixed, s: Ctx, k: nat, earlier: nat, later: nat)
    requires k < |s.bundles| && RunsWithinFrom(fx, s, k, earlier) && RunsWithin(fx, StepAt(fx, s, k), later)
    ensures RunsWithinFrom(fx, s, k + 1, earlier + later + 1)
  {
    forall run | RunOf(fx, s, run) && |run| > 1 && PopsBefore(fx, s, k + 1, run[1])
      ensures |run| <= earlier + later + 1
    {
      RunTail(fx, run);
      var j: nat :| j < k + 1 && j < |s.bundles| && run[1] == StepAt(fx, s, j);
      if j == k {
        assert RunOf(fx, StepAt(fx, s, k), run[1..]);
      } else {
        assert PopsBefore(fx, s, k, run[1]);
      }
    }
  }

  lemma {:induction false} AllRunsEnd(fx: Fixed, legal: (RegClass, PhysicalReg) -> bool, s: Ctx) returns (bound: nat)
    requires LegalRegs(fx, legal) && Sane(fx, legal, s) && NeverStuck(fx, s)
    ensures RunsWithin(fx, s, bound)
    decreases Chances(s), Fixedly(s), |s.bundles|, |s.bundles| + 1
  {
    EvictablesBound(s.bundles);
    bound := RunsEndFrom(fx, legal, s, |s.bundles|);
    bound := bound + 1;
    forall run | RunOf(fx, s, run)
      ensures |run| <= bound
    {
      if |run| > 1 {
        assert Step(fx, run[0], run[0 + 1]);
        var k: int :| 0 <= k < |s.bundles| && run[1] == StepAt(fx, s, k);
        assert PopsBefore(fx, s, |s.bundles|, run[1]);
      }
    }
  }

  lemma {:induction false} RunsEndFrom(fx: Fixed, legal: (RegClass, PhysicalReg) -> bool, s: Ctx, n: nat) returns (bound: nat)
    requires LegalRegs(fx, legal) && Sane(fx, legal, s) && NeverStuck(fx, s) && n <= |s.bundles|
    ensures RunsWithinFrom(fx, s, n, bound)
    decreases Chances(s), Fixedly(s), |s.bundles|, n
  {
    EvictablesBound(s.bundles);
    bound := 0;
    if n > 0 {
      var k := n - 1;
      var earlier := RunsEndFrom(fx, legal, s, k);
      NeverStuckAfter(fx, s, k);
      StepDecreases(fx, s, k);
      StepKeepsSane(fx, legal, s, k);
      EvictablesBound(StepAt(fx, s, k).bundles);
      var later := AllRunsEnd(fx, legal, StepAt(fx, s, k));
      bound := earlier + later + 1;
      RunsWithinOneMore(fx, s, k, earlier, later);
    }
  }

  ghost predicate RunsEnd(fx: Fixed, s0: Ctx) {
    exists bound: nat :: RunsWithin(fx, s0, bound)
  }

  /** There is a bound on the length of all runs if and only if no run gets to a state where a born bundle is stuck. */
  lemma RunsEndIff(fx: Fixed, legal: (RegClass, PhysicalReg) -> bool, s0: Ctx)
    requires LegalRegs(fx, legal) && Sane(fx, legal, s0)
    ensures RunsEnd(fx, s0) <==> NeverStuck(fx, s0)
  {
    if NeverStuck(fx, s0) {
      var bound := AllRunsEnd(fx, legal, s0);
    } else {
      var s :| ReachableCtx(fx, s0, s) && !NoBornBundleStuck(fx, s);
      StuckIff(fx, s);
      forall bound: nat
        ensures !RunsWithin(fx, s0, bound)
      {
        var run := StuckRunsForever(fx, legal, s0, s, bound);
        assert RunOf(fx, s0, run);
      }
    }
  }
}
