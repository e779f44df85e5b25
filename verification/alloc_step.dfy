/**
  What allocating one bundle comes to, told from the registers that are free and the allocations that can give way
  (src/banjo/codegen/reg_alloc_pass.cpp:266-383).
 */
module AllocStep {
  import opened RegAllocFunc
  import opened Bundles
  import opened Worklist

  // ---- Free registers ----

  /** Neither the function itself nor another bundle has the register at the point with value `w` of block `c`. */
  ghost predicate FreeAt(fx: Fixed, allocs: seq<Alloc>, p: PhysicalReg, c: nat, w: nat) {
    && (forall s | c < |fx.reserved| && s in fx.reserved[c] && s.reg == p :: !s.range.Covers(c, w))
    && forall a, s | a in allocs && a.physicalReg == p && s in a.bundle.segments :: !s.range.Covers(c, w)
  }

  ghost predicate FreeThroughout(fx: Fixed, allocs: seq<Alloc>, b: Bundle, p: PhysicalReg) {
    forall s, w {:trigger FreeAt(fx, allocs, p, s.range.block, w)} | s in b.segments && s.range.Covers(s.range.block, w) ::
      FreeAt(fx, allocs, p, s.range.block, w)
  }

  ghost predicate ReservedWellFormed(fx: Fixed) {
    forall c, s | 0 <= c < |fx.reserved| && s in fx.reserved[c] :: s.range.WellFormed() && s.range.block == c
  }

  ghost predicate AllocsWellFormed(allocs: seq<Alloc>) {
    forall a, s | a in allocs && s in a.bundle.segments :: s.range.WellFormed()
  }

  lemma ReservedMeets(fx: Fixed, b: Bundle, s: Segment, t: ReservedSegment, p: PhysicalReg)
    requires s in b.segments && s.range.block < |fx.reserved| && t in fx.reserved[s.range.block] && t.reg == p
    requires s.range.Intersects(t.range)
    ensures MeetsReserved(fx.reserved, b, p)
  {
    var k :| 0 <= k < |b.segments| && b.segments[k] == s;
    var l :| 0 <= l < |fx.reserved[s.range.block]| && fx.reserved[s.range.block][l] == t;
  }

  lemma AllocMeets(allocs: seq<Alloc>, b: Bundle, s: Segment, a: Alloc, t: Segment)
    requires s in b.segments && a in allocs && t in a.bundle.segments && t.range.Intersects(s.range)
    ensures MeetsAlloc(allocs, b, a.physicalReg)
  {
    var k :| 0 <= k < |b.segments| && b.segments[k] == s;
    var n :| 0 <= n < |allocs| && allocs[n] == a;
    var l :| 0 <= l < |a.bundle.segments| && a.bundle.segments[l] == t;
    assert Clash(allocs[n].bundle, b);
  }

  lemma SharedPointIntersects(x: LiveRange, y: LiveRange, c: nat, w: nat)
    requires x.Covers(c, w) && y.Covers(c, w)
    ensures x.Intersects(y) && y.Intersects(x)
  {
  }

  lemma PossibleIsFree(fx: Fixed, allocs: seq<Alloc>, b: Bundle, p: PhysicalReg, s: Segment, w: nat)
    requires AllocPossible(fx, allocs, b, p) && s in b.segments && s.range.Covers(s.range.block, w)
    ensures FreeAt(fx, allocs, p, s.range.block, w)
  {
    var c := s.range.block;
    forall t | c < |fx.reserved| && t in fx.reserved[c] && t.reg == p
      ensures !t.range.Covers(c, w)
    {
      if t.range.Covers(c, w) {
        SharedPointIntersects(s.range, t.range, c, w);
        ReservedMeets(fx, b, s, t, p);
      }
    }
    forall a, t | a in allocs && a.physicalReg == p && t in a.bundle.segments
      ensures !t.range.Covers(c, w)
    {
      if t.range.Covers(c, w) {
        SharedPointIntersects(s.range, t.range, c, w);
        AllocMeets(allocs, b, s, a, t);
      }
    }
  }

  lemma NoSharedPoint(x: LiveRange, y: LiveRange)
    requires x.WellFormed() && y.WellFormed() && forall w | x.Covers(x.block, w) :: !y.Covers(x.block, w)
    ensures !x.Intersects(y) && !y.Intersects(x)
  {
    IntersectsMeansSharedPoint(x, y);
    IntersectsMeansSharedPoint(y, x);
  }

  lemma FreeMissesReserved(fx: Fixed, allocs: seq<Alloc>, b: Bundle, p: PhysicalReg)
    requires FreeThroughout(fx, allocs, b, p) && WellShaped(b) && ReservedWellFormed(fx)
    ensures !MeetsReserved(fx.reserved, b, p)
  {
    forall k, t | 0 <= k < |b.segments| && b.segments[k].range.block < |fx.reserved|
        && t in fx.reserved[b.segments[k].range.block] && t.reg == p
      ensures !b.segments[k].range.Intersects(t.range)
    {
      var s := b.segments[k];
      forall w | s.range.Covers(s.range.block, w)
        ensures !t.range.Covers(s.range.block, w)
      {
        assert FreeAt(fx, allocs, p, s.range.block, w);
      }
      NoSharedPoint(s.range, t.range);
    }
  }

  lemma FreeMissesAllocs(fx: Fixed, allocs: seq<Alloc>, b: Bundle, p: PhysicalReg)
    requires FreeThroughout(fx, allocs, b, p) && WellShaped(b) && AllocsWellFormed(allocs)
    ensures !MeetsAlloc(allocs, b, p)
  {
    forall n, j, k | 0 <= n < |allocs| && allocs[n].physicalReg == p && 0 <= j < |allocs[n].bundle.segments| && 0 <= k < |b.segments|
      ensures !allocs[n].bundle.segments[j].range.Intersects(b.segments[k].range)
    {
      var s, t := b.segments[k], allocs[n].bundle.segments[j];
      assert allocs[n] in allocs && t in allocs[n].bundle.segments;
      forall w | s.range.Covers(s.range.block, w)
        ensures !t.range.Covers(s.range.block, w)
      {
        assert FreeAt(fx, allocs, p, s.range.block, w);
      }
      NoSharedPoint(s.range, t.range);
    }
  }

  /** A register is possible exactly if it is free at every point the bundle covers. */
  lemma PossibleIffFree(fx: Fixed, allocs: seq<Alloc>, b: Bundle, p: PhysicalReg)
    requires WellShaped(b) && ReservedWellFormed(fx) && AllocsWellFormed(allocs)
    ensures AllocPossible(fx, allocs, b, p) <==> FreeThroughout(fx, allocs, b, p)
  {
    if AllocPossible(fx, allocs, b, p) {
      forall s, w {:trigger FreeAt(fx, allocs, p, s.range.block, w)} | s in b.segments && s.range.Covers(s.range.block, w)
        ensures FreeAt(fx, allocs, p, s.range.block, w)
      {
        PossibleIsFree(fx, allocs, b, p, s, w);
      }
    }
    if FreeThroughout(fx, allocs, b, p) {
      FreeMissesReserved(fx, allocs, b, p);
      FreeMissesAllocs(fx, allocs, b, p);
    }
  }

  // ---- One bundle ----

  /** The registers a bundle may get, in the order of preference. */
  ghost function Wishes(fx: Fixed, b: Bundle): seq<PhysicalReg> {
    fx.analyzer.suggest(b.segments) + fx.analyzer.candidates(b.regClass)
  }

  ghost predicate FirstWish(fx: Fixed, allocs: seq<Alloc>, b: Bundle, k: nat) {
    && k < |Wishes(fx, b)| && AllocPossible(fx, allocs, b, Wishes(fx, b)[k])
    && forall j | 0 <= j < k :: !AllocPossible(fx, allocs, b, Wishes(fx, b)[j])
  }

  ghost predicate NoWish(fx: Fixed, allocs: seq<Alloc>, b: Bundle) {
    forall j | 0 <= j < |Wishes(fx, b)| :: !AllocPossible(fx, allocs, b, Wishes(fx, b)[j])
  }

  ghost predicate FirstToGiveWay(allocs: seq<Alloc>, b: Bundle, v: nat) {
    !b.evictable && v < |allocs| && CanEvict(b, allocs[v]) && forall j | 0 <= j < v :: !CanEvict(b, allocs[j])
  }

  ghost predicate NobodyGivesWay(allocs: seq<Alloc>, b: Bundle) {
    b.evictable || forall j | 0 <= j < |allocs| :: !CanEvict(b, allocs[j])
  }

  /** The bundle gets the first register that is free; else the first allocation gives way that can; else it is spilled. */
  ghost predicate Treated(fx: Fixed, s: Ctx, b: Bundle, s': Ctx) {
    && (forall k: nat | FirstWish(fx, s.allocs, b, k) ::
          s' == Ctx(s.bundles, s.allocs + [Alloc(Wishes(fx, b)[k], b)], s.nextSlot))
    && (NoWish(fx, s.allocs, b) ==> forall v: nat | FirstToGiveWay(s.allocs, b, v) ::
          s' == Ctx(s.bundles + [s.allocs[v].bundle], s.allocs[v := Alloc(s.allocs[v].physicalReg, b)], s.nextSlot))
    && (NoWish(fx, s.allocs, b) && NobodyGivesWay(s.allocs, b) ==>
          s' == Ctx(s.bundles + Born(fx.f, b, s.nextSlot), s.allocs, s.nextSlot + 1))
  }

  lemma {:induction false} FirstPossibleTells(fx: Fixed, allocs: seq<Alloc>, b: Bundle, regs: seq<PhysicalReg>, k: nat)
    requires k < |regs| && AllocPossible(fx, allocs, b, regs[k]) && forall j | 0 <= j < k :: !AllocPossible(fx, allocs, b, regs[j])
    ensures FirstPossible(fx, allocs, b, regs) == Some(regs[k])
  {
    if k > 0 { FirstPossibleTells(fx, allocs, b, regs[1..], k - 1); }
  }

  lemma ChosenIsFirst(fx: Fixed, allocs: seq<Alloc>, b: Bundle, k: nat)
    requires FirstWish(fx, allocs, b, k)
    ensures ChosenReg(fx, allocs, b) == Some(Wishes(fx, b)[k])
  {
    var suggested, candidates := fx.analyzer.suggest(b.segments), fx.analyzer.candidates(b.regClass);
    if k < |suggested| {
      forall j | 0 <= j < k
        ensures !AllocPossible(fx, allocs, b, suggested[j])
      {
        assert Wishes(fx, b)[j] == suggested[j];
      }
      FirstPossibleTells(fx, allocs, b, suggested, k);
    } else {
      forall j | 0 <= j < |suggested|
        ensures !AllocPossible(fx, allocs, b, suggested[j])
      {
        assert Wishes(fx, b)[j] == suggested[j];
      }
      forall j | 0 <= j < k - |suggested|
        ensures !AllocPossible(fx, allocs, b, candidates[j])
      {
        assert Wishes(fx, b)[|suggested| + j] == candidates[j];
      }
      FirstPossibleIsPossible(fx, allocs, b, suggested);
      FirstPossibleTells(fx, allocs, b, candidates, k - |suggested|);
    }
  }

  lemma NoneIsChosen(fx: Fixed, allocs: seq<Alloc>, b: Bundle)
    ensures ChosenReg(fx, allocs, b).None? <==> NoWish(fx, allocs, b)
  {
    var suggested, candidates := fx.analyzer.suggest(b.segments), fx.analyzer.candidates(b.regClass);
    FirstPossibleIsPossible(fx, allocs, b, suggested);
    FirstPossibleIsPossible(fx, allocs, b, candidates);
    if ChosenReg(fx, allocs, b).Some? {
      var p := ChosenReg(fx, allocs, b).value;
      assert p in Wishes(fx, b);
    }
  }

  lemma {:induction false} FirstEvictableTells(allocs: seq<Alloc>, b: Bundle, k: nat, v: nat)
    requires k <= v < |allocs| && CanEvict(b, allocs[v]) && forall j | k <= j < v :: !CanEvict(b, allocs[j])
    ensures FirstEvictable(allocs, b, k) == Some(v)
    decreases v - k
  {
    if k < v { FirstEvictableTells(allocs, b, k + 1, v); }
  }

  lemma VictimTells(allocs: seq<Alloc>, b: Bundle)
    ensures forall v: nat | FirstToGiveWay(allocs, b, v) :: Victim(allocs, b) == Some(v)
    ensures Victim(allocs, b).None? <==> NobodyGivesWay(allocs, b)
  {
    forall v: nat | FirstToGiveWay(allocs, b, v)
      ensures Victim(allocs, b) == Some(v)
    {
      FirstEvictableTells(allocs, b, 0, v);
    }
    FirstEvictableCanBeEvicted(allocs, b, 0);
  }

  /** The step of the worklist does this. */
  lemma BundleIsTreated(fx: Fixed, s: Ctx, b: Bundle)
    ensures Treated(fx, s, b, AllocBundle(fx, s, b))
  {
    forall k: nat | FirstWish(fx, s.allocs, b, k)
      ensures AllocBundle(fx, s, b) == Ctx(s.bundles, s.allocs + [Alloc(Wishes(fx, b)[k], b)], s.nextSlot)
    {
      ChosenIsFirst(fx, s.allocs, b, k);
    }
    NoneIsChosen(fx, s.allocs, b);
    VictimTells(s.allocs, b);
  }

  /** Whatever step is made, one of the waiting bundles is treated like this. */
  lemma StepTreatsOne(fx: Fixed, s: Ctx, s': Ctx) returns (k: nat)
    requires Step(fx, s, s')
    ensures k < |s.bundles| && Treated(fx, Ctx(s.bundles[..k] + s.bundles[k + 1..], s.allocs, s.nextSlot), s.bundles[k], s')
  {
    k :| 0 <= k < |s.bundles| && s' == StepAt(fx, s, k);
    BundleIsTreated(fx, s.(bundles := Remove(s.bundles, k)), s.bundles[k]);
  }

  // ---- Who is spilled ----

  /** In some state on the way the bundle waits, and no register it may get is free. */
  ghost predicate WasHopeless(fx: Fixed, s0: Ctx, b: Bundle) {
    exists s :: ReachableCtx(fx, s0, s) && HopelessIn(fx, s, b)
  }

  ghost predicate HopelessIn(fx: Fixed, s: Ctx, b: Bundle) {
    b in s.bundles && b.evictable && NoWish(fx, s.allocs, b)
  }

  ghost predicate AllHopeless(fx: Fixed, s0: Ctx, spilled: seq<Bundle>) {
    forall k | 0 <= k < |spilled| :: WasHopeless(fx, s0, spilled[k])
  }

  lemma SpilledIsHopeless(fx: Fixed, s0: Ctx, s: Ctx, k: nat, spilled: seq<Bundle>)
    requires ReachableCtx(fx, s0, s) && k < |s.bundles| && AllHopeless(fx, s0, spilled) && NoBornBundleStuck(fx, s)
    ensures AllHopeless(fx, s0, SpilledAfter(fx, s, s.bundles[k], spilled))
  {
    var b := s.bundles[k];
    NoneIsChosen(fx, s.allocs, b);
    if ChosenReg(fx, s.allocs, b).None? && Victim(s.allocs, b).None? {
      assert HopelessIn(fx, s, b);
    }
  }
}
