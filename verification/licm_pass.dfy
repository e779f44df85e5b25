/** The loop-invariant code motion pass over one loop, and over all loops of a function (src/banjo/passes/licm_pass.cpp). */
module LicmPasses {
  import opened Graph
  import opened RegAllocFunc
  import opened Dominance
  import opened DominatorTrees
  import opened LoopAnalysis
  import opened Ssa
  import opened Licm
  import opened LicmMeaning

  lemma SameMeaningReflexive(f: SsaFunc, entry: nat)
    ensures SameMeaning(f, f, entry)
  {
    forall m, st, n: nat
      ensures SameRun(f, f, entry, m, st, n)
    {
    }
  }

  lemma LoopDefsAre(f: SsaFunc, body: set<nat>, r: VReg)
    ensures r in LoopDefs(f, body) <==> exists b: nat, k: nat :: b in body && DefinedAt(f, r, b, k)
  {
    if r in LoopDefs(f, body) {
      var b :| b in body && b < |f.blocks| && r in DefsOfBlock(f.blocks[b]);
      DefsOfBlockAre(f, b, r);
    }
    if b: nat, k: nat :| b in body && DefinedAt(f, r, b, k) {
      DefinedInLoop(f, body, r, b, k);
    }
  }

  // ---- What the pass does, whatever it works on ----

  /** Registers have one definition, and blocks end in an instruction without result. */
  ghost predicate Workable(f: SsaFunc) {
    UniqueDefs(f) && forall b: nat | b < |f.blocks| :: EndsInBranch(f.blocks[b])
  }

  predicate EndsInBranch(block: SsaBlock) {
    |block.instrs| > 0 && block.instrs[|block.instrs| - 1].dest == None
  }

  /** `e` is a block outside the loop. */
  predicate Outside(f: SsaFunc, l: Loop, e: nat) {
    e < |f.blocks| && e !in l.body && forall b | b in l.body :: b < |f.blocks|
  }

  /** The pass may move instruction `i` of block `b` out of the loop to `e`. */
  predicate IsMove(f: SsaFunc, l: Loop, e: nat, b: nat, i: nat) {
    && Outside(f, l, e) && |f.blocks[e].instrs| > 0
    && b in l.body && i < |f.blocks[b].instrs| && Invariant(f.blocks[b].instrs[i], LoopDefs(f, l.body))
  }

  ghost predicate Kept(inv: SsaFunc -> bool, l: Loop, e: nat) {
    forall f, b: nat, i: nat {:trigger inv(f), IsMove(f, l, e, b, i)} ::
      inv(f) && Workable(f) && IsMove(f, l, e, b, i) ==> inv(Hoist(f, b, i, e))
  }

  /** From `f` to `f'` by moves out of the loop: what every move keeps holds of `f'` if it holds of `f`. */
  ghost predicate Leads(l: Loop, e: nat, f: SsaFunc, f': SsaFunc) {
    forall inv: SsaFunc -> bool {:trigger Kept(inv, l, e)} :: Kept(inv, l, e) && inv(f) ==> inv(f')
  }

  lemma LeadsOneMore(l: Loop, e: nat, f: SsaFunc, f': SsaFunc, b: nat, i: nat)
    requires Leads(l, e, f, f') && Workable(f') && IsMove(f', l, e, b, i)
    ensures Leads(l, e, f, Hoist(f', b, i, e))
  {
  }

  lemma MoveCanMove(f: SsaFunc, l: Loop, e: nat, b: nat, i: nat)
    requires Workable(f) && IsMove(f, l, e, b, i)
    ensures CanMove(f, b, i, e) && i < |f.blocks[b].instrs| - 1
  {
    assert EndsInBranch(f.blocks[e]) && EndsInBranch(f.blocks[b]);
  }

  lemma MoveKeepsWorkable(f: SsaFunc, l: Loop, e: nat, b: nat, i: nat)
    requires Workable(f) && IsMove(f, l, e, b, i)
    ensures var h := Hoist(f, b, i, e); Workable(h) && |h.blocks| == |f.blocks|
  {
    MoveCanMove(f, l, e, b, i);
    HoistKeepsUniqueDefs(f, e, b, i);
    HoistBlocks(f, b, i, e);
    forall c: nat | c < |f.blocks|
      ensures EndsInBranch(Hoist(f, b, i, e).blocks[c])
    {
      assert EndsInBranch(f.blocks[c]);
    }
  }

  /** After the move the loop defines one register less. */
  lemma HoistShrinksLoop(f: SsaFunc, l: Loop, e: nat, b: nat, i: nat)
    requires Workable(f) && IsMove(f, l, e, b, i)
    ensures var d := f.blocks[b].instrs[i].dest.value;
            d in LoopDefs(f, l.body) && LoopDefs(Hoist(f, b, i, e), l.body) == LoopDefs(f, l.body) - {d}
  {
    MoveCanMove(f, l, e, b, i);
    var h, d := Hoist(f, b, i, e), f.blocks[b].instrs[i].dest.value;
    assert DefinedAt(f, d, b, i + 1);
    DefinedInLoop(f, l.body, d, b, i + 1);
    forall r
      ensures r in LoopDefs(h, l.body) <==> r in LoopDefs(f, l.body) && r != d
    {
      HoistMovesDef(f, l, e, b, i, r);
    }
  }

  lemma HoistMovesDef(f: SsaFunc, l: Loop, e: nat, b: nat, i: nat, r: VReg)
    requires UniqueDefs(f) && CanMove(f, b, i, e) && b in l.body && e !in l.body && f.blocks[b].instrs[i].dest.Some?
    ensures var d := f.blocks[b].instrs[i].dest.value;
            r in LoopDefs(Hoist(f, b, i, e), l.body) <==> r in LoopDefs(f, l.body) && r != d
  {
    var h, d := Hoist(f, b, i, e), f.blocks[b].instrs[i].dest.value;
    LoopDefsAre(f, l.body, r);
    LoopDefsAre(h, l.body, r);
    assert DefinedAt(f, d, b, i + 1);
    if c: nat, k: nat :| c in l.body && DefinedAt(h, r, c, k) {
      DefinitionsCameFrom(f, e, b, i, r, c, k);
      var (c', k') := OldPlace(f, b, i, e, c, k);
      assert c' in l.body && DefinedAt(f, r, c', k');
    }
    if r != d {
      if c: nat, k: nat :| c in l.body && DefinedAt(f, r, c, k) {
        DefinitionsMove(f, e, b, i, r, c, k);
        var (c', k') := NewPlace(f, b, i, e, c, k);
        assert c' in l.body && DefinedAt(h, r, c', k');
      }
    }
  }

  /** Loads, stores, calls, member pointers, and what has no result. */
  predicate Stays(instr: SsaInstr) {
    instr.opcode.Load? || instr.opcode.Store? || instr.opcode.Call? || instr.opcode.MemberPtr? || instr.dest.None?
  }

  /** Up to instruction `n` of the block, each one stays or reads a register that the loop defines. */
  ghost predicate NothingToMove(block: SsaBlock, n: nat, inLoopDefs: set<VReg>)
    requires n <= |block.instrs|
  {
    forall j | 0 <= j < n :: Stays(block.instrs[j]) || !(UsedRegs(block.instrs[j]) !! inLoopDefs)
  }

  ghost predicate NothingToMoveIn(f: SsaFunc, blocks: set<nat>, inLoopDefs: set<VReg>) {
    forall b | b in blocks && b < |f.blocks| :: NothingToMove(f.blocks[b], |f.blocks[b].instrs|, inLoopDefs)
  }

  /** What the pass can rely on: a natural loop whose header dominates its tail, and is not the entry if there is one way in. */
  ghost predicate LoopOf(g: Cfg, l: Loop) {
    && ValidCfg(g) && PostOrdered(g) && IsNaturalLoop(g, l)
    && l.header < |g.nodes| && l.tail < |g.nodes| && Dominates(g, l.header, l.tail)
    && (|l.entries| == 1 ==> l.header != Entry(g))
  }

  /** What is done with one loop: nothing if there are several ways in, and otherwise moves until none is left. */
  ghost predicate LoopDone(l: Loop, f: SsaFunc, f': SsaFunc) {
    && (|l.entries| != 1 ==> f' == f)
    && (|l.entries| == 1 ==> NothingToMoveIn(f', l.body, LoopDefs(f', l.body)) && forall e | e in l.entries :: Leads(l, e, f, f'))
  }

  /** From `f` to `f'` through all loops, in their order. */
  ghost predicate Through(loops: seq<Loop>, f: SsaFunc, f': SsaFunc) {
    if loops == [] then f' == f
    else
      var earlier, last := loops[..|loops| - 1], loops[|loops| - 1];
      exists h :: Through(earlier, f, h) && LoopDone(last, h, f')
  }

  lemma OneEntry(entries: set<nat>, e: nat)
    requires |entries| == 1 && e in entries
    ensures entries == {e}
  {
    assert |entries - {e}| == 0;
  }

  // ---- What stays where it is ----

  function Staying(instrs: seq<SsaInstr>): seq<SsaInstr> {
    if instrs == [] then []
    else
      var n := |instrs| - 1;
      Staying(instrs[..n]) + if Stays(instrs[n]) then [instrs[n]] else []
  }

  lemma {:induction false} StayingConcat(instrs: seq<SsaInstr>, more: seq<SsaInstr>)
    ensures Staying(instrs + more) == Staying(instrs) + Staying(more)
  {
    if more == [] {
      assert instrs + more == instrs;
    } else {
      var n := |more| - 1;
      StayingConcat(instrs, more[..n]);
      assert (instrs + more)[..|instrs + more| - 1] == instrs + more[..n];
    }
  }

  lemma StayingOne(instr: SsaInstr)
    ensures Staying([instr]) == if Stays(instr) then [instr] else []
  {
    assert [instr][..0] == [];
  }

  lemma WithoutOne(before: seq<SsaInstr>, instr: SsaInstr, after: seq<SsaInstr>)
    requires !Stays(instr)
    ensures Staying(before + [instr] + after) == Staying(before + after)
  {
    StayingConcat(before, [instr]);
    StayingConcat(before + [instr], after);
    StayingConcat(before, after);
    StayingOne(instr);
    assert Staying(before) + [] == Staying(before);
  }

  lemma RemovedStays(instrs: seq<SsaInstr>, i: nat)
    requires i < |instrs| && !Stays(instrs[i])
    ensures Staying(RemoveAt(instrs, i)) == Staying(instrs)
  {
    WithoutOne(instrs[..i], instrs[i], instrs[i + 1..]);
    assert instrs == instrs[..i] + [instrs[i]] + instrs[i + 1..];
  }

  lemma InsertedStays(instrs: seq<SsaInstr>, instr: SsaInstr)
    requires |instrs| > 0 && !Stays(instr)
    ensures Staying(InsertBeforeLast(instrs, instr)) == Staying(instrs)
  {
    var n := |instrs| - 1;
    WithoutOne(instrs[..n], instr, instrs[n..]);
    assert instrs == instrs[..n] + instrs[n..];
  }

  /** In every block the same instructions stay, in the same order. */
  ghost predicate SameStaying(f: SsaFunc, f': SsaFunc) {
    |f'.blocks| == |f.blocks| && forall c | 0 <= c < |f.blocks| :: Staying(f'.blocks[c].instrs) == Staying(f.blocks[c].instrs)
  }

  lemma MoveLeavesStaying(f: SsaFunc, l: Loop, e: nat, b: nat, i: nat)
    requires Workable(f) && IsMove(f, l, e, b, i)
    ensures SameStaying(f, Hoist(f, b, i, e))
  {
    MoveCanMove(f, l, e, b, i);
    HoistBlocks(f, b, i, e);
    RemovedStays(f.blocks[b].instrs, i);
    InsertedStays(f.blocks[e].instrs, f.blocks[b].instrs[i]);
  }

  /** However many moves are made, loads, stores, calls and member pointers stay in their blocks, in their order. */
  lemma LeadsLeavesStaying(l: Loop, e: nat, f: SsaFunc, f': SsaFunc)
    requires Leads(l, e, f, f')
    ensures SameStaying(f, f')
  {
    var inv: SsaFunc -> bool := h => SameStaying(f, h);
    forall h, b: nat, i: nat | inv(h) && Workable(h) && IsMove(h, l, e, b, i)
      ensures inv(Hoist(h, b, i, e))
    {
      MoveLeavesStaying(h, l, e, b, i);
    }
    assert Kept(inv, l, e) && inv(f);
  }

  lemma LoopDoneLeavesStaying(l: Loop, f: SsaFunc, f': SsaFunc)
    requires LoopDone(l, f, f')
    ensures SameStaying(f, f')
  {
    if |l.entries| == 1 {
      var e :| e in l.entries;
      LeadsLeavesStaying(l, e, f, f');
    }
  }

  lemma {:induction false} ThroughLeavesStaying(loops: seq<Loop>, f: SsaFunc, f': SsaFunc)
    requires Through(loops, f, f')
    ensures SameStaying(f, f')
  {
    if loops != [] {
      var n := |loops| - 1;
      var h :| Through(loops[..n], f, h) && LoopDone(loops[n], h, f');
      ThroughLeavesStaying(loops[..n], f, h);
      LoopDoneLeavesStaying(loops[n], h, f');
    }
  }

  class LicmPass {
    const cfg: Cfg
    var func: SsaFunc

    constructor (cfg: Cfg, func: SsaFunc)
      ensures this.cfg == cfg && this.func == func
    {
      this.cfg, this.func := cfg, func;
    }

    /** Between two moves. */
    ghost predicate Inv(l: Loop, e: nat, start: SsaFunc, inLoopDefs: set<VReg>)
      reads this
    {
      && Workable(func) && Outside(func, l, e) && |func.blocks| == |start.blocks|
      && Leads(l, e, start, func) && inLoopDefs == LoopDefs(func, l.body)
    }

    method CollectLoopDefs(body: set<nat>) returns (inLoopDefs: set<VReg>)
      ensures inLoopDefs == LoopDefs(func, body)
    {
      inLoopDefs := {};
      var todo := body;
      while todo != {}
        invariant todo <= body && inLoopDefs == LoopDefs(func, body - todo)
        decreases todo
      {
        var b :| b in todo;
        ghost var done := body - todo;
        if b < |func.blocks| {
          inLoopDefs := inLoopDefs + DefsOfBlock(func.blocks[b]);
        }
        todo := todo - {b};
        assert body - todo == done + {b};
      }
      assert body - todo == body;
    }

    method MoveOut(l: Loop, e: nat, b: nat, i: nat, ghost start: SsaFunc, inLoopDefs: set<VReg>) returns (inLoopDefs': set<VReg>)
      requires Inv(l, e, start, inLoopDefs) && IsMove(func, l, e, b, i)
      modifies this`func
      ensures Inv(l, e, start, inLoopDefs') && func == Hoist(old(func), b, i, e)
      ensures |inLoopDefs'| < |inLoopDefs|
    {
      HoistShrinksLoop(func, l, e, b, i);
      MoveKeepsWorkable(func, l, e, b, i);
      LeadsOneMore(l, e, start, func, b, i);
      inLoopDefs' := inLoopDefs - {func.blocks[b].instrs[i].dest.value};
      func := Hoist(func, b, i, e);
    }

    /** Walks through one block of the loop; a moved instruction makes room for the next one. */
    method HoistFromBlock(l: Loop, e: nat, b: nat, ghost start: SsaFunc, inLoopDefs: set<VReg>)
      returns (inLoopDefs': set<VReg>, changed: bool)
      requires Inv(l, e, start, inLoopDefs) && b in l.body
      modifies this`func
      ensures Inv(l, e, start, inLoopDefs') && |inLoopDefs'| <= |inLoopDefs|
      ensures changed ==> |inLoopDefs'| < |inLoopDefs|
      ensures !changed ==> func == old(func) && inLoopDefs' == inLoopDefs && NothingToMoveIn(func, {b}, inLoopDefs)
    {
      inLoopDefs', changed := inLoopDefs, false;
      var i := 0;
      while i < |func.blocks[b].instrs|
        invariant Inv(l, e, start, inLoopDefs') && b < |func.blocks| && i <= |func.blocks[b].instrs|
        invariant if changed then |inLoopDefs'| < |inLoopDefs| else func == old(func) && inLoopDefs' == inLoopDefs
        invariant !changed ==> NothingToMove(func.blocks[b], i, inLoopDefs)
        decreases |inLoopDefs'|, |func.blocks[b].instrs| - i
      {
        var instr := func.blocks[b].instrs[i];
        if Movable(instr.opcode) && UsedRegs(instr) !! inLoopDefs' && instr.dest.Some? {
          assert EndsInBranch(func.blocks[e]) && EndsInBranch(func.blocks[b]);
          inLoopDefs' := MoveOut(l, e, b, i, start, inLoopDefs');
          changed := true;
        } else {
          i := i + 1;
        }
      }
    }

    method HoistFromBody(l: Loop, e: nat, ghost start: SsaFunc, inLoopDefs: set<VReg>) returns (changed: bool)
      requires Inv(l, e, start, inLoopDefs)
      modifies this`func
      ensures Inv(l, e, start, LoopDefs(func, l.body))
      ensures changed ==> |LoopDefs(func, l.body)| < |inLoopDefs|
      ensures !changed ==> func == old(func) && NothingToMoveIn(func, l.body, inLoopDefs)
    {
      changed := false;
      var defs, todo := inLoopDefs, l.body;
      while todo != {}
        invariant todo <= l.body && Inv(l, e, start, defs)
        invariant if changed then |defs| < |inLoopDefs| else func == old(func) && defs == inLoopDefs
        invariant !changed ==> NothingToMoveIn(func, l.body - todo, inLoopDefs)
        decreases todo
      {
        var b :| b in todo;
        var moved;
        defs, moved := HoistFromBlock(l, e, b, start, defs);
        changed := changed || moved;
        todo := todo - {b};
      }
    }

    /**
      Moves instructions out of the loop until none is left to move. Loops with several ways in are left alone.
     */
    method RunLoop(l: Loop)
      requires Workable(func) && forall e | e in l.entries :: Outside(func, l, e)
      modifies this`func
      ensures Workable(func) && |func.blocks| == |old(func).blocks| && LoopDone(l, old(func), func) && SameStaying(old(func), func)
      ensures LoopOf(cfg, l) && ValidSsa(cfg, old(func)) ==> ValidSsa(cfg, func) && SameMeaning(old(func), func, Entry(cfg))
      decreases |LoopDefs(func, l.body)|
    {
      ghost var start := func;
      if |l.entries| != 1 {
        SameMeaningReflexive(func, if |cfg.nodes| > 0 then Entry(cfg) else 0);
        return;
      }
      var inLoopDefs := CollectLoopDefs(l.body);
      var e :| e in l.entries;
      OneEntry(l.entries, e);
      var changed := HoistFromBody(l, e, start, inLoopDefs);
      if changed {
        RunLoop(l);
      }
      LoopDoneKeepsMeaning(cfg, l, start, func);
      LoopDoneLeavesStaying(l, start, func);
    }

    /** All loops of the function, one after the other. */
    method Run(loops: seq<Loop>)
      requires Workable(func) && forall k, e | 0 <= k < |loops| && e in loops[k].entries :: Outside(func, loops[k], e)
      modifies this`func
      ensures Through(loops, old(func), func)
    {
      for k := 0 to |loops|
        invariant Workable(func) && |func.blocks| == |old(func).blocks|
        invariant Through(loops[..k], old(func), func)
      {
        ghost var before := func;
        RunLoop(loops[k]);
        assert loops[..k + 1][..k] == loops[..k];
      }
      assert loops[..|loops|] == loops;
    }
  }

  // ---- What that means ----

  lemma MoveIsHoistable(g: Cfg, f: SsaFunc, l: Loop, e: nat, b: nat, i: nat)
    requires LoopOf(g, l) && l.entries == {e} && ValidSsa(g, f) && IsMove(f, l, e, b, i)
    ensures Hoistable(g, f, l, e, b, i)
  {
  }

  /** Moves out of a loop with one way in keep validity and meaning. */
  lemma LeadsKeepsMeaning(g: Cfg, l: Loop, e: nat, f: SsaFunc, f': SsaFunc)
    requires LoopOf(g, l) && l.entries == {e} && ValidSsa(g, f) && Leads(l, e, f, f')
    ensures ValidSsa(g, f') && SameMeaning(f, f', Entry(g))
  {
    var inv: SsaFunc -> bool := h => ValidSsa(g, h) && SameMeaning(f, h, Entry(g));
    forall h, b: nat, i: nat | inv(h) && Workable(h) && IsMove(h, l, e, b, i)
      ensures inv(Hoist(h, b, i, e))
    {
      MoveIsHoistable(g, h, l, e, b, i);
      HoistKeepsValid(g, h, l, e, b, i);
      HoistKeepsMeaning(g, h, l, e, b, i);
      SameMeaningTransitive(f, h, Hoist(h, b, i, e), Entry(g));
    }
    SameMeaningReflexive(f, Entry(g));
    assert Kept(inv, l, e) && inv(f);
  }

  lemma LoopDoneKeepsMeaning(g: Cfg, l: Loop, f: SsaFunc, f': SsaFunc)
    requires LoopDone(l, f, f')
    ensures LoopOf(g, l) && ValidSsa(g, f) ==> ValidSsa(g, f') && SameMeaning(f, f', Entry(g))
  {
    if LoopOf(g, l) && ValidSsa(g, f) {
      if |l.entries| == 1 {
        var e :| e in l.entries;
        OneEntry(l.entries, e);
        LeadsKeepsMeaning(g, l, e, f, f');
      } else {
        SameMeaningReflexive(f, Entry(g));
      }
    }
  }

  lemma {:induction false} ThroughKeepsMeaning(g: Cfg, loops: seq<Loop>, f: SsaFunc, f': SsaFunc)
    requires ValidSsa(g, f) && Through(loops, f, f') && forall k | 0 <= k < |loops| :: LoopOf(g, loops[k])
    ensures ValidSsa(g, f') && SameMeaning(f, f', Entry(g))
  {
    if loops == [] {
      SameMeaningReflexive(f, Entry(g));
    } else {
      var n := |loops| - 1;
      var h :| Through(loops[..n], f, h) && LoopDone(loops[n], h, f');
      ThroughKeepsMeaning(g, loops[..n], f, h);
      LoopDoneKeepsMeaning(g, loops[n], h, f');
      SameMeaningTransitive(f, h, f', Entry(g));
    }
  }

  // ---- Loops at the entry ----

  /** The entry block jumps to itself, and exactly one other block jumps to it. */
  ghost predicate EntryLoopHasOneWayIn(g: Cfg)
    requires |g.nodes| > 0
  {
    (Entry(g), Entry(g)) in CfgEdges(g) && exists e: nat :: IsOtherWayIn(g, e)
  }

  ghost predicate IsOtherWayIn(g: Cfg, e: nat)
    requires |g.nodes| > 0
  {
    e != Entry(g) && forall a: nat :: (a, Entry(g)) in CfgEdges(g) && a != Entry(g) <==> a == e
  }

  lemma NothingAvoidsItself(g: Cfg, n: nat, h: nat)
    ensures !ReachesAvoiding(g, n, h, h)
  {
    forall p
      ensures !AvoidingPath(g, p, n, h, h)
    {
      if p != [] { assert p[|p| - 1] in p; }
    }
  }

  lemma OneEntryIsOtherWayIn(g: Cfg, l: Loop, e: nat)
    requires |g.nodes| > 0 && IsNaturalLoop(g, l) && l.tail == l.header == Entry(g) && l.entries == {e}
    ensures IsOtherWayIn(g, e)
  {
    forall n: nat
      ensures n in l.body <==> n == l.header
    {
      NothingAvoidsItself(g, n, l.header);
    }
    assert e in l.entries;
  }

  /** Every other loop the analysis reports is one the pass can work on. */
  lemma ReportedLoopsQualify(g: Cfg, loops: seq<Loop>, k: nat)
    requires ValidCfg(g) && PostOrdered(g) && !EntryLoopHasOneWayIn(g) && AreNaturalLoops(g, loops) && k < |loops|
    requires forall tail: nat, header: nat :: HasLoop(loops, tail, header) <==> IsReported(g, tail, header)
    ensures LoopOf(g, loops[k])
  {
    var l := loops[k];
    assert HasLoop(loops, l.tail, l.header);
    assert IsReported(g, l.tail, l.header);
    EdgeIsPredecessor(g, l.tail, l.header);
    DominatesItself(g, l.header);
    if |l.entries| == 1 && l.header == Entry(g) {
      var e :| e in l.entries;
      OneEntry(l.entries, e);
      OneEntryIsOtherWayIn(g, l, e);
    }
  }

  /** The loops of the graph, as the analysis reports them. */
  ghost predicate AreReported(g: Cfg, loops: seq<Loop>)
    requires |g.nodes| > 0
  {
    && AreNaturalLoops(g, loops) && InOrderOfTails(loops)
    && forall tail: nat, header: nat :: HasLoop(loops, tail, header) <==> IsReported(g, tail, header)
  }

  /** What the pass may make of a function. */
  ghost predicate PassResult(g: Cfg, f: SsaFunc, f': SsaFunc)
    requires |g.nodes| > 0
  {
    exists loops :: AreReported(g, loops) && Through(loops, f, f')
  }

  lemma EntriesAreOutside(g: Cfg, f: SsaFunc, loops: seq<Loop>, k: nat, e: nat)
    requires ValidSsa(g, f) && AreReported(g, loops) && k < |loops| && e in loops[k].entries
    ensures Outside(f, loops[k], e)
  {
    var l := loops[k];
    assert HasLoop(loops, l.tail, l.header);
    EdgeIsPredecessor(g, e, l.header);
    forall b | b in l.body
      ensures b < |g.nodes|
    {
      if b != l.header {
        var p :| AvoidingPath(g, p, b, l.tail, l.header);
        if |p| > 1 {
          assert (p[0], p[0 + 1]) in CfgEdges(g);
          EdgeIsPredecessor(g, p[0], p[1]);
        } else {
          EdgeIsPredecessor(g, l.tail, l.header);
        }
      }
    }
  }

  lemma PassKeepsMeaning(g: Cfg, f: SsaFunc, f': SsaFunc)
    requires ValidSsa(g, f) && PassResult(g, f, f') && !EntryLoopHasOneWayIn(g)
    ensures ValidSsa(g, f') && SameMeaning(f, f', Entry(g))
  {
    var loops :| AreReported(g, loops) && Through(loops, f, f');
    forall k | 0 <= k < |loops|
      ensures LoopOf(g, loops[k])
    {
      ReportedLoopsQualify(g, loops, k);
    }
    ThroughKeepsMeaning(g, loops, f, f');
  }

  lemma ValidIsWorkable(g: Cfg, f: SsaFunc)
    requires ValidSsa(g, f)
    ensures Workable(f)
  {
    forall b: nat | b < |f.blocks|
      ensures EndsInBranch(f.blocks[b])
    {
      assert WellFormedBlock(g, f, b);
    }
  }

  /** The pass over one function: dominators, loops, and the code motion. */
  method RunOnFunction(g: Cfg, f: SsaFunc) returns (f': SsaFunc)
    requires ValidSsa(g, f)
    ensures PassResult(g, f, f') && SameStaying(f, f')
    ensures !EntryLoopHasOneWayIn(g) ==> ValidSsa(g, f') && SameMeaning(f, f', Entry(g))
  {
    var domtree := new DominatorTree(g);
    var analyzer := new LoopAnalyzer(g, domtree);
    analyzer.Analyze();
    forall k, e | 0 <= k < |analyzer.loops| && e in analyzer.loops[k].entries
      ensures Outside(f, analyzer.loops[k], e)
    {
      EntriesAreOutside(g, f, analyzer.loops, k, e);
    }
    ValidIsWorkable(g, f);
    var pass := new LicmPass(g, f);
    pass.Run(analyzer.loops);
    f' := pass.func;
    ThroughLeavesStaying(analyzer.loops, f, f');
    if !EntryLoopHasOneWayIn(g) { PassKeepsMeaning(g, f, f'); }
  }
}
