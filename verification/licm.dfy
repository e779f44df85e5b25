/** Moving loop-invariant code out of loops (src/banjo/passes/licm_pass.cpp). */
module Licm {
  import opened Graph
  import opened RegAllocFunc
  import opened Dominance
  import opened LoopAnalysis
  import opened Ssa

  /** A loop with one way in, whose header dominates its tail and is not the entry of the function. */
  ghost predicate SingleEntryLoop(g: Cfg, l: Loop, e: nat) {
    && ValidCfg(g) && PostOrdered(g)
    && IsNaturalLoop(g, l) && l.entries == {e}
    && l.header < Entry(g) && l.tail < |g.nodes| && Dominates(g, l.header, l.tail)
  }

  // ---- The loop and its way in ----

  lemma OnlyEntryDominatesEntry(g: Cfg, h: nat)
    requires |g.nodes| > 0 && h != Entry(g)
    ensures !Dominates(g, h, Entry(g))
  {
    assert PathTo(g, [Entry(g)], Entry(g));
  }

  lemma EntryIsOutside(g: Cfg, l: Loop, e: nat)
    requires SingleEntryLoop(g, l, e)
    ensures e < |g.nodes| && e !in l.body && Entry(g) !in l.body && (e, l.header) in CfgEdges(g)
    ensures forall b | b in l.body :: b < |g.nodes|
  {
    assert e in l.entries;
    EdgeIsPredecessor(g, e, l.header);
    OnlyEntryDominatesEntry(g, l.header);
    if Entry(g) in l.body { HeaderDominatesBody(g, l, Entry(g)); }
    forall b | b in l.body
      ensures b < |g.nodes|
    {
      if b != l.header {
        var p :| AvoidingPath(g, p, b, l.tail, l.header);
        if |p| > 1 {
          assert (p[0], p[0 + 1]) in CfgEdges(g);
          EdgeIsPredecessor(g, p[0], p[1]);
        }
      }
    }
  }

  /** The only way in dominates the whole loop. */
  lemma EntryDominatesHeader(g: Cfg, l: Loop, e: nat)
    requires SingleEntryLoop(g, l, e)
    ensures Dominates(g, e, l.header)
  {
    var h := l.header;
    forall p | PathTo(g, p, h)
      ensures e in p
    {
      var k := FirstIndex(p, h);
      var a := p[k - 1];
      assert (p[k - 1], p[k - 1 + 1]) in CfgEdges(g);
      PrefixPath(g, p, h, k - 1);
      assert p[..k - 1 + 1] == p[..k];
      assert !Dominates(g, h, a);
      if a in l.body { HeaderDominatesBody(g, l, a); }
    }
  }

  lemma EntryDominatesBody(g: Cfg, l: Loop, e: nat, b: nat)
    requires SingleEntryLoop(g, l, e) && b in l.body
    ensures Dominates(g, e, b) && b != e && !Dominates(g, b, e)
  {
    EntryIsOutside(g, l, e);
    EntryDominatesHeader(g, l, e);
    HeaderDominatesBody(g, l, b);
    DominatesTransitively(g, e, l.header, b);
    AllReachable(g, b);
    DominanceAntisymmetric(g, b, e);
  }

  /** Backwards from a body node to the last visit of the header a path stays in the body. */
  lemma {:induction false} ArrivesThroughHeader(g: Cfg, l: Loop, p: seq<nat>, b: nat) returns (k: nat)
    requires SingleEntryLoop(g, l, 0) || IsNaturalLoop(g, l)
    requires IsPath(CfgEdges(g), p) && p[|p| - 1] == b && b in l.body && l.header in p
    ensures k < |p| && p[k] == l.header && forall j | k <= j < |p| :: p[j] in l.body
    decreases |p|
  {
    var n := |p| - 1;
    if b == l.header {
      k := n;
    } else {
      assert (p[n - 1], p[n - 1 + 1]) in CfgEdges(g);
      BodyIsClosed(g, l);
      k := ArrivesThroughHeader(g, l, p[..n], p[n - 1]);
      assert forall j | k <= j < n :: p[..n][j] == p[j];
    }
  }

  /** A definition outside the loop that reaches into it also reaches the end of the block before it. */
  lemma OutsideReachesEntry(g: Cfg, l: Loop, e: nat, d: nat, b: nat)
    requires SingleEntryLoop(g, l, e) && b in l.body && d !in l.body && Dominates(g, d, b)
    ensures Dominates(g, d, e)
  {
    EntryIsOutside(g, l, e);
    AllReachable(g, b);
    var p := PathExists(g, b);
    HeaderDominatesBody(g, l, b);
    var k := ArrivesThroughHeader(g, l, p, b);
    SubPath(CfgEdges(g), p, k, |p|);
    var s := p[k..];
    assert d !in s by {
      assert forall j | 0 <= j < |s| :: s[j] == p[k + j];
    }
    forall q | PathTo(g, q, l.header)
      ensures d in q
    {
      JoinPaths(CfgEdges(g), q, s);
      assert PathTo(g, q + s[1..], b);
      assert d in q + s[1..];
    }
    DominatesPredecessor(g, d, e, l.header);
  }

  // ---- Moving one instruction ----

  /** Instruction `i` of block `b` goes before the last instruction of block `e`. */
  function Hoist(f: SsaFunc, b: nat, i: nat, e: nat): SsaFunc
    requires b < |f.blocks| && i < |f.blocks[b].instrs| && e < |f.blocks| && |f.blocks[e].instrs| > 0
  {
    var instr := f.blocks[b].instrs[i];
    var inserted := f.blocks[e := f.blocks[e].(instrs := InsertBeforeLast(f.blocks[e].instrs, instr))];
    SsaFunc(inserted[b := f.blocks[b].(instrs := RemoveAt(f.blocks[b].instrs, i))])
  }

  function InsertBeforeLast(instrs: seq<SsaInstr>, instr: SsaInstr): seq<SsaInstr>
    requires |instrs| > 0
  {
    instrs[..|instrs| - 1] + [instr] + instrs[|instrs| - 1..]
  }

  function RemoveAt(instrs: seq<SsaInstr>, i: nat): seq<SsaInstr>
    requires i < |instrs|
  {
    instrs[..i] + instrs[i + 1..]
  }

  /** The registers a loop defines. */
  function DefsOfBlock(block: SsaBlock): set<VReg> {
    (set k | 0 <= k < |block.params| :: block.params[k])
    + set k | 0 <= k < |block.instrs| && block.instrs[k].dest.Some? :: block.instrs[k].dest.value
  }

  function LoopDefs(f: SsaFunc, body: set<nat>): set<VReg> {
    set b, r | b in body && b < |f.blocks| && r in DefsOfBlock(f.blocks[b]) :: r
  }

  lemma DefsOfBlockAre(f: SsaFunc, b: nat, r: VReg)
    requires b < |f.blocks|
    ensures r in DefsOfBlock(f.blocks[b]) <==> exists k: nat :: DefinedAt(f, r, b, k)
  {
    var block := f.blocks[b];
    if r in DefsOfBlock(block) {
      if k :| 0 <= k < |block.params| && block.params[k] == r {
        assert DefinedAt(f, r, b, 0);
      } else {
        var k :| 0 <= k < |block.instrs| && block.instrs[k].dest.Some? && block.instrs[k].dest.value == r;
        assert DefinedAt(f, r, b, k + 1);
      }
    }
    if k: nat :| DefinedAt(f, r, b, k) {
      if k > 0 { assert block.instrs[k - 1].dest.value == r; }
    }
  }

  lemma DefinedInLoop(f: SsaFunc, body: set<nat>, r: VReg, d: nat, k: nat)
    requires d in body && DefinedAt(f, r, d, k)
    ensures r in LoopDefs(f, body)
  {
    DefsOfBlockAre(f, d, r);
  }

  /** The opcodes that the pass does not skip. */
  predicate Movable(opcode: Opcode) {
    opcode != Load && opcode != Store && opcode != Call && opcode != MemberPtr
  }

  /** What the pass checks before it moves an instruction, with the registers the loop defines at that moment. */
  predicate Invariant(instr: SsaInstr, inLoopDefs: set<VReg>) {
    Movable(instr.opcode) && UsedRegs(instr) !! inLoopDefs && instr.dest.Some?
  }

  ghost predicate Hoistable(g: Cfg, f: SsaFunc, l: Loop, e: nat, b: nat, i: nat) {
    && SingleEntryLoop(g, l, e) && ValidSsa(g, f)
    && b in l.body && b < |f.blocks| && i < |f.blocks[b].instrs| && e < |f.blocks| && |f.blocks[e].instrs| > 0
    && Invariant(f.blocks[b].instrs[i], LoopDefs(f, l.body))
  }

  /** Where a definition is found after the move. */
  function NewPlace(f: SsaFunc, b: nat, i: nat, e: nat, d: nat, k: nat): (nat, nat)
    requires e < |f.blocks| && |f.blocks[e].instrs| > 0
  {
    if d == b && k == i + 1 then (e, |f.blocks[e].instrs|)
    else if d == b && k > i + 1 then (b, k - 1)
    else (d, k)
  }

  /** The place a definition came from. */
  function OldPlace(f: SsaFunc, b: nat, i: nat, e: nat, d: nat, k: nat): (nat, nat)
    requires e < |f.blocks| && |f.blocks[e].instrs| > 0
  {
    if d == e && k == |f.blocks[e].instrs| then (b, i + 1)
    else if d == b && k > i then (b, k + 1)
    else (d, k)
  }

  /** The two blocks are different, and the last instruction of `e` has no result. */
  predicate CanMove(f: SsaFunc, b: nat, i: nat, e: nat) {
    && b < |f.blocks| && i < |f.blocks[b].instrs| && e < |f.blocks| && b != e
    && |f.blocks[e].instrs| > 0 && f.blocks[e].instrs[|f.blocks[e].instrs| - 1].dest == None
  }

  lemma HoistableCanMove(g: Cfg, f: SsaFunc, l: Loop, e: nat, b: nat, i: nat)
    requires Hoistable(g, f, l, e, b, i)
    ensures CanMove(f, b, i, e) && i < |f.blocks[b].instrs| - 1
  {
    EntryIsOutside(g, l, e);
    assert WellFormedBlock(g, f, e) && WellFormedBlock(g, f, b);
  }

  lemma HoistBlocks(f: SsaFunc, b: nat, i: nat, e: nat)
    requires CanMove(f, b, i, e)
    ensures var h := Hoist(f, b, i, e);
            && |h.blocks| == |f.blocks|
            && (forall c | 0 <= c < |f.blocks| :: h.blocks[c].params == f.blocks[c].params)
            && (forall c | 0 <= c < |f.blocks| && c != b && c != e :: h.blocks[c] == f.blocks[c])
            && h.blocks[b].instrs == RemoveAt(f.blocks[b].instrs, i)
            && h.blocks[e].instrs == InsertBeforeLast(f.blocks[e].instrs, f.blocks[b].instrs[i])
  {
  }

  lemma DefinitionsMove(f: SsaFunc, e: nat, b: nat, i: nat, r: VReg, d: nat, k: nat)
    requires CanMove(f, b, i, e)
    ensures DefinedAt(f, r, d, k) ==> var (d', k') := NewPlace(f, b, i, e, d, k); DefinedAt(Hoist(f, b, i, e), r, d', k')
  {
    HoistBlocks(f, b, i, e);
  }

  lemma DefinitionsCameFrom(f: SsaFunc, e: nat, b: nat, i: nat, r: VReg, d: nat, k: nat)
    requires CanMove(f, b, i, e) && DefinedAt(Hoist(f, b, i, e), r, d, k)
    ensures var (d', k') := OldPlace(f, b, i, e, d, k);
            DefinedAt(f, r, d', k') && NewPlace(f, b, i, e, d', k') == (d, k)
  {
    HoistBlocks(f, b, i, e);
  }

  // ---- Validity is kept ----

  lemma HoistKeepsUniqueDefs(f: SsaFunc, e: nat, b: nat, i: nat)
    requires CanMove(f, b, i, e) && UniqueDefs(f)
    ensures UniqueDefs(Hoist(f, b, i, e))
  {
    var h := Hoist(f, b, i, e);
    forall r, c: nat, k: nat, d: nat, l: nat | DefinedAt(h, r, c, k) && DefinedAt(h, r, d, l)
      ensures c == d && k == l
    {
      DefinitionsCameFrom(f, e, b, i, r, c, k);
      DefinitionsCameFrom(f, e, b, i, r, d, l);
    }
  }

  lemma HoistKeepsBlocks(g: Cfg, f: SsaFunc, e: nat, b: nat, i: nat, c: nat)
    requires CanMove(f, b, i, e) && i < |f.blocks[b].instrs| - 1 && c < |f.blocks| && WellFormedBlock(g, f, c)
    ensures WellFormedBlock(g, Hoist(f, b, i, e), c)
  {
    HoistBlocks(f, b, i, e);
    var h := Hoist(f, b, i, e);
    var last := f.blocks[c].instrs[|f.blocks[c].instrs| - 1];
    assert h.blocks[c].instrs[|h.blocks[c].instrs| - 1] == last;
    forall t | t in last.targets
      ensures WellFormedTarget(g, h, c, t)
    {
      assert WellFormedTarget(g, f, c, t);
    }
  }

  /** The place in the old function from which instruction `j` of block `c` comes. */
  function OldIndex(f: SsaFunc, b: nat, i: nat, e: nat, c: nat, j: nat): (nat, nat)
    requires e < |f.blocks| && |f.blocks[e].instrs| > 0
  {
    if c == b then (b, if j < i then j else j + 1)
    else if c == e && j == |f.blocks[e].instrs| - 1 then (b, i)
    else if c == e && j >= |f.blocks[e].instrs| then (e, j - 1)
    else (c, j)
  }

  lemma InstructionsCameFrom(f: SsaFunc, b: nat, i: nat, e: nat, c: nat, j: nat)
    requires CanMove(f, b, i, e) && c < |f.blocks| && j < |Hoist(f, b, i, e).blocks[c].instrs|
    ensures var (c', j') := OldIndex(f, b, i, e, c, j);
            c' < |f.blocks| && j' < |f.blocks[c'].instrs| && Hoist(f, b, i, e).blocks[c].instrs[j] == f.blocks[c'].instrs[j']
  {
    HoistBlocks(f, b, i, e);
  }

  /** The moved instruction's definition reaches what it reached before. */
  lemma MovedReaches(g: Cfg, f: SsaFunc, l: Loop, e: nat, b: nat, i: nat, r: VReg, d: nat, k: nat, c: nat, j: nat)
    requires SingleEntryLoop(g, l, e) && b in l.body && CanMove(f, b, i, e)
    requires ReachesUse(g, f, r, d, k, c, j) && (c == e ==> j < |f.blocks[e].instrs|)
    ensures c != b ==> InScope(g, Hoist(f, b, i, e), r, c, if c == e && j == |f.blocks[e].instrs| - 1 then j + 1 else j)
    ensures c == b ==> j > i ==> InScope(g, Hoist(f, b, i, e), r, b, j - 1)
    ensures c == b ==> j <= i ==> InScope(g, Hoist(f, b, i, e), r, b, j)
  {
    EntryDominatesBody(g, l, e, b);
    DefinitionsMove(f, e, b, i, r, d, k);
    var h := Hoist(f, b, i, e);
    var (d', k') := NewPlace(f, b, i, e, d, k);
    if d == b && k == i + 1 && d != c { DominatesTransitively(g, e, b, c); }
    var j' := if c == e && j == |f.blocks[e].instrs| - 1 then j + 1 else if c == b && j > i then j - 1 else j;
    assert ReachesUse(g, h, r, d', k', c, j');
  }

  /** The operands of the moved instruction are defined before the place it moves to. */
  lemma OperandsReachEntry(g: Cfg, f: SsaFunc, l: Loop, e: nat, b: nat, i: nat, r: VReg)
    requires Hoistable(g, f, l, e, b, i) && CanMove(f, b, i, e) && r in UsedRegs(f.blocks[b].instrs[i])
    ensures InScope(g, Hoist(f, b, i, e), r, e, |f.blocks[e].instrs| - 1)
  {
    var h := Hoist(f, b, i, e);
    assert UsesInScope(g, f, b, i) && InScope(g, f, r, b, i);
    var d: nat, k: nat :| ReachesUse(g, f, r, d, k, b, i);
    if d in l.body { DefinedInLoop(f, l.body, r, d, k); }
    OutsideReachesEntry(g, l, e, d, b);
    DefinitionsMove(f, e, b, i, r, d, k);
    assert ReachesUse(g, h, r, d, k, e, |f.blocks[e].instrs| - 1);
  }

  lemma HoistKeepsUses(g: Cfg, f: SsaFunc, l: Loop, e: nat, b: nat, i: nat, c: nat, j: nat, r: VReg)
    requires Hoistable(g, f, l, e, b, i) && CanMove(f, b, i, e)
    requires c < |f.blocks| && j < |Hoist(f, b, i, e).blocks[c].instrs| && r in UsedRegs(Hoist(f, b, i, e).blocks[c].instrs[j])
    ensures InScope(g, Hoist(f, b, i, e), r, c, j)
  {
    HoistBlocks(f, b, i, e);
    InstructionsCameFrom(f, b, i, e, c, j);
    if c == e && j == |f.blocks[e].instrs| - 1 {
      OperandsReachEntry(g, f, l, e, b, i, r);
    } else {
      var (c', j') := OldIndex(f, b, i, e, c, j);
      assert UsesInScope(g, f, c', j') && InScope(g, f, r, c', j');
      var d: nat, k: nat :| ReachesUse(g, f, r, d, k, c', j');
      MovedReaches(g, f, l, e, b, i, r, d, k, c', j');
    }
  }

  /** Every use still has its definition on every path to it. */
  lemma HoistKeepsValid(g: Cfg, f: SsaFunc, l: Loop, e: nat, b: nat, i: nat)
    requires Hoistable(g, f, l, e, b, i)
    ensures ValidSsa(g, Hoist(f, b, i, e))
  {
    HoistableCanMove(g, f, l, e, b, i);
    var h := Hoist(f, b, i, e);
    HoistKeepsUniqueDefs(f, e, b, i);
    forall c: nat | c < |h.blocks|
      ensures WellFormedBlock(g, h, c)
    {
      HoistKeepsBlocks(g, f, e, b, i, c);
    }
    forall c: nat, j: nat | c < |h.blocks| && j < |h.blocks[c].instrs|
      ensures UsesInScope(g, h, c, j)
    {
      forall r | r in UsedRegs(h.blocks[c].instrs[j])
        ensures InScope(g, h, r, c, j)
      {
        HoistKeepsUses(g, f, l, e, b, i, c, j, r);
      }
    }
  }
}
