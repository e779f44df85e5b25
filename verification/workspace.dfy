/** The language server's index of definitions, uses and dependents under incremental updates (src/banjo-lsp/workspace.cpp). */
module Workspaces {
  import opened Graph
  import opened RegAllocFunc

  type ModId = nat

  datatype TextRange = TextRange(start: nat, end: nat)

  /** A module, or anything else a name can stand for; regenerating a module makes new symbols. */
  datatype Symbol = ModuleSymbol(m: ModId) | Named(id: nat)

  datatype SymbolDef = SymbolDef(symbol: Symbol, range: TextRange)

  datatype SymbolUse = SymbolUse(symbol: Symbol, range: TextRange)

  /** What semantic analysis reports for one module; `range` is the extent of the module itself. */
  datatype ModAnalysis = ModAnalysis(range: TextRange, defs: seq<SymbolDef>, uses: seq<SymbolUse>)

  type Analysis = map<ModId, ModAnalysis>

  datatype SymbolRef = SymbolRef(range: TextRange, symbol: Symbol, defMod: Option<ModId>, defRange: TextRange)

  datatype SymbolKey = SymbolKey(mod: ModId, index: nat)

  datatype ModuleIndex = ModuleIndex(symbolRefs: seq<SymbolRef>, dependents: set<ModId>)

  type Index = map<ModId, ModuleIndex>

  function Entry(index: Index, m: ModId): ModuleIndex {
    if m in index then index[m] else ModuleIndex([], {})
  }

  // ---- What the index has to say ----

  /** Definition `i` of module `n` is the one of `s`. */
  predicate DefinedBy(current: Analysis, s: Symbol, n: ModId, i: nat) {
    n in current && i < |current[n].defs| && current[n].defs[i].symbol == s
  }

  ghost predicate OneDefinition(current: Analysis) {
    && (forall s, n, i: nat, m, j: nat {:trigger DefinedBy(current, s, n, i), DefinedBy(current, s, m, j)} ::
          DefinedBy(current, s, n, i) && DefinedBy(current, s, m, j) ==> n == m && i == j)
    && forall s, n, i: nat {:trigger DefinedBy(current, s, n, i)} :: DefinedBy(current, s, n, i) ==> s.Named?
  }

  /** `m` names something that belongs to `n`. */
  ghost predicate Uses(current: Analysis, m: ModId, n: ModId) {
    m in current && exists k :: 0 <= k < |current[m].uses| && BelongsTo(current, current[m].uses[k].symbol, n)
  }

  ghost predicate BelongsTo(current: Analysis, s: Symbol, n: ModId) {
    s == ModuleSymbol(n) || exists i: nat :: DefinedBy(current, s, n, i)
  }

  /** A recorded use points at what the name stands for now. */
  ghost predicate Resolved(current: Analysis, u: SymbolUse, r: SymbolRef) {
    && r.range == u.range && r.symbol == u.symbol
    && match u.symbol
       case ModuleSymbol(n) => r.defMod == Some(n) && n in current && r.defRange == current[n].range
       case Named(_) =>
         if r.defMod.Some? then
           exists i: nat :: DefinedBy(current, u.symbol, r.defMod.value, i) && r.defRange == current[r.defMod.value].defs[i].range
         else forall n, i: nat :: !DefinedBy(current, u.symbol, n, i)
  }

  function DefRef(m: ModId, def: SymbolDef): SymbolRef {
    SymbolRef(def.range, def.symbol, Some(m), def.range)
  }

  /** The references of module `m`: its definitions in order, then `k` of its uses, all pointing at the right place. */
  ghost predicate RefsAre(current: Analysis, index: Index, m: ModId, k: nat)
    requires m in current && k <= |current[m].uses|
  {
    var refs, a := Entry(index, m).symbolRefs, current[m];
    && |refs| == |a.defs| + k
    && (forall i :: 0 <= i < |a.defs| ==> refs[i] == DefRef(m, a.defs[i]))
    && forall j {:trigger a.uses[j]} :: 0 <= j < k ==> Resolved(current, a.uses[j], refs[|a.defs| + j])
  }

  /** Every definition can be looked up by its symbol. */
  ghost predicate KeyFound(current: Analysis, symbolDefs: map<Symbol, SymbolKey>, s: Symbol, n: ModId, i: nat) {
    DefinedBy(current, s, n, i) ==> s in symbolDefs && symbolDefs[s] == SymbolKey(n, i)
  }

  ghost predicate KeysFound(current: Analysis, symbolDefs: map<Symbol, SymbolKey>) {
    forall s, n, i: nat {:trigger KeyFound(current, symbolDefs, s, n, i)} :: KeyFound(current, symbolDefs, s, n, i)
  }

  ghost predicate DependentRecorded(current: Analysis, index: Index, m: ModId, n: ModId) {
    Uses(current, m, n) ==> m in Entry(index, n).dependents
  }

  /** Whoever uses a module is recorded as its dependent; more may be recorded. */
  ghost predicate DependentsRecorded(current: Analysis, index: Index) {
    forall m, n {:trigger DependentRecorded(current, index, m, n)} :: DependentRecorded(current, index, m, n)
  }

  ghost predicate DependentsKnown(index: Index, mods: set<ModId>) {
    forall n, d :: d in Entry(index, n).dependents ==> d in mods
  }

  /** The index agrees with the analysis of every module. */
  ghost predicate Agrees(current: Analysis, index: Index, symbolDefs: map<Symbol, SymbolKey>) {
    && OneDefinition(current) && KeysFound(current, symbolDefs)
    && (forall m | m in current :: RefsAre(current, index, m, |current[m].uses|))
    && DependentsRecorded(current, index) && DependentsKnown(index, current.Keys)
  }

  /** Whoever is recorded as a dependent of `n` uses it, or was recorded before. */
  ghost predicate DependentIsUser(current: Analysis, before: Index, after: Index, n: ModId, d: ModId) {
    d in Entry(after, n).dependents ==> Uses(current, d, n) || d in Entry(before, n).dependents
  }

  ghost predicate OnlyUsersAdded(current: Analysis, before: Index, after: Index) {
    forall n, d {:trigger DependentIsUser(current, before, after, n, d)} :: DependentIsUser(current, before, after, n, d)
  }

  lemma OnlyUsersAddedTwice(current: Analysis, a: Index, b: Index, c: Index)
    requires OnlyUsersAdded(current, a, b) && OnlyUsersAdded(current, b, c)
    ensures OnlyUsersAdded(current, a, c)
  {
    forall n, d
      ensures DependentIsUser(current, a, c, n, d)
    {
      assert DependentIsUser(current, a, b, n, d) && DependentIsUser(current, b, c, n, d);
    }
  }

  lemma NothingAdded(current: Analysis, a: Index, b: Index)
    requires forall n: ModId :: Entry(b, n).dependents <= Entry(a, n).dependents
    ensures OnlyUsersAdded(current, a, b)
  {
    forall n, d
      ensures DependentIsUser(current, a, b, n, d)
    {
      assert Entry(b, n).dependents <= Entry(a, n).dependents;
    }
  }

  lemma RecordedAddsUser(current: Analysis, index: Index, m: ModId, u: SymbolUse, r: SymbolRef, k: nat)
    requires m in current && k < |current[m].uses| && current[m].uses[k] == u && Resolved(current, u, r)
    ensures OnlyUsersAdded(current, index, Recorded(index, m, r))
  {
    forall n: ModId, d
      ensures DependentIsUser(current, index, Recorded(index, m, r), n, d)
    {
      if r.defMod == Some(n) { assert BelongsTo(current, u.symbol, n); }
    }
  }

  // ---- What an update re-analyses ----

  /** From a module to the modules recorded as its dependents. */
  function DependentEdges(index: Index): Edges {
    set n, d | n in index && d in index[n].dependents :: (n, d)
  }

  /** `m` uses `f`, directly or through other modules. */
  ghost predicate UsesTransitively(current: Analysis, m: ModId, f: ModId) {
    exists p :: UsePath(current, p) && p[0] == m && p[|p| - 1] == f
  }

  ghost predicate UsePath(current: Analysis, p: seq<ModId>) {
    |p| > 0 && forall k :: 0 <= k < |p| - 1 ==> Uses(current, p[k], p[k + 1])
  }

  lemma {:induction false} UserIsReached(current: Analysis, index: Index, p: seq<ModId>)
    requires DependentsRecorded(current, index) && UsePath(current, p)
    ensures Reaches(DependentEdges(index), p[|p| - 1], p[0])
    decreases |p|
  {
    if |p| == 1 {
      ReachesSelf(DependentEdges(index), p[0]);
    } else {
      var q := p[1..];
      forall k | 0 <= k < |q| - 1
        ensures Uses(current, q[k], q[k + 1])
      {
        assert Uses(current, p[k + 1], p[k + 1 + 1]);
      }
      UserIsReached(current, index, q);
      assert Uses(current, p[0], p[0 + 1]) && DependentRecorded(current, index, p[0], p[1]);
      ReachesStep(DependentEdges(index), p[|p| - 1], p[1], p[0]);
    }
  }

  /** Everything that uses the edited module, however indirectly, is re-analysed. */
  lemma UsersAreAnalysed(current: Analysis, index: Index, f: ModId, analysed: set<ModId>, m: ModId)
    requires DependentsRecorded(current, index) && f in analysed && Closed(DependentEdges(index), analysed)
    requires UsesTransitively(current, m, f)
    ensures m in analysed
  {
    var p :| UsePath(current, p) && p[0] == m && p[|p| - 1] == f;
    UserIsReached(current, index, p);
    ClosedContainsReachable(DependentEdges(index), analysed, f, m);
  }

  // ---- Re-analysis ----

  /** What analysis of the modules `mods` may report, given what is known of the others. */
  ghost predicate ValidAnalysis(current: Analysis, symbolDefs: map<Symbol, SymbolKey>, mods: set<ModId>, result: Analysis) {
    var next := current + result;
    && result.Keys == mods && OneDefinition(next)
    && (forall m, k :: m in result && 0 <= k < |result[m].uses| ==> UseIsCurrent(next, symbolDefs, result[m].uses[k].symbol))
    && forall m, k :: m in current && m !in mods && 0 <= k < |current[m].uses| ==> NotRedefined(result, current[m].uses[k].symbol)
  }

  /** Modules named exist, and no symbol of an earlier version of a module is named. */
  ghost predicate UseIsCurrent(next: Analysis, symbolDefs: map<Symbol, SymbolKey>, s: Symbol) {
    match s
    case ModuleSymbol(n) => n in next
    case Named(_) => s in symbolDefs ==> Owned(next, s)
  }

  /** Regenerating modules makes new symbols, which nothing else names yet. */
  ghost predicate NotRedefined(result: Analysis, s: Symbol) {
    forall n, i: nat :: !DefinedBy(result, s, n, i)
  }

  /** The uses of a module that is not re-analysed stay what they were. */
  lemma UnaffectedUses(current: Analysis, symbolDefs: map<Symbol, SymbolKey>, index: Index, mods: set<ModId>, result: Analysis, m: ModId, n: ModId)
    requires DependentsRecorded(current, index) && Closed(DependentEdges(index), mods)
    requires ValidAnalysis(current, symbolDefs, mods, result) && m in current && m !in mods
    ensures Uses(current, m, n) ==> n !in mods
    ensures Uses(current + result, m, n) ==> Uses(current, m, n)
  {
    var next := current + result;
    if Uses(current, m, n) {
      assert DependentRecorded(current, index, m, n);
      assert (n, m) in DependentEdges(index);
    }
    if Uses(next, m, n) {
      var k :| 0 <= k < |next[m].uses| && BelongsTo(next, next[m].uses[k].symbol, n);
      var s := current[m].uses[k].symbol;
      assert NotRedefined(result, s);
      if s != ModuleSymbol(n) {
        var i: nat :| DefinedBy(next, s, n, i);
        assert !DefinedBy(result, s, n, i);
        assert DefinedBy(current, s, n, i);
      }
      assert BelongsTo(current, s, n);
    }
  }

  /** A recorded use of an unaffected module still points at the right place. */
  lemma UnaffectedResolved(current: Analysis, symbolDefs: map<Symbol, SymbolKey>, index: Index, mods: set<ModId>, result: Analysis,
                           m: ModId, k: nat, r: SymbolRef)
    requires DependentsRecorded(current, index) && Closed(DependentEdges(index), mods)
    requires ValidAnalysis(current, symbolDefs, mods, result) && m in current && m !in mods
    requires k < |current[m].uses| && Resolved(current, current[m].uses[k], r)
    ensures Resolved(current + result, current[m].uses[k], r)
  {
    var u, next := current[m].uses[k], current + result;
    assert NotRedefined(result, u.symbol);
    match u.symbol
    case ModuleSymbol(n) =>
      assert BelongsTo(current, u.symbol, n);
      UnaffectedUses(current, symbolDefs, index, mods, result, m, n);
    case Named(_) =>
      if r.defMod.Some? {
        var n := r.defMod.value;
        var i: nat :| DefinedBy(current, u.symbol, n, i) && r.defRange == current[n].defs[i].range;
        assert BelongsTo(current, u.symbol, n);
        UnaffectedUses(current, symbolDefs, index, mods, result, m, n);
        assert DefinedBy(next, u.symbol, n, i);
      } else {
        forall n, i: nat
          ensures !DefinedBy(next, u.symbol, n, i)
        {
          assert !DefinedBy(current, u.symbol, n, i) && !DefinedBy(result, u.symbol, n, i);
        }
      }
  }

  // ---- Filling the index ----

  function AddRef(index: Index, m: ModId, r: SymbolRef): Index {
    index[m := Entry(index, m).(symbolRefs := Entry(index, m).symbolRefs + [r])]
  }

  function AddDependent(index: Index, n: ModId, m: ModId): Index {
    index[n := Entry(index, n).(dependents := Entry(index, n).dependents + {m})]
  }

  ghost predicate UsesBefore(current: Analysis, m: ModId, n: ModId, k: nat)
    requires m in current && k <= |current[m].uses|
  {
    exists j :: 0 <= j < k && BelongsTo(current, current[m].uses[j].symbol, n)
  }

  ghost predicate RecordedUpTo(current: Analysis, index: Index, m: ModId, n: ModId, k: nat)
    requires m in current && k <= |current[m].uses|
  {
    UsesBefore(current, m, n, k) ==> m in Entry(index, n).dependents
  }

  ghost predicate FilledFor(current: Analysis, index: Index, m: ModId, k: nat) {
    && m in current && k <= |current[m].uses| && RefsAre(current, index, m, k)
    && forall n {:trigger RecordedUpTo(current, index, m, n, k)} :: RecordedUpTo(current, index, m, n, k)
  }

  /** Of each module `m`, all definitions and the first `counts[m]` uses have been recorded. */
  ghost predicate Filled(current: Analysis, index: Index, counts: map<ModId, nat>) {
    && counts.Keys == current.Keys && DependentsKnown(index, current.Keys)
    && forall m {:trigger FilledFor(current, index, m, counts[m])} | m in counts :: FilledFor(current, index, m, counts[m])
  }

  ghost predicate AllDone(current: Analysis, counts: map<ModId, nat>) {
    forall m | m in counts && m in current :: counts[m] == |current[m].uses|
  }

  lemma FilledAgrees(current: Analysis, index: Index, symbolDefs: map<Symbol, SymbolKey>, counts: map<ModId, nat>)
    requires OneDefinition(current) && KeysFound(current, symbolDefs) && Filled(current, index, counts) && AllDone(current, counts)
    ensures Agrees(current, index, symbolDefs)
  {
    forall m | m in current
      ensures RefsAre(current, index, m, |current[m].uses|)
    {
      assert FilledFor(current, index, m, counts[m]);
    }
    forall m, n
      ensures DependentRecorded(current, index, m, n)
    {
      if Uses(current, m, n) {
        assert FilledFor(current, index, m, counts[m]);
        assert RecordedUpTo(current, index, m, n, counts[m]);
      }
    }
  }

  /** A reference and a dependent more do not disturb what has been recorded for other modules. */
  lemma RecordKeepsOther(current: Analysis, index: Index, m: ModId, r: SymbolRef, x: ModId, k: nat)
    requires x != m && FilledFor(current, index, x, k)
    ensures FilledFor(current, Recorded(index, m, r), x, k)
  {
    var index' := Recorded(index, m, r);
    forall n
      ensures RecordedUpTo(current, index', x, n, k)
    {
      assert RecordedUpTo(current, index, x, n, k);
    }
  }

  /** The index after reference `r` of module `m` has been recorded. */
  function Recorded(index: Index, m: ModId, r: SymbolRef): Index {
    var withDependent := if r.defMod.Some? then AddDependent(index, r.defMod.value, m) else index;
    AddRef(withDependent, m, r)
  }

  lemma RecordExtends(current: Analysis, index: Index, m: ModId, r: SymbolRef, k: nat)
    requires OneDefinition(current) && FilledFor(current, index, m, k) && k < |current[m].uses| && Resolved(current, current[m].uses[k], r)
    ensures FilledFor(current, Recorded(index, m, r), m, k + 1)
  {
    var index', next := Recorded(index, m, r), k + 1;
    var before := Entry(index, m).symbolRefs;
    assert Entry(index', m).symbolRefs == before + [r];
    forall n
      ensures RecordedUpTo(current, index', m, n, next)
    {
      assert RecordedUpTo(current, index, m, n, k);
      if UsesBefore(current, m, n, next) && !UsesBefore(current, m, n, k) {
        assert BelongsTo(current, current[m].uses[k].symbol, n);
        ResolvedNamesOwner(current, current[m].uses[k], r, n);
      }
    }
  }

  lemma ResolvedNamesOwner(current: Analysis, u: SymbolUse, r: SymbolRef, n: ModId)
    requires OneDefinition(current) && Resolved(current, u, r) && BelongsTo(current, u.symbol, n)
    ensures r.defMod == Some(n)
  {
    if u.symbol.Named? {
      var i: nat :| DefinedBy(current, u.symbol, n, i);
      assert r.defMod.Some?;
      var j: nat :| DefinedBy(current, u.symbol, r.defMod.value, j);
    }
  }

  /** The state between the two passes of `build_index`: definitions are in, and uses of modules that stay. */
  lemma DefsRecorded(current: Analysis, symbolDefs: map<Symbol, SymbolKey>, index: Index, mods: set<ModId>, result: Analysis,
                     index': Index, counts: map<ModId, nat>)
    requires Agrees(current, index, symbolDefs) && Closed(DependentEdges(index), mods)
    requires ValidAnalysis(current, symbolDefs, mods, result)
    requires forall m | m !in mods :: Entry(index', m) == Entry(index, m)
    requires forall m | m in mods :: Entry(index', m) == ModuleIndex(DefRefs(m, result[m].defs), {})
    requires counts.Keys == (current + result).Keys
    requires forall m | m in counts :: counts[m] == if m in mods then 0 else |current[m].uses|
    ensures Filled(current + result, index', counts)
  {
    var next := current + result;
    forall m | m in counts
      ensures FilledFor(next, index', m, counts[m])
    {
      if m in mods {
        FreshIsFilled(next, index', m);
      } else {
        StayingIsFilled(current, symbolDefs, index, mods, result, index', m);
      }
    }
  }

  lemma FreshIsFilled(next: Analysis, index: Index, m: ModId)
    requires m in next && Entry(index, m) == ModuleIndex(DefRefs(m, next[m].defs), {})
    ensures FilledFor(next, index, m, 0)
  {
    forall n
      ensures RecordedUpTo(next, index, m, n, 0)
    {
    }
  }

  lemma StayingIsFilled(current: Analysis, symbolDefs: map<Symbol, SymbolKey>, index: Index, mods: set<ModId>, result: Analysis,
                        index': Index, m: ModId)
    requires Agrees(current, index, symbolDefs) && Closed(DependentEdges(index), mods)
    requires ValidAnalysis(current, symbolDefs, mods, result) && m in current && m !in mods
    requires forall n | n !in mods :: Entry(index', n) == Entry(index, n)
    ensures FilledFor(current + result, index', m, |current[m].uses|)
  {
    var next, k := current + result, |current[m].uses|;
    assert RefsAre(current, index, m, k);
    forall j | 0 <= j < k
      ensures Resolved(next, next[m].uses[j], Entry(index', m).symbolRefs[|next[m].defs| + j])
    {
      UnaffectedResolved(current, symbolDefs, index, mods, result, m, j, Entry(index, m).symbolRefs[|current[m].defs| + j]);
    }
    forall n
      ensures RecordedUpTo(next, index', m, n, k)
    {
      if UsesBefore(next, m, n, k) {
        assert Uses(next, m, n);
        UnaffectedUses(current, symbolDefs, index, mods, result, m, n);
        assert DependentRecorded(current, index, m, n);
      }
    }
  }

  function DefRefs(m: ModId, defs: seq<SymbolDef>): (refs: seq<SymbolRef>)
    ensures |refs| == |defs| && forall i :: 0 <= i < |defs| ==> refs[i] == DefRef(m, defs[i])
  {
    if defs == [] then [] else DefRefs(m, defs[..|defs| - 1]) + [DefRef(m, defs[|defs| - 1])]
  }

  /** Keys of all definitions outside `mods`, of those of the modules in `done`, and of the first `k` of module `m`. */
  ghost predicate KeysSoFar(next: Analysis, symbolDefs: map<Symbol, SymbolKey>, todo: set<ModId>, m: ModId, k: nat) {
    forall s, n, i: nat {:trigger KeyFound(next, symbolDefs, s, n, i)} ::
      n !in todo && (n == m ==> i < k) ==> KeyFound(next, symbolDefs, s, n, i)
  }

  lemma KeyAdded(next: Analysis, symbolDefs: map<Symbol, SymbolKey>, todo: set<ModId>, m: ModId, k: nat)
    requires OneDefinition(next) && KeysSoFar(next, symbolDefs, todo, m, k) && m in next && k < |next[m].defs|
    ensures KeysSoFar(next, symbolDefs[next[m].defs[k].symbol := SymbolKey(m, k)], todo, m, k + 1)
  {
    var s, after := next[m].defs[k].symbol, k + 1;
    var symbolDefs' := symbolDefs[s := SymbolKey(m, k)];
    assert DefinedBy(next, s, m, k);
    forall t, n, i: nat | n !in todo && (n == m ==> i < after)
      ensures KeyFound(next, symbolDefs', t, n, i)
    {
      if n != m || i < k { assert KeyFound(next, symbolDefs, t, n, i); }
    }
  }

  lemma DefRefsNext(m: ModId, defs: seq<SymbolDef>, k: nat)
    requires k < |defs|
    ensures DefRefs(m, defs[..k + 1]) == DefRefs(m, defs[..k]) + [DefRef(m, defs[k])]
  {
    assert defs[..k + 1][..k] == defs[..k];
  }

  lemma DefRecorded(next: Analysis, before: map<Symbol, SymbolKey>, symbolDefs: map<Symbol, SymbolKey>, todo: set<ModId>, m: ModId, k: nat)
    requires OneDefinition(next) && m in next && k < |next[m].defs|
    requires KeysSoFar(next, symbolDefs, todo, m, k) && NewKeysOwned(next, before, symbolDefs)
    ensures var after := symbolDefs[next[m].defs[k].symbol := SymbolKey(m, k)];
            KeysSoFar(next, after, todo, m, k + 1) && NewKeysOwned(next, before, after)
  {
    assert DefinedBy(next, next[m].defs[k].symbol, m, k);
    KeyAdded(next, symbolDefs, todo, m, k);
  }

  class Workspace {
    var index: Index
    var symbolDefs: map<Symbol, SymbolKey>
    /** The extent of each module as it was last parsed. */
    var extents: map<ModId, TextRange>

    constructor (extents: map<ModId, TextRange>)
      ensures Consistent(map[]) && index == map[] && symbolDefs == map[] && this.extents == extents
    {
      index, symbolDefs, this.extents := map[], map[], extents;
    }

    /** The index and the extents are those of the latest analysis of every module. */
    ghost predicate Consistent(current: Analysis)
      reads this
    {
      Agrees(current, index, symbolDefs) && RangesOf(current, extents)
    }

    /** Adds everything that depends on `m`, directly or not; cycles end at modules already in the set. */
    method CollectDependents(m: ModId, dependents: set<ModId>, ghost mods: set<ModId>) returns (dependents': set<ModId>)
      requires DependentsKnown(index, mods) && dependents <= mods && m in dependents
      ensures dependents <= dependents' <= mods
      ensures forall d | d in dependents' && d !in dependents :: Reaches(DependentEdges(index), m, d)
      ensures forall a, d :: (a, d) in DependentEdges(index) && (a == m || (a in dependents' && a !in dependents)) ==> d in dependents'
      decreases mods - dependents
    {
      dependents' := dependents;
      var todo := Entry(index, m).dependents;
      while todo != {}
        invariant todo <= Entry(index, m).dependents
        invariant dependents <= dependents' <= mods
        invariant forall d | d in dependents' && d !in dependents :: Reaches(DependentEdges(index), m, d)
        invariant forall a, d :: (a, d) in DependentEdges(index) && a in dependents' && a !in dependents ==> d in dependents'
        invariant forall d :: d in Entry(index, m).dependents - todo ==> d in dependents'
        decreases todo
      {
        var path :| path in todo;
        todo := todo - {path};
        assert (m, path) in DependentEdges(index);
        ReachesSelf(DependentEdges(index), m);
        ReachesStep(DependentEdges(index), m, m, path);
        if path !in dependents' {
          var before := dependents' + {path};
          dependents' := CollectDependents(path, before, mods);
          forall d | d in dependents' && d !in before
            ensures Reaches(DependentEdges(index), m, d)
          {
            ReachesVia(DependentEdges(index), m, path, d);
          }
        }
      }
    }

    method RecordDefs(m: ModId, defs: seq<SymbolDef>, ghost next: Analysis, ghost todo: set<ModId>)
      requires OneDefinition(next) && m in next && next[m].defs == defs && m !in todo
      requires Entry(index, m) == ModuleIndex([], {}) && KeysSoFar(next, symbolDefs, todo, m, 0)
      modifies this`index, this`symbolDefs
      ensures index == old(index)[m := ModuleIndex(DefRefs(m, defs), {})]
      ensures KeysSoFar(next, symbolDefs, todo, m, |defs|) && NewKeysOwned(next, old(symbolDefs), symbolDefs)
    {
      index := index[m := ModuleIndex([], {})];
      for k := 0 to |defs|
        invariant index == old(index)[m := ModuleIndex(DefRefs(m, defs[..k]), {})]
        invariant KeysSoFar(next, symbolDefs, todo, m, k) && NewKeysOwned(next, old(symbolDefs), symbolDefs)
      {
        DefRecorded(next, old(symbolDefs), symbolDefs, todo, m, k);
        symbolDefs := symbolDefs[defs[k].symbol := SymbolKey(m, |Entry(index, m).symbolRefs|)];
        index := AddRef(index, m, DefRef(m, defs[k]));
        DefRefsNext(m, defs, k);
      }
      assert defs[..|defs|] == defs;
    }

    /** First pass over the analysis: the definitions of all re-analysed modules. */
    method RecordAllDefs(analysis: Analysis, ghost next: Analysis)
      requires OneDefinition(next) && (forall m | m in analysis :: m in next && next[m] == analysis[m] && m !in index)
      requires KeysExcept(next, symbolDefs, analysis.Keys)
      modifies this`index, this`symbolDefs
      ensures KeysFound(next, symbolDefs) && NewKeysOwned(next, old(symbolDefs), symbolDefs)
      ensures forall m | m !in analysis :: Entry(index, m) == Entry(old(index), m)
      ensures forall m | m in analysis :: Entry(index, m) == ModuleIndex(DefRefs(m, analysis[m].defs), {})
    {
      var todo := analysis.Keys;
      while todo != {}
        invariant todo <= analysis.Keys && KeysExcept(next, symbolDefs, todo) && NewKeysOwned(next, old(symbolDefs), symbolDefs)
        invariant forall m | m !in analysis :: Entry(index, m) == Entry(old(index), m)
        invariant forall m | m in analysis :: if m in todo then m !in index else Entry(index, m) == ModuleIndex(DefRefs(m, analysis[m].defs), {})
        decreases todo
      {
        var m :| m in todo;
        todo := todo - {m};
        KeysBefore(next, symbolDefs, todo, m);
        RecordDefs(m, analysis[m].defs, next, todo);
        KeysAfter(next, symbolDefs, todo, m);
      }
      KeysAreAll(next, symbolDefs);
    }

    /** What a used name stands for, by the definitions recorded so far. */
    method ResolveUse(u: SymbolUse, ghost current: Analysis, ghost counts: map<ModId, nat>, ranges: map<ModId, TextRange>)
      returns (r: SymbolRef)
      requires OneDefinition(current) && KeysFound(current, symbolDefs) && Filled(current, index, counts)
      requires SymbolIsCurrent(current, symbolDefs, u.symbol) && RangesOf(current, ranges)
      ensures Resolved(current, u, r)
      ensures r.defMod.Some? ==> r.defMod.value in current
    {
      r := SymbolRef(u.range, u.symbol, None, TextRange(0, 0));
      match u.symbol
      case ModuleSymbol(n) =>
        r := r.(defMod := Some(n), defRange := ranges[n]);
      case Named(_) =>
        if u.symbol in symbolDefs {
          var key := symbolDefs[u.symbol];
          ghost var n: nat, i: nat :| DefinedBy(current, u.symbol, n, i);
          assert KeyFound(current, symbolDefs, u.symbol, n, i);
          assert FilledFor(current, index, n, counts[n]);
          var def := Entry(index, key.mod).symbolRefs[key.index];
          r := r.(defMod := def.defMod, defRange := def.defRange);
        } else {
          forall n, i: nat
            ensures !DefinedBy(current, u.symbol, n, i)
          {
            assert KeyFound(current, symbolDefs, u.symbol, n, i);
          }
        }
    }

    /** One use: the reference, and the user as a dependent of the module that defines the name. */
    method RecordUse(m: ModId, u: SymbolUse, ghost current: Analysis, ghost counts: map<ModId, nat>, ranges: map<ModId, TextRange>)
      returns (ghost counts': map<ModId, nat>)
      requires OneDefinition(current) && KeysFound(current, symbolDefs) && Filled(current, index, counts) && RangesOf(current, ranges)
      requires SymbolIsCurrent(current, symbolDefs, u.symbol)
      requires m in counts && m in current && counts[m] < |current[m].uses| && current[m].uses[counts[m]] == u
      modifies this`index
      ensures Filled(current, index, counts') && counts' == counts[m := counts[m] + 1]
      ensures OnlyUsersAdded(current, old(index), index)
    {
      var r := ResolveUse(u, current, counts, ranges);
      RecordedAddsUser(current, index, m, u, r, counts[m]);
      counts' := counts[m := counts[m] + 1];
      FilledNext(current, index, counts, m, r);
      if r.defMod.Some? {
        index := AddDependent(index, r.defMod.value, m);
      }
      index := AddRef(index, m, r);
    }

    method RecordUses(m: ModId, uses: seq<SymbolUse>, ghost current: Analysis, ghost counts: map<ModId, nat>, ranges: map<ModId, TextRange>)
      returns (ghost counts': map<ModId, nat>)
      requires OneDefinition(current) && KeysFound(current, symbolDefs) && Filled(current, index, counts) && RangesOf(current, ranges)
      requires m in counts && counts[m] == 0 && m in current && current[m].uses == uses
      requires forall k :: 0 <= k < |uses| ==> SymbolIsCurrent(current, symbolDefs, uses[k].symbol)
      modifies this`index
      ensures Filled(current, index, counts') && counts' == counts[m := |uses|]
      ensures OnlyUsersAdded(current, old(index), index)
    {
      counts' := counts;
      NothingAdded(current, index, index);
      for k := 0 to |uses|
        invariant Filled(current, index, counts') && counts' == counts[m := k]
        invariant OnlyUsersAdded(current, old(index), index)
      {
        ghost var before := index;
        counts' := RecordUse(m, uses[k], current, counts', ranges);
        OnlyUsersAddedTwice(current, old(index), before, index);
      }
    }

    /** Second pass: the uses of all re-analysed modules. */
    method RecordAllUses(analysis: Analysis, ghost current: Analysis, ghost counts: map<ModId, nat>, ranges: map<ModId, TextRange>)
      requires OneDefinition(current) && KeysFound(current, symbolDefs) && Filled(current, index, counts) && RangesOf(current, ranges)
      requires forall m | m in current :: counts[m] == if m in analysis then 0 else |current[m].uses|
      requires forall m | m in analysis :: m in current && current[m] == analysis[m]
      requires forall m, k :: m in analysis && 0 <= k < |analysis[m].uses| ==> SymbolIsCurrent(current, symbolDefs, analysis[m].uses[k].symbol)
      modifies this`index
      ensures Agrees(current, index, symbolDefs) && OnlyUsersAdded(current, old(index), index)
    {
      ghost var reached := counts;
      NothingAdded(current, index, index);
      var todo := analysis.Keys;
      while todo != {}
        invariant todo <= analysis.Keys && Filled(current, index, reached) && OnlyUsersAdded(current, old(index), index)
        invariant forall m | m in current :: reached[m] == if m in todo then 0 else |current[m].uses|
        decreases todo
      {
        var m :| m in todo;
        todo := todo - {m};
        ghost var before := index;
        reached := RecordUses(m, analysis[m].uses, current, reached, ranges);
        OnlyUsersAddedTwice(current, old(index), before, index);
      }
      FilledAgrees(current, index, symbolDefs, reached);
    }

    /** First half of `build_index`: erase, then record definitions. */
    method EraseAndDefine(analysis: Analysis, mods: set<ModId>, ghost current: Analysis) returns (ghost counts: map<ModId, nat>)
      requires Agrees(current, index, symbolDefs) && Closed(DependentEdges(index), mods)
      requires ValidAnalysis(current, symbolDefs, mods, analysis)
      modifies this`index, this`symbolDefs
      ensures KeysFound(current + analysis, symbolDefs) && NewKeysOwned(current + analysis, old(symbolDefs), symbolDefs)
      ensures Filled(current + analysis, index, counts)
      ensures forall m | m in current + analysis :: counts[m] == if m in mods then 0 else |current[m].uses|
      ensures forall n :: Entry(index, n).dependents == if n in mods then {} else Entry(old(index), n).dependents
    {
      ghost var before, keys, next := index, symbolDefs, current + analysis;
      counts := map m | m in next :: if m in mods then 0 else |current[m].uses|;
      index := index - mods;
      KeysOfOthers(current, keys, mods, analysis);
      RecordAllDefs(analysis, next);
      DefsRecorded(current, keys, before, mods, analysis, index, counts);
    }

    /** Forgets what is known of the re-analysed modules and records what analysis has found. */
    method BuildIndex(analysis: Analysis, mods: set<ModId>, ghost current: Analysis, ranges: map<ModId, TextRange>)
      requires Agrees(current, index, symbolDefs) && Closed(DependentEdges(index), mods)
      requires ValidAnalysis(current, symbolDefs, mods, analysis) && RangesOf(current + analysis, ranges)
      modifies this`index, this`symbolDefs
      ensures Agrees(current + analysis, index, symbolDefs)
      ensures OnlyUsersAdded(current + analysis, old(index) - mods, index)
    {
      ghost var keys, kept := symbolDefs, index - mods;
      ghost var counts := EraseAndDefine(analysis, mods, current);
      NothingAdded(current + analysis, kept, index);
      ghost var before := index;
      UsesAreCurrent(current, keys, symbolDefs, mods, analysis);
      RecordAllUses(analysis, current + analysis, counts, ranges);
      OnlyUsersAddedTwice(current + analysis, kept, before, index);
    }

    /** Analysis of all modules into an empty index. */
    method Initialize(analysis: Analysis)
      requires index == map[] && symbolDefs == map[]
      requires ValidAnalysis(map[], map[], analysis.Keys, analysis) && RangesOf(analysis, extents)
      modifies this`index, this`symbolDefs
      ensures Consistent(analysis)
      ensures forall n, d :: d in Entry(index, n).dependents <==> Uses(analysis, d, n)
    {
      assert map[] + analysis == analysis;
      assert index - analysis.Keys == map[];
      BuildIndex(analysis, analysis.Keys, map[], extents);
      forall n, d
        ensures d in Entry(index, n).dependents <==> Uses(analysis, d, n)
      {
        assert DependentIsUser(analysis, map[], index, n, d) && DependentRecorded(analysis, index, d, n);
      }
    }

    /** The modules an edit of `file` makes it necessary to analyse again. */
    method ModulesToAnalyse(file: ModId, ghost current: Analysis) returns (mods: set<ModId>)
      requires Agrees(current, index, symbolDefs) && file in current
      ensures forall d :: d in mods <==> Reaches(DependentEdges(index), file, d)
      ensures file in mods && mods <= current.Keys && Closed(DependentEdges(index), mods)
      ensures forall m | UsesTransitively(current, m, file) :: m in mods
    {
      mods := CollectDependents(file, {file}, current.Keys);
      ReachesSelf(DependentEdges(index), file);
      forall d: ModId | Reaches(DependentEdges(index), file, d)
        ensures d in mods
      {
        ClosedContainsReachable(DependentEdges(index), mods, file, d);
      }
      forall m | UsesTransitively(current, m, file)
        ensures m in mods
      {
        UsersAreAnalysed(current, index, file, mods, m);
      }
    }

    /** A set of modules that an edit of `file` may make it necessary to analyse again. */
    ghost predicate Affected(current: Analysis, file: ModId, mods: set<ModId>)
      reads this
    {
      file in mods && mods <= current.Keys && Closed(DependentEdges(index), mods)
    }

    /**
      An edit, after which the file has a new extent: the modules that depend on the file are analysed again and their part
      of the index is replaced. Files that are not part of the workspace change nothing. `analyze` stands for semantic
      analysis of the given modules.
     */
    method Update(file: Option<ModId>, extent: TextRange, analyze: set<ModId> -> Analysis, ghost current: Analysis)
      returns (analysed: set<ModId>, ghost current': Analysis)
      requires Consistent(current) && (file.Some? ==> file.value in current)
      requires file.Some? ==> forall mods | Affected(current, file.value, mods) ::
                 ValidAnalysis(current, symbolDefs, mods, analyze(mods)) && RangesOf(analyze(mods), extents[file.value := extent])
      modifies this
      ensures file.None? ==> analysed == {} && current' == current && index == old(index) && symbolDefs == old(symbolDefs) && extents == old(extents)
      ensures file.Some? ==>
                && (forall d :: d in analysed <==> Reaches(DependentEdges(old(index)), file.value, d))
                && (forall m | UsesTransitively(current, m, file.value) :: m in analysed)
                && analysed <= current.Keys && current' == current + analyze(analysed)
                && extents == old(extents)[file.value := extent] && current'[file.value].range == extent
                && OnlyUsersAdded(current', old(index) - analysed, index)
      ensures current'.Keys == current.Keys && Consistent(current')
    {
      analysed, current' := {}, current;
      if file.Some? {
        analysed := ModulesToAnalyse(file.value, current);
        var analysis := analyze(analysed);
        current' := current + analysis;
        RangesAfter(current, analysis, extents, file.value, extent);
        extents := extents[file.value := extent];
        BuildIndex(analysis, analysed, current, extents);
      }
    }
  }

  lemma RangesAfter(current: Analysis, result: Analysis, ranges: map<ModId, TextRange>, file: ModId, extent: TextRange)
    requires RangesOf(current, ranges) && RangesOf(result, ranges[file := extent]) && file in result
    ensures RangesOf(current + result, ranges[file := extent])
  {
  }

  // ---- Any sequence of edits ----

  /** A changed file, if it belongs to the workspace, and its extent after the change. */
  datatype Edit = Edit(file: Option<ModId>, extent: TextRange)

  /** Semantic analysis after the `k`-th edit, given what is known: the other modules, names, and extents. */
  type Analyzer = (nat, Analysis, map<Symbol, SymbolKey>, map<ModId, TextRange>, set<ModId>) -> Analysis

  ghost predicate AnalyzesAt(analyze: Analyzer, k: nat, current: Analysis, keys: map<Symbol, SymbolKey>, ranges: map<ModId, TextRange>,
                             mods: set<ModId>)
  {
    var result := analyze(k, current, keys, ranges, mods);
    ValidAnalysis(current, keys, mods, result) && RangesOf(result, ranges)
  }

  /** Whatever is known, it analyses the modules it is given. */
  ghost predicate Analyzes(analyze: Analyzer) {
    forall k, current: Analysis, keys, ranges: map<ModId, TextRange>, mods {:trigger AnalyzesAt(analyze, k, current, keys, ranges, mods)} ::
      OneDefinition(current) && mods <= current.Keys <= ranges.Keys ==> AnalyzesAt(analyze, k, current, keys, ranges, mods)
  }

  /** What one edit does to what is known, when the modules `analysed` were analysed again. */
  ghost predicate Edited(edit: Edit, before: Analysis, analysed: set<ModId>, after: Analysis) {
    && after.Keys == before.Keys && (forall m | m in before && m !in analysed :: after[m] == before[m])
    && (edit.file.None? ==> analysed == {})
    && (edit.file.Some? && edit.file.value in before ==>
          after[edit.file.value].range == edit.extent && forall m | UsesTransitively(before, m, edit.file.value) :: m in analysed)
  }

  /** What is known after each of the first `n` edits, and the modules analysed for each. */
  ghost predicate History(edits: seq<Edit>, states: seq<Analysis>, analysed: seq<set<ModId>>, n: nat) {
    && n <= |edits| && |states| == n + 1 && |analysed| == n
    && forall k | 0 <= k < n :: Edited(edits[k], states[k], analysed[k], states[k + 1])
  }

  lemma HistoryGoesOn(edits: seq<Edit>, states: seq<Analysis>, analysed: seq<set<ModId>>, n: nat, mods: set<ModId>, after: Analysis)
    requires History(edits, states, analysed, n) && n < |edits| && Edited(edits[n], states[n], mods, after)
    ensures History(edits, states + [after], analysed + [mods], n + 1)
  {
  }

  /** The server's notifications of changes, one after the other. */
  method Serve(ws: Workspace, edits: seq<Edit>, analyze: Analyzer, current: Analysis)
    returns (current': Analysis, ghost states: seq<Analysis>, ghost analysed: seq<set<ModId>>)
    requires ws.Consistent(current) && Analyzes(analyze)
    requires forall k | 0 <= k < |edits| :: edits[k].file.Some? ==> edits[k].file.value in current
    modifies ws
    ensures ws.Consistent(current') && current'.Keys == current.Keys
    ensures History(edits, states, analysed, |edits|) && states[0] == current && states[|edits|] == current'
  {
    current', states, analysed := current, [current], [];
    for k := 0 to |edits|
      invariant ws.Consistent(current') && current'.Keys == current.Keys
      invariant History(edits, states, analysed, k) && states[0] == current && states[k] == current'
    {
      var mods;
      current', mods := ServeOne(ws, k, edits[k], analyze, current');
      HistoryGoesOn(edits, states, analysed, k, mods, current');
      states, analysed := states + [current'], analysed + [mods];
    }
  }

  method ServeOne(ws: Workspace, k: nat, edit: Edit, analyze: Analyzer, current: Analysis) returns (current': Analysis, mods: set<ModId>)
    requires ws.Consistent(current) && Analyzes(analyze) && (edit.file.Some? ==> edit.file.value in current)
    modifies ws
    ensures ws.Consistent(current') && current'.Keys == current.Keys && Edited(edit, current, mods, current')
  {
    current' := current;
    var keys := ws.symbolDefs;
    var ranges := if edit.file.Some? then ws.extents[edit.file.value := edit.extent] else ws.extents;
    var analyzeNow := (mods: set<ModId>) => analyze(k, current, keys, ranges, mods);
    forall mods | mods <= current.Keys
      ensures ValidAnalysis(current, keys, mods, analyzeNow(mods)) && RangesOf(analyzeNow(mods), ranges)
    {
      assert AnalyzesAt(analyze, k, current, keys, ranges, mods);
    }
    ghost var after;
    mods, after := ws.Update(edit.file, edit.extent, analyzeNow, current);
    if edit.file.Some? {
      current' := current + analyzeNow(mods);
    }
  }

  /** Modules without definitions and uses, at their places. */
  function Bare(mods: set<ModId>, ranges: map<ModId, TextRange>): Analysis
    requires mods <= ranges.Keys
  {
    map m | m in mods :: ModAnalysis(ranges[m], [], [])
  }

  /** Such an analyzer exists, so what is asked of one excludes no edit, whatever the file's extent was and is. */
  lemma BareAnalyzes()
    ensures Analyzes((k, current, keys, ranges: map<ModId, TextRange>, mods: set<ModId>) => if mods <= ranges.Keys then Bare(mods, ranges) else map[])
  {
    var analyze: Analyzer :=
      (k, current, keys, ranges: map<ModId, TextRange>, mods: set<ModId>) => if mods <= ranges.Keys then Bare(mods, ranges) else map[];
    forall k, current: Analysis, keys, ranges: map<ModId, TextRange>, mods | OneDefinition(current) && mods <= current.Keys <= ranges.Keys
      ensures AnalyzesAt(analyze, k, current, keys, ranges, mods)
    {
      AnyEditCanBeAnalysed(current, keys, ranges, mods);
    }
  }

  lemma AnyEditCanBeAnalysed(current: Analysis, keys: map<Symbol, SymbolKey>, ranges: map<ModId, TextRange>, mods: set<ModId>)
    requires OneDefinition(current) && mods <= current.Keys <= ranges.Keys
    ensures ValidAnalysis(current, keys, mods, Bare(mods, ranges)) && RangesOf(Bare(mods, ranges), ranges)
  {
    var next := current + Bare(mods, ranges);
    forall s, n, i: nat | DefinedBy(next, s, n, i)
      ensures DefinedBy(current, s, n, i)
    {
    }
  }

  lemma UsesAreCurrent(current: Analysis, before: map<Symbol, SymbolKey>, after: map<Symbol, SymbolKey>, mods: set<ModId>, result: Analysis)
    requires ValidAnalysis(current, before, mods, result) && NewKeysOwned(current + result, before, after)
    ensures forall m, k :: m in result && 0 <= k < |result[m].uses| ==> SymbolIsCurrent(current + result, after, result[m].uses[k].symbol)
  {
    forall m, k | m in result && 0 <= k < |result[m].uses|
      ensures SymbolIsCurrent(current + result, after, result[m].uses[k].symbol)
    {
      assert UseIsCurrent(current + result, before, result[m].uses[k].symbol);
    }
  }

  /** The extents of the modules, which references to a module itself point at. */
  ghost predicate RangesOf(current: Analysis, ranges: map<ModId, TextRange>) {
    forall n | n in current :: n in ranges && ranges[n] == current[n].range
  }

  ghost predicate Owned(current: Analysis, s: Symbol) {
    exists n, i: nat :: DefinedBy(current, s, n, i)
  }

  /** Only names with a definition have got new keys. */
  ghost predicate NewKeysOwned(current: Analysis, before: map<Symbol, SymbolKey>, after: map<Symbol, SymbolKey>) {
    forall s :: s in after ==> s in before || Owned(current, s)
  }

  /** A name that has a key has a definition. */
  ghost predicate SymbolIsCurrent(current: Analysis, symbolDefs: map<Symbol, SymbolKey>, s: Symbol) {
    match s
    case ModuleSymbol(n) => n in current
    case Named(_) => s in symbolDefs ==> Owned(current, s)
  }

  ghost predicate KeysExcept(next: Analysis, symbolDefs: map<Symbol, SymbolKey>, todo: set<ModId>) {
    forall s, n, i: nat {:trigger KeyFound(next, symbolDefs, s, n, i)} :: n !in todo ==> KeyFound(next, symbolDefs, s, n, i)
  }

  lemma KeysBefore(next: Analysis, symbolDefs: map<Symbol, SymbolKey>, todo: set<ModId>, m: ModId)
    requires KeysExcept(next, symbolDefs, todo + {m})
    ensures KeysSoFar(next, symbolDefs, todo, m, 0)
  {
    forall s, n, i: nat | n !in todo && (n == m ==> i < 0)
      ensures KeyFound(next, symbolDefs, s, n, i)
    {
      assert n !in todo + {m};
    }
  }

  lemma KeysAfter(next: Analysis, symbolDefs: map<Symbol, SymbolKey>, todo: set<ModId>, m: ModId)
    requires m in next && KeysSoFar(next, symbolDefs, todo, m, |next[m].defs|)
    ensures KeysExcept(next, symbolDefs, todo)
  {
    forall s, n, i: nat | n !in todo
      ensures KeyFound(next, symbolDefs, s, n, i)
    {
      if n != m || i < |next[m].defs| { assert KeyFound(next, symbolDefs, s, n, i); }
    }
  }

  lemma KeysAreAll(next: Analysis, symbolDefs: map<Symbol, SymbolKey>)
    requires KeysExcept(next, symbolDefs, {})
    ensures KeysFound(next, symbolDefs)
  {
    forall s, n, i: nat
      ensures KeyFound(next, symbolDefs, s, n, i)
    {
      assert n !in {};
    }
  }

  /** Keys of definitions outside the re-analysed modules stay right. */
  lemma KeysOfOthers(current: Analysis, symbolDefs: map<Symbol, SymbolKey>, mods: set<ModId>, result: Analysis)
    requires KeysFound(current, symbolDefs) && result.Keys == mods
    ensures KeysExcept(current + result, symbolDefs, mods)
  {
    forall s, n, i: nat | n !in mods
      ensures KeyFound(current + result, symbolDefs, s, n, i)
    {
      assert KeyFound(current, symbolDefs, s, n, i);
    }
  }

  lemma FilledNext(current: Analysis, index: Index, counts: map<ModId, nat>, m: ModId, r: SymbolRef)
    requires OneDefinition(current) && Filled(current, index, counts) && m in counts && counts[m] < |current[m].uses|
    requires Resolved(current, current[m].uses[counts[m]], r)
    ensures Filled(current, Recorded(index, m, r), counts[m := counts[m] + 1])
  {
    var counts' := counts[m := counts[m] + 1];
    forall x {:trigger FilledFor(current, Recorded(index, m, r), x, counts'[x])} | x in counts'
      ensures FilledFor(current, Recorded(index, m, r), x, counts'[x])
    {
      FilledNextFor(current, index, counts, m, r, x);
    }
    RecordedKnown(index, m, r, current.Keys);
  }

  lemma RecordedKnown(index: Index, m: ModId, r: SymbolRef, mods: set<ModId>)
    requires DependentsKnown(index, mods) && m in mods
    ensures DependentsKnown(Recorded(index, m, r), mods)
  {
    forall n, d | d in Entry(Recorded(index, m, r), n).dependents
      ensures d in mods
    {
      assert d in Entry(index, n).dependents || d == m;
    }
  }

  lemma FilledNextFor(current: Analysis, index: Index, counts: map<ModId, nat>, m: ModId, r: SymbolRef, x: ModId)
    requires OneDefinition(current) && Filled(current, index, counts) && m in counts && counts[m] < |current[m].uses|
    requires Resolved(current, current[m].uses[counts[m]], r) && x in counts
    ensures FilledFor(current, Recorded(index, m, r), x, if x == m then counts[m] + 1 else counts[x])
  {
    assert FilledFor(current, index, x, counts[x]);
    if x == m { RecordExtends(current, index, m, r, counts[m]); } else { RecordKeepsOther(current, index, m, r, x, counts[x]); }
  }
}
