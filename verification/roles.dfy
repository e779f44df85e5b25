/**
  The scan for live ranges as it concerns one register and one point of a block (src/banjo/codegen/liveness.cpp, KILL
  included). What each instruction does with the register is its role; the scan is followed on numbers alone, and the
  points that end up in no range are found exactly.
 */
module Roles {

  /** What an instruction does with a register besides clobbering it; `Exchanges` reads it and leaves a result in it. */
  datatype Does = Nothing | Reads | Defines | Updates | Exchanges

  datatype Role = Role(killed: bool, does: Does) {
    predicate Reading() { does == Reads || does == Updates || does == Exchanges }
    predicate Defining() { does == Defines || does == Exchanges }
    predicate Writing() { does == Updates || Defining() }
    predicate Resetting() { killed || Defining() }
  }

  /** The value before instruction `i` may still be read. */
  predicate Live(roles: seq<Role>, out: bool, i: nat)
    requires i <= |roles|
    decreases |roles| - i
  {
    if i == |roles| then out else roles[i].Reading() || (!roles[i].Resetting() && Live(roles, out, i + 1))
  }

  /** The register holds a value of this block, or one its predecessors keep, and it is still to be read. */
  predicate Holding(roles: seq<Role>, in_: bool, out: bool, i: nat)
    requires i <= |roles|
  {
    Live(roles, out, i) && (in_ || exists k | 0 <= k < i :: roles[k].Resetting())
  }

  // ---- The scan, seen from point `w` ----

  /** Whether the register is live, a closed range covers `w`, and where the last range starts and ends. */
  datatype View = View(live: bool, hit: bool, lo: int, hi: int)

  function Kill(s: View, w: nat): View {
    View(false, s.hit || (s.live && s.lo <= w <= s.hi), s.lo, s.hi)
  }

  function Use(s: View, i: nat): View {
    if s.live then s else View(true, s.hit, 2 * i, 2 * i)
  }

  function UseDef(s: View, i: nat): View {
    if s.live then s else View(true, s.hit, 2 * i, 2 * i + 1)
  }

  function Def(s: View, w: nat, i: nat): View {
    if s.live then View(false, s.hit || 2 * i + 1 <= w <= s.hi, 2 * i + 1, s.hi)
    else View(false, s.hit || w == 2 * i + 1, 2 * i + 1, 2 * i + 1)
  }

  function Step(s: View, w: nat, i: nat, role: Role): View {
    var t := if role.killed then Kill(s, w) else s;
    match role.does
    case Nothing => t
    case Reads => Use(t, i)
    case Defines => Def(t, w, i)
    case Updates => UseDef(t, i)
    case Exchanges => Def(Use(t, i), w, i)
  }

  function Scan(roles: seq<Role>, out: bool, w: nat, i: nat): View
    requires i <= |roles|
    decreases |roles| - i
  {
    if i == |roles| then (if out then View(true, false, 0, 2 * |roles| - 1) else View(false, false, 0, -1))
    else Step(Scan(roles, out, w, i + 1), w, i, roles[i])
  }

  /** A register live into the block has its last range start at the top. */
  predicate Finish(s: View, in_: bool, w: nat) {
    s.hit || (if in_ then w <= s.hi else s.live && s.lo <= w <= s.hi)
  }

  predicate Covered(roles: seq<Role>, in_: bool, out: bool, w: nat) {
    Finish(Scan(roles, out, w, 0), in_, w)
  }

  // ---- What has to be covered, and when it is ----

  /** Around instruction `i`; the point where a register is clobbered is protected by itself. */
  predicate PointsCovered(roles: seq<Role>, in_: bool, out: bool, i: nat)
    requires i < |roles|
  {
    && (Holding(roles, in_, out, i) ==> Covered(roles, in_, out, 2 * i))
    && (Holding(roles, in_, out, i + 1) || roles[i].Writing() ==> Covered(roles, in_, out, 2 * i + 1) || roles[i].killed)
  }

  /** Exchanges are clobbers, and a value they read is defined before or comes in; so is one that leaves the block. */
  predicate Setting(roles: seq<Role>, in_: bool, out: bool) {
    && (forall x | 0 <= x < |roles| && roles[x].does == Exchanges :: roles[x].killed)
    && (!in_ ==> forall x | 0 <= x < |roles| && roles[x].does == Exchanges :: DefinedBefore(roles, x))
    && (!in_ && out ==> DefinedBefore(roles, |roles|))
  }

  predicate DefinedBefore(roles: seq<Role>, x: nat)
    requires x <= |roles|
  {
    exists d | 0 <= d < x :: roles[d].Defining()
  }

  /** The last reset in the block is a clobber, and the register is live out: the block's first range is never cut short. */
  predicate WholeBlock(roles: seq<Role>, out: bool) {
    out && exists i | 0 <= i < |roles| :: roles[i].killed && NoResetIn(roles, i + 1, |roles|)
  }

  predicate NoResetIn(roles: seq<Role>, i: nat, j: nat)
    requires j <= |roles|
  {
    forall l | i <= l < j :: !roles[l].Resetting()
  }

  /** No instruction before `i` reads or writes the register. */
  predicate Untouched(roles: seq<Role>, i: nat)
    requires i <= |roles|
  {
    forall l | 0 <= l < i :: roles[l].does == Nothing
  }

  /** What a clobbering instruction leaves in the register is not read after the next instruction. */
  predicate ReadAtOnce(roles: seq<Role>, out: bool, l: nat)
    requires l < |roles|
  {
    roles[l].killed && l + 1 < |roles| && Live(roles, out, l + 1) ==> roles[l + 1].Resetting() || !Live(roles, out, l + 2)
  }

  /** An in-place update of a value nobody kept, and a later read of its result. */
  predicate EarlyUpdate(roles: seq<Role>) {
    exists j, k | 0 <= j < k < |roles| :: roles[j].does == Updates && roles[k].Reading() && NoResetIn(roles, 0, k)
  }

  predicate Protected(roles: seq<Role>, in_: bool, out: bool) {
    WholeBlock(roles, out) ||
    (&& (in_ || !EarlyUpdate(roles))
     && (forall x | 0 <= x < |roles| && roles[x].does == Exchanges :: in_ && Untouched(roles, x))
     && (forall l | 0 <= l < |roles| :: ReadAtOnce(roles, out, l) || (in_ && Untouched(roles, l + 1))))
  }

  // ---- The scan ----

  lemma {:induction false} HitStays(roles: seq<Role>, out: bool, w: nat, l: nat, i: nat)
    requires l <= i <= |roles| && Scan(roles, out, w, i).hit
    ensures Scan(roles, out, w, l).hit
    decreases i - l
  {
    if l < i { HitStays(roles, out, w, l + 1, i); }
  }

  /** Where the scan takes a register for live, it is; and its range reaches that far. */
  lemma {:induction false} SeenIsLive(roles: seq<Role>, out: bool, w: nat, i: nat)
    requires i <= |roles| && Scan(roles, out, w, i).live
    ensures Live(roles, out, i) && Scan(roles, out, w, i).hi >= 2 * i - 1 && (i < |roles| ==> Scan(roles, out, w, i).hi >= 2 * i)
    decreases |roles| - i
  {
    if i < |roles| && Scan(roles, out, w, i + 1).live { SeenIsLive(roles, out, w, i + 1); }
  }

  /** A live register the scan takes for dead is read by an exchange, before anything else touches it. */
  lemma {:induction false} UnseenIsExchanged(roles: seq<Role>, out: bool, w: nat, i: nat) returns (x: nat)
    requires i <= |roles| && Live(roles, out, i) && !Scan(roles, out, w, i).live
    ensures i <= x < |roles| && roles[x].does == Exchanges && NoResetIn(roles, i, x)
    ensures Scan(roles, out, w, x).hi == Scan(roles, out, w, i).hi && Scan(roles, out, w, i).hit == Scan(roles, out, w, x).hit
    decreases |roles| - i
  {
    x := i;
    if roles[i].does != Exchanges { x := UnseenIsExchanged(roles, out, w, i + 1); }
  }

  /** Nothing changes while a live value is passed or read. */
  lemma {:induction false} CarryDown(roles: seq<Role>, out: bool, w: nat, l: nat, i: nat)
    requires l <= i <= |roles| && NoResetIn(roles, l, i) && Scan(roles, out, w, i).live
    ensures Scan(roles, out, w, l) == Scan(roles, out, w, i)
    decreases i - l
  {
    if l < i { CarryDown(roles, out, w, l + 1, i); }
  }

  lemma {:induction false} LiveDown(roles: seq<Role>, out: bool, l: nat, i: nat)
    requires l <= i <= |roles| && NoResetIn(roles, l, i) && Live(roles, out, i)
    ensures Live(roles, out, l)
    decreases i - l
  {
    if l < i { LiveDown(roles, out, l + 1, i); }
  }

  /** The last reset before `i`. */
  function LastReset(roles: seq<Role>, i: nat): (l: int)
    requires i <= |roles|
    ensures -1 <= l < i && (l >= 0 ==> roles[l].Resetting()) && NoResetIn(roles, l + 1, i)
  {
    if i == 0 then -1 else if roles[i - 1].Resetting() then i - 1 else LastReset(roles, i - 1)
  }

  /** A read above, down to where nothing touches the register: the last range keeps its end. */
  lemma {:induction false} UntouchedKeepsEnd(roles: seq<Role>, out: bool, w: nat, x: nat)
    requires x <= |roles| && Untouched(roles, x)
    ensures Scan(roles, out, w, 0).hi == Scan(roles, out, w, x).hi
    decreases x
  {
    if x > 0 { UntouchedKeepsEnd(roles, out, w, x - 1); }
  }

  // ---- Protected points are covered ----

  lemma {:induction false} WholeUntil(roles: seq<Role>, w: nat, i: nat)
    requires i <= |roles| && NoResetIn(roles, i, |roles|)
    ensures Scan(roles, true, w, i) == View(true, false, 0, 2 * |roles| - 1)
    decreases |roles| - i
  {
    if i < |roles| { WholeUntil(roles, w, i + 1); }
  }

  lemma WholeCoversAll(roles: seq<Role>, in_: bool, out: bool, w: nat)
    requires WholeBlock(roles, out) && w < 2 * |roles|
    ensures Covered(roles, in_, out, w)
  {
    var i :| 0 <= i < |roles| && roles[i].killed && NoResetIn(roles, i + 1, |roles|);
    WholeUntil(roles, w, i + 1);
    HitStays(roles, out, w, 0, i);
  }

  /** The value comes in, and an exchange reads it: the range that the exchange leaves is made to start at the top. */
  lemma ExchangeCoversFromTop(roles: seq<Role>, out: bool, w: nat, x: nat)
    requires x < |roles| && roles[x].does == Exchanges && Untouched(roles, x) && w <= 2 * x
    ensures Covered(roles, true, out, w)
  {
    UntouchedKeepsEnd(roles, out, w, x);
    SeenHi(roles, out, w, x);
  }

  lemma SeenHi(roles: seq<Role>, out: bool, w: nat, x: nat)
    requires x < |roles| && roles[x].does == Exchanges
    ensures Scan(roles, out, w, x).hi >= 2 * x
  {
    if Scan(roles, out, w, x + 1).live { SeenIsLive(roles, out, w, x + 1); }
  }

  /** A point where the scan takes the register for live, above its last reset. */
  lemma SeenPointIsCovered(roles: seq<Role>, in_: bool, out: bool, w: nat, i: nat)
    requires Protected(roles, in_, out) && !WholeBlock(roles, out)
    requires i <= |roles| && Scan(roles, out, w, i).live && 2 * i - 1 <= w <= Scan(roles, out, w, i).hi
    requires LastReset(roles, i) < 0 ==> in_ || Scan(roles, out, w, i).lo <= w
    requires LastReset(roles, i) >= 0 && roles[LastReset(roles, i)].killed ==> 2 * LastReset(roles, i) + 2 <= w
    ensures Covered(roles, in_, out, w)
  {
    var l := LastReset(roles, i);
    CarryDown(roles, out, w, l + 1, i);
    if l >= 0 {
      if roles[l].killed {
        CutPointIsCovered(roles, in_, out, w, i, l);
      } else {
        HitStays(roles, out, w, 0, l);
      }
    }
  }

  /** The last reset is a clobber: then the range was opened right after it, or the last range is stretched to the top. */
  lemma CutPointIsCovered(roles: seq<Role>, in_: bool, out: bool, w: nat, i: nat, l: nat)
    requires Protected(roles, in_, out) && !WholeBlock(roles, out)
    requires l < i <= |roles| && roles[l].killed && NoResetIn(roles, l + 1, i)
    requires Scan(roles, out, w, i).live && w <= Scan(roles, out, w, i).hi && 2 * l + 2 <= w
    requires Scan(roles, out, w, l + 1) == Scan(roles, out, w, i)
    ensures Covered(roles, in_, out, w)
  {
    SeenIsLive(roles, out, w, i);
    LiveDown(roles, out, l + 1, i);
    if in_ && Untouched(roles, l + 1) {
      UntouchedKeepsEnd(roles, out, w, l + 1);
    } else {
      assert ReadAtOnce(roles, out, l);
      assert i == |roles| ==> l + 1 < i;
      if l + 1 < i { LiveDown(roles, out, l + 2, i); }
      OpenedHere(roles, out, w, l + 1);
      HitStays(roles, out, w, 0, l);
    }
  }

  /** A range that was opened at instruction `i`, as nothing above it was live. */
  lemma OpenedHere(roles: seq<Role>, out: bool, w: nat, i: nat)
    requires i < |roles| && Scan(roles, out, w, i).live && (roles[i].Resetting() || !Live(roles, out, i + 1))
    ensures Scan(roles, out, w, i).lo == 2 * i
  {
    if !Live(roles, out, i + 1) && Scan(roles, out, w, i + 1).live { SeenIsLive(roles, out, w, i + 1); }
  }

  lemma {:induction false} LiveHasReader(roles: seq<Role>, out: bool, i: nat) returns (k: nat)
    requires i <= |roles| && Live(roles, out, i)
    ensures i <= k <= |roles| && NoResetIn(roles, i, k) && (if k == |roles| then out else roles[k].Reading())
    decreases |roles| - i
  {
    k := i;
    if i < |roles| && !roles[i].Reading() { k := LiveHasReader(roles, out, i + 1); }
  }

  lemma HeldIsCovered(roles: seq<Role>, in_: bool, out: bool, w: nat, i: nat)
    requires Setting(roles, in_, out) && Protected(roles, in_, out) && !WholeBlock(roles, out)
    requires i <= |roles| && w < 2 * |roles| && Holding(roles, in_, out, i)
    requires w == 2 * i || (w == 2 * i - 1 && !roles[i - 1].killed)
    ensures Covered(roles, in_, out, w)
  {
    if Scan(roles, out, w, i).live {
      SeenIsLive(roles, out, w, i);
      SeenPointIsCovered(roles, in_, out, w, i);
    } else {
      var x := UnseenIsExchanged(roles, out, w, i);
      ExchangeCoversFromTop(roles, out, w, x);
    }
  }

  lemma UpdatedIsCovered(roles: seq<Role>, in_: bool, out: bool, i: nat)
    requires Setting(roles, in_, out) && Protected(roles, in_, out) && !WholeBlock(roles, out)
    requires i < |roles| && roles[i].does == Updates && !roles[i].killed
    ensures Covered(roles, in_, out, 2 * i + 1)
  {
    var w := 2 * i + 1;
    if Scan(roles, out, w, i + 1).live {
      SeenIsLive(roles, out, w, i + 1);
      if LastReset(roles, i + 1) < 0 && !in_ {
        var k := LiveHasReader(roles, out, i + 1);
        assert NoResetIn(roles, 0, k);
      }
      SeenPointIsCovered(roles, in_, out, w, i + 1);
    } else {
      SeenPointIsCovered(roles, in_, out, w, i);
    }
  }

  lemma ProtectedIsCovered(roles: seq<Role>, in_: bool, out: bool, i: nat)
    requires Setting(roles, in_, out) && Protected(roles, in_, out) && i < |roles|
    ensures PointsCovered(roles, in_, out, i)
  {
    if WholeBlock(roles, out) {
      WholeCoversAll(roles, in_, out, 2 * i);
      WholeCoversAll(roles, in_, out, 2 * i + 1);
      return;
    }
    if Holding(roles, in_, out, i) { HeldIsCovered(roles, in_, out, 2 * i, i); }
    if !roles[i].killed {
      if Holding(roles, in_, out, i + 1) { HeldIsCovered(roles, in_, out, 2 * i + 1, i + 1); }
      if roles[i].does == Updates { UpdatedIsCovered(roles, in_, out, i); }
      if roles[i].does == Defines {
        if Scan(roles, out, 2 * i + 1, i + 1).live { SeenIsLive(roles, out, 2 * i + 1, i + 1); }
        HitStays(roles, out, 2 * i + 1, 0, i);
      }
    }
  }

  // ---- Unprotected points are missed ----

  /** Unless the first range covers the block, no closed range reaches below the instructions already scanned. */
  lemma {:induction false} NotHitYet(roles: seq<Role>, out: bool, w: nat, i: nat)
    requires i <= |roles| && w < 2 * i && !WholeBlock(roles, out)
    ensures var s := Scan(roles, out, w, i); !s.hit && (s.live ==> s.lo >= 2 * i || (out && s.lo == 0 && NoResetIn(roles, i, |roles|)))
    decreases |roles| - i
  {
    if i < |roles| { NotHitYet(roles, out, w, i + 1); }
  }

  /** Below a point, only the last range can still be made to cover it, unless something touches the register. */
  lemma {:induction false} MissedBelow(roles: seq<Role>, out: bool, w: nat, l: nat, m: nat)
    requires l <= m <= |roles| && w >= 2 * m && !Scan(roles, out, w, m).hit
    requires Scan(roles, out, w, m).live ==> Scan(roles, out, w, m).hi < w
    ensures var s := Scan(roles, out, w, l); !s.hit && (s.live ==> s.hi < w)
    ensures Scan(roles, out, w, m).hi < w || (exists k | l <= k < m :: roles[k].does != Nothing) ==> Scan(roles, out, w, l).hi < w
    decreases m - l
  {
    if l < m { MissedBelow(roles, out, w, l + 1, m); }
  }

  lemma MissedAtTop(roles: seq<Role>, in_: bool, out: bool, w: nat, m: nat)
    requires m <= |roles| && w >= 2 * m && !Scan(roles, out, w, m).hit
    requires Scan(roles, out, w, m).live ==> Scan(roles, out, w, m).hi < w
    requires !in_ || !Untouched(roles, m) || Scan(roles, out, w, m).hi < w
    ensures !Covered(roles, in_, out, w)
  {
    MissedBelow(roles, out, w, 0, m);
  }

  lemma ExchangeIsMissed(roles: seq<Role>, in_: bool, out: bool, x: nat)
    requires Setting(roles, in_, out) && !WholeBlock(roles, out)
    requires x < |roles| && roles[x].does == Exchanges && !(in_ && Untouched(roles, x))
    ensures Holding(roles, in_, out, x) && !Covered(roles, in_, out, 2 * x)
  {
    NotHitYet(roles, out, 2 * x, x + 1);
    MissedAtTop(roles, in_, out, 2 * x, x);
    if !in_ {
      var d :| 0 <= d < x && roles[d].Defining();
      assert roles[d].Resetting();
    }
  }

  lemma LateReadIsMissed(roles: seq<Role>, in_: bool, out: bool, l: nat)
    requires Setting(roles, in_, out) && !WholeBlock(roles, out)
    requires forall x | 0 <= x < |roles| && roles[x].does == Exchanges :: in_ && Untouched(roles, x)
    requires l < |roles| && !ReadAtOnce(roles, out, l) && !(in_ && Untouched(roles, l + 1))
    ensures l + 1 < |roles| && Holding(roles, in_, out, l + 1) && !Covered(roles, in_, out, 2 * l + 2)
  {
    var w := 2 * l + 2;
    assert roles[l].Resetting();
    NotHitYet(roles, out, w, l + 2);
    if !Scan(roles, out, w, l + 2).live {
      var x := UnseenIsExchanged(roles, out, w, l + 2);
    }
    MissedAtTop(roles, in_, out, w, l);
  }

  lemma EarlyUpdateIsMissed(roles: seq<Role>, out: bool, j: nat, k: nat)
    requires Setting(roles, false, out) && !WholeBlock(roles, out)
    requires j < k < |roles| && roles[j].does == Updates && roles[k].Reading() && NoResetIn(roles, 0, k)
    ensures !roles[j].killed && !Covered(roles, false, out, 2 * j + 1)
  {
    var w := 2 * j + 1;
    NotHitYet(roles, out, w, j + 1);
    LiveDown(roles, out, j + 1, k);
    if !Scan(roles, out, w, j + 1).live {
      var x := UnseenIsExchanged(roles, out, w, j + 1);
    }
    CarryDown(roles, out, w, 0, j + 1);
  }

  /** Exactly when the ranges of a block, together with the clobbers themselves, cover what has to be covered. */
  lemma CoveredIffProtected(roles: seq<Role>, in_: bool, out: bool)
    requires Setting(roles, in_, out)
    ensures (forall i: nat | i < |roles| :: PointsCovered(roles, in_, out, i)) <==> Protected(roles, in_, out)
  {
    if Protected(roles, in_, out) {
      forall i: nat | i < |roles|
        ensures PointsCovered(roles, in_, out, i)
      {
        ProtectedIsCovered(roles, in_, out, i);
      }
    } else {
      var i := UnprotectedIsMissed(roles, in_, out);
    }
  }

  lemma UnprotectedIsMissed(roles: seq<Role>, in_: bool, out: bool) returns (i: nat)
    requires Setting(roles, in_, out) && !Protected(roles, in_, out)
    ensures i < |roles| && !PointsCovered(roles, in_, out, i)
  {
    if x: nat :| x < |roles| && roles[x].does == Exchanges && !(in_ && Untouched(roles, x)) {
      ExchangeIsMissed(roles, in_, out, x);
      i := x;
    } else if l: nat :| l < |roles| && !ReadAtOnce(roles, out, l) && !(in_ && Untouched(roles, l + 1)) {
      LateReadIsMissed(roles, in_, out, l);
      i := l + 1;
    } else {
      var j, k :| 0 <= j < k < |roles| && roles[j].does == Updates && roles[k].Reading() && NoResetIn(roles, 0, k);
      EarlyUpdateIsMissed(roles, out, j, k);
      i := j;
    }
  }
}
