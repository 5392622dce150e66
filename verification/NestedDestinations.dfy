/** Where all-or-nothing ends: destinations that hold one another, and destinations that
    are one another's moved-aside name.  What reverting brings back is determined exactly,
    whatever was extracted in between. */
module NestedDestinations {
  import opened Paths
  import opened Wrappers
  import opened Archiving
  import opened FileTrees
  import opened Restoration
  import Steps

  function Bak(d: Path): Path { d + ".bak" }

  /** Extraction changes things inside destinations only. */
  ghost predicate InsideOnly(aside: Tree, t: Tree, ds: seq<Path>) {
    forall p :: Get(t, p) == Get(aside, p) || exists i :: 0 <= i < |ds| && Under(ds[i], p)
  }

  /** Moved-aside names are free: nothing is there, and no destination is at or under one. */
  ghost predicate FreeNames(before: Tree, ds: seq<Path>) {
    && (forall k :: 0 <= k < |ds| ==> ds[k] != "" && ds[k][|ds[k]| - 1] != '/' && !Exists(before, Bak(ds[k])))
    && (forall k, l {:trigger Under(Bak(ds[k]), ds[l])} :: 0 <= k < |ds| && 0 <= l < |ds| ==> !Under(Bak(ds[k]), ds[l]))
    && (forall k, l :: 0 <= k < l < |ds| ==> ds[k] != ds[l])
  }

  lemma BakApart(d: Path)
    ensures Disjoint(d, Bak(d))
  {
    assert Bak(d)[|d|] == '.';
  }

  /** Whatever holds a moved-aside name holds the destination it belongs to. */
  lemma HoldsBak(d: Path, e: Path)
    requires Under(d, Bak(e)) && d != Bak(e)
    ensures Under(d, e) && d != e
  {
    var b := Bak(e);
    assert b[|d|] == '/';
    assert forall i :: |e| <= i < |b| ==> b[i] != '/';
    assert b[..|d|] == e[..|d|] && b[|d|] == e[|d|];
  }

  lemma BaksApart(before: Tree, ds: seq<Path>, k: nat, l: nat)
    requires FreeNames(before, ds) && k < |ds| && l < |ds| && k != l
    ensures Disjoint(Bak(ds[k]), Bak(ds[l]))
  {
    if Under(Bak(ds[k]), Bak(ds[l])) {
      BakInBak(ds[k], ds[l]);
    }
    if Under(Bak(ds[l]), Bak(ds[k])) {
      BakInBak(ds[l], ds[k]);
    }
  }

  lemma BakInBak(d: Path, e: Path)
    requires Under(Bak(d), Bak(e))
    ensures d == e || Under(Bak(d), e)
  {
    if Bak(d) == Bak(e) {
      assert d == Bak(d)[..|d|] && e == Bak(e)[..|e|];
    } else {
      HoldsBak(Bak(d), e);
    }
  }

  // ---- runs, path by path ----

  /** Moving one destination to its free name, or making the directories above it. */
  ghost predicate MovedTo(t: Tree, t': Tree, d: Path, moved: bool, y: Path) {
    if moved then
      Get(t', y) == if Under(Bak(d), y) then Get(t, d + y[|Bak(d)|..]) else if Under(d, y) then None else Get(t, y)
    else
      Get(t', y) == Get(t, y)
        || (Get(t, y) == None && Get(t', y) == Some(Dir) && |y| < |d| && (y == "/" || Under(y, d)))
  }

  /** Reverting one entry. */
  ghost predicate RevertedTo(t: Tree, t': Tree, d: Path, moved: bool, y: Path) {
    Get(t', y) ==
      if Under(d, y) then (if moved then Get(t, Bak(d) + y[|d|..]) else None)
      else if moved && Under(Bak(d), y) then None
      else Get(t, y)
  }

  ghost predicate MoveStep(t: Tree, t': Tree, d: Path, moved: bool) {
    (Exists(t, d) ==> !Exists(t, Bak(d))) ==> (moved <==> Exists(t, d)) && forall y :: MovedTo(t, t', d, moved, y)
  }

  ghost predicate RevertStep(t: Tree, t': Tree, d: Path, moved: bool) {
    forall y :: RevertedTo(t, t', d, moved, y)
  }

  /** The trees a run goes through: while destinations are moved aside, then while they are
      reverted, with an extraction in between that may also change some loose paths. */
  datatype Trace = Trace(aside: seq<Tree>, moved: seq<bool>, reverted: seq<Tree>, loose: iset<Path>)

  /** Extraction changes things inside destinations, and some loose paths. */
  ghost predicate InsideOr(aside: Tree, t: Tree, ds: seq<Path>, loose: iset<Path>) {
    forall p :: Get(t, p) == Get(aside, p) || p in loose || exists i :: 0 <= i < |ds| && Under(ds[i], p)
  }

  /** No loose path is at or under a moved-aside name. */
  ghost predicate ClearOfCopies(ds: seq<Path>, loose: iset<Path>) {
    forall k, p {:trigger Under(Bak(ds[k]), p)} :: 0 <= k < |ds| && p in loose ==> !Under(Bak(ds[k]), p)
  }

  ghost predicate IsRun(before: Tree, ds: seq<Path>, r: Trace) {
    && |r.aside| == |r.reverted| == |ds| + 1 && |r.moved| == |ds|
    && r.aside[0] == before && InsideOr(r.aside[|ds|], r.reverted[0], ds, r.loose) && ClearOfCopies(ds, r.loose)
    && (forall k {:trigger MoveStep(r.aside[k], r.aside[k + 1], ds[k], r.moved[k])} :: 0 <= k < |ds| ==>
        MoveStep(r.aside[k], r.aside[k + 1], ds[k], r.moved[k]))
    && (forall k {:trigger RevertStep(r.reverted[k], r.reverted[k + 1], ds[k], r.moved[k])} ::
          0 <= k < |ds| && !Exists(r.aside[k], Bak(ds[k])) ==>
          RevertStep(r.reverted[k], r.reverted[k + 1], ds[k], r.moved[k]))
  }

  // ---- moving aside ----

  lemma NotInBak(before: Tree, ds: seq<Path>, k: nat, m: nat, y: Path)
    requires FreeNames(before, ds) && k < |ds| && m < |ds| && k != m && Under(Bak(ds[m]), y)
    ensures !Under(Bak(ds[k]), y)
  {
    BaksApart(before, ds, k, m);
    if Under(Bak(ds[k]), y) { CommonPathNests(Bak(ds[k]), Bak(ds[m]), y); }
  }

  lemma NotAbove(before: Tree, ds: seq<Path>, k: nat, m: nat, y: Path)
    requires FreeNames(before, ds) && k < |ds| && m < |ds| && Under(Bak(ds[m]), y)
    ensures y != "/" && !Under(y, ds[k])
  {
    if Under(y, ds[k]) { UnderTransitive(Bak(ds[m]), y, ds[k]); }
  }

  lemma NotABak(before: Tree, ds: seq<Path>, k: nat, q: Path)
    requires FreeNames(before, ds) && k < |ds| && q in before
    ensures !Under(Bak(ds[k]), q)
  {
    assert !Exists(before, Bak(ds[k]));
  }

  /** Names not used yet stay empty. */
  lemma {:induction false} LaterNamesEmpty(before: Tree, ds: seq<Path>, r: Trace, k: nat, m: nat, y: Path)
    requires FreeNames(before, ds) && IsRun(before, ds, r) && k <= m < |ds| && Under(Bak(ds[m]), y)
    ensures Get(r.aside[k], y) == None
    decreases k, 0
  {
    if k == 0 {
      assert !Exists(before, Bak(ds[m]));
    } else {
      LaterNamesEmpty(before, ds, r, k - 1, m, y);
      MoveAt(before, ds, r, k - 1, y);
      NotInBak(before, ds, k - 1, m, y);
      NotAbove(before, ds, k - 1, m, y);
    }
  }

  lemma {:induction false} NameIsFree(before: Tree, ds: seq<Path>, r: Trace, k: nat)
    requires FreeNames(before, ds) && IsRun(before, ds, r) && k < |ds|
    ensures !Exists(r.aside[k], Bak(ds[k]))
    decreases k, 1
  {
    forall y | Under(Bak(ds[k]), y) ensures y !in r.aside[k] {
      LaterNamesEmpty(before, ds, r, k, k, y);
    }
  }

  lemma {:induction false} MoveAt(before: Tree, ds: seq<Path>, r: Trace, k: nat, y: Path)
    requires FreeNames(before, ds) && IsRun(before, ds, r) && k < |ds|
    ensures r.moved[k] <==> Exists(r.aside[k], ds[k])
    ensures MovedTo(r.aside[k], r.aside[k + 1], ds[k], r.moved[k], y)
    decreases k, 2
  {
    NameIsFree(before, ds, r, k);
    assert MoveStep(r.aside[k], r.aside[k + 1], ds[k], r.moved[k]);
  }

  lemma RevertAt(before: Tree, ds: seq<Path>, r: Trace, k: nat, y: Path)
    requires FreeNames(before, ds) && IsRun(before, ds, r) && k < |ds|
    ensures RevertedTo(r.reverted[k], r.reverted[k + 1], ds[k], r.moved[k], y)
  {
    NameIsFree(before, ds, r, k);
    assert RevertStep(r.reverted[k], r.reverted[k + 1], ds[k], r.moved[k]);
  }

  /** One of the first `k` destinations holds `q`. */
  ghost predicate HeldBefore(ds: seq<Path>, k: nat, q: Path)
    requires k <= |ds|
  {
    exists m :: 0 <= m < k && Under(ds[m], q)
  }

  /** A node stays until the first destination that holds it is moved; afterwards its path
      holds a created directory at most. */
  lemma {:induction false} NodeUntilMoved(before: Tree, ds: seq<Path>, r: Trace, k: nat, q: Path)
    requires FreeNames(before, ds) && IsRun(before, ds, r) && k <= |ds| && q in before
    ensures !HeldBefore(ds, k, q) ==> Get(r.aside[k], q) == Some(before[q])
    ensures HeldBefore(ds, k, q) ==> Get(r.aside[k], q) == None || Get(r.aside[k], q) == Some(Dir)
  {
    if k > 0 {
      NodeUntilMoved(before, ds, r, k - 1, q);
      MoveAt(before, ds, r, k - 1, q);
      NotABak(before, ds, k - 1, q);
      assert HeldBefore(ds, k, q) <==> HeldBefore(ds, k - 1, q) || Under(ds[k - 1], q);
      assert Get(r.aside[k - 1], q) != None && Under(ds[k - 1], q) ==> Exists(r.aside[k - 1], ds[k - 1]);
    }
  }

  /** No other destination holds this one. */
  ghost predicate Outermost(ds: seq<Path>, o: nat) {
    o < |ds| && forall m :: 0 <= m < |ds| && m != o ==> !Under(ds[m], ds[o])
  }

  lemma OutsideBak(before: Tree, ds: seq<Path>, o: nat, m: nat, y: Path)
    requires FreeNames(before, ds) && Outermost(ds, o) && m < |ds| && Under(Bak(ds[o]), y)
    ensures !Under(ds[m], y)
  {
    BakApart(ds[o]);
    if Under(ds[m], y) {
      CommonPathNests(ds[m], Bak(ds[o]), y);
      if Under(ds[m], Bak(ds[o])) && ds[m] != Bak(ds[o]) { HoldsBak(ds[m], ds[o]); }
    }
  }

  /** What an outermost destination was moved to stays there. */
  lemma {:induction false} CopyStays(before: Tree, ds: seq<Path>, r: Trace, o: nat, k: nat, y: Path)
    requires FreeNames(before, ds) && IsRun(before, ds, r) && Outermost(ds, o) && o < k <= |ds| && Under(Bak(ds[o]), y)
    ensures Get(r.aside[k], y) == Get(r.aside[o + 1], y)
  {
    if k > o + 1 {
      CopyStays(before, ds, r, o, k - 1, y);
      MoveAt(before, ds, r, k - 1, y);
      NotInBak(before, ds, k - 1, o, y);
      OutsideBak(before, ds, o, k - 1, y);
      NotAbove(before, ds, k - 1, o, y);
    }
  }

  // ---- reverting ----

  /** Until its turn, the copy of an outermost destination stays. */
  lemma {:induction false} CopyUntilTurn(before: Tree, ds: seq<Path>, r: Trace, o: nat, k: nat, y: Path)
    requires FreeNames(before, ds) && IsRun(before, ds, r) && Outermost(ds, o) && k <= o && Under(Bak(ds[o]), y)
    ensures Get(r.reverted[k], y) == Get(r.aside[o + 1], y)
  {
    if k == 0 {
      CopyStays(before, ds, r, o, |ds|, y);
      forall i: nat | i < |ds| ensures !Under(ds[i], y) { OutsideBak(before, ds, o, i, y); }
    } else {
      CopyUntilTurn(before, ds, r, o, k - 1, y);
      RevertAt(before, ds, r, k - 1, y);
      OutsideBak(before, ds, o, k - 1, y);
      NotInBak(before, ds, k - 1, o, y);
    }
  }

  /** At its turn, an outermost destination gets what it held when it was moved. */
  lemma AtItsTurn(before: Tree, ds: seq<Path>, r: Trace, o: nat, y: Path)
    requires FreeNames(before, ds) && IsRun(before, ds, r) && Outermost(ds, o) && Under(ds[o], y)
    ensures Get(r.reverted[o + 1], y) == if r.moved[o] then Get(r.aside[o], y) else None
  {
    RevertAt(before, ds, r, o, y);
    if r.moved[o] {
      var source := Bak(ds[o]) + y[|ds[o]|..];
      assert Under(Bak(ds[o]), source);
      CopyUntilTurn(before, ds, r, o, o, source);
      MoveAt(before, ds, r, o, source);
      assert source[|Bak(ds[o])|..] == y[|ds[o]|..] && ds[o] + y[|ds[o]|..] == y;
    }
  }

  /** Whatever else holds something inside an outermost destination is inside it. */
  lemma HolderInside(ds: seq<Path>, o: nat, k: nat, y: Path)
    requires Outermost(ds, o) && k < |ds| && k != o && Under(ds[o], y) && Under(ds[k], y)
    ensures Under(ds[o], ds[k])
  {
    CommonPathNests(ds[o], ds[k], y);
  }

  /** After its turn, nothing more comes into it: the copies that the destinations inside it
      look for are not there. */
  lemma {:induction false} NoCopiesInside(before: Tree, ds: seq<Path>, r: Trace, o: nat, k: nat, m: nat, y: Path)
    requires FreeNames(before, ds) && IsRun(before, ds, r) && Outermost(ds, o) && o < k <= |ds|
    requires o < m < |ds| && Under(ds[o], ds[m]) && Under(Bak(ds[m]), y)
    ensures Get(r.reverted[k], y) == None
    decreases k, 0
  {
    assert ds[o] != ds[m];
    assert Under(ds[o], Bak(ds[m]));
    UnderTransitive(ds[o], Bak(ds[m]), y);
    if k == o + 1 {
      AtItsTurn(before, ds, r, o, y);
      LaterNamesEmpty(before, ds, r, o, m, y);
    } else {
      NoCopiesInside(before, ds, r, o, k - 1, m, y);
      RevertAt(before, ds, r, k - 1, y);
      if Under(ds[k - 1], y) {
        NothingToBring(before, ds, r, o, k - 1, y);
      }
    }
  }

  lemma {:induction false} NothingToBring(before: Tree, ds: seq<Path>, r: Trace, o: nat, k: nat, y: Path)
    requires FreeNames(before, ds) && IsRun(before, ds, r) && Outermost(ds, o) && o < k < |ds|
    requires Under(ds[o], y) && Under(ds[k], y)
    ensures Get(r.reverted[k], Bak(ds[k]) + y[|ds[k]|..]) == None
    decreases k, 1
  {
    HolderInside(ds, o, k, y);
    assert Under(Bak(ds[k]), Bak(ds[k]) + y[|ds[k]|..]);
    NoCopiesInside(before, ds, r, o, k, k, Bak(ds[k]) + y[|ds[k]|..]);
  }

  ghost predicate HeldBetween(ds: seq<Path>, o: nat, k: nat, q: Path)
    requires k <= |ds|
  {
    exists m :: o < m < k && Under(ds[m], q)
  }

  lemma EmptiedOrKept(before: Tree, ds: seq<Path>, r: Trace, o: nat, k: nat, q: Path)
    requires FreeNames(before, ds) && IsRun(before, ds, r) && Outermost(ds, o) && o < k < |ds| && q in before
    requires Under(ds[o], q)
    ensures Get(r.reverted[k + 1], q) == if Under(ds[k], q) then None else Get(r.reverted[k], q)
  {
    RevertAt(before, ds, r, k, q);
    NotABak(before, ds, k, q);
    if Under(ds[k], q) {
      NothingToBring(before, ds, r, o, k, q);
    }
  }

  lemma HeldBetweenStep(ds: seq<Path>, o: nat, k: nat, q: Path)
    requires o < k < |ds|
    ensures HeldBetween(ds, o, k + 1, q) <==> HeldBetween(ds, o, k, q) || Under(ds[k], q)
  {
  }

  /** From then on the path keeps what it has until another destination that holds it is
      reverted, which empties it. */
  lemma {:induction false} AfterItsTurn(before: Tree, ds: seq<Path>, r: Trace, o: nat, k: nat, q: Path)
    requires FreeNames(before, ds) && IsRun(before, ds, r) && Outermost(ds, o) && o < k <= |ds| && q in before
    requires Under(ds[o], q)
    ensures HeldBetween(ds, o, k, q) ==> Get(r.reverted[k], q) == None
    ensures !HeldBetween(ds, o, k, q) ==> Get(r.reverted[k], q) == Get(r.reverted[o + 1], q)
  {
    if k > o + 1 {
      AfterItsTurn(before, ds, r, o, k - 1, q);
      EmptiedOrKept(before, ds, r, o, k - 1, q);
      HeldBetweenStep(ds, o, k - 1, q);
    }
  }

  // ---- what comes back ----

  ghost predicate HeldTwice(ds: seq<Path>, q: Path) {
    exists k, l :: 0 <= k < l < |ds| && Under(ds[k], q) && Under(ds[l], q)
  }

  lemma OutermostHolder(ds: seq<Path>, q: Path, m: nat) returns (o: nat)
    requires m < |ds| && Under(ds[m], q)
    requires forall k, l :: 0 <= k < l < |ds| ==> ds[k] != ds[l]
    ensures Outermost(ds, o) && Under(ds[o], q)
    decreases |ds[m]|
  {
    if k :| 0 <= k < |ds| && k != m && Under(ds[k], ds[m]) {
      UnderTransitive(ds[k], ds[m], q);
      assert ds[k] != ds[m];
      o := OutermostHolder(ds, q, k);
    } else {
      o := m;
    }
  }

  lemma {:induction false} NeverHeld(before: Tree, ds: seq<Path>, r: Trace, k: nat, q: Path)
    requires FreeNames(before, ds) && IsRun(before, ds, r) && q in before && q !in r.loose && k <= |ds|
    requires forall m :: 0 <= m < |ds| ==> !Under(ds[m], q)
    ensures Get(r.reverted[k], q) == Some(before[q])
  {
    if k == 0 {
      NodeUntilMoved(before, ds, r, |ds|, q);
    } else {
      NeverHeld(before, ds, r, k - 1, q);
      RevertAt(before, ds, r, k - 1, q);
      NotABak(before, ds, k - 1, q);
    }
  }

  /** A node that one destination holds, or several. */
  lemma HeldNode(before: Tree, ds: seq<Path>, r: Trace, o: nat, q: Path)
    requires FreeNames(before, ds) && IsRun(before, ds, r) && q in before && Outermost(ds, o) && Under(ds[o], q)
    ensures Get(r.reverted[|ds|], q) == Some(before[q]) || Get(r.reverted[|ds|], q) == None
      || Get(r.reverted[|ds|], q) == Some(Dir)
    ensures !HeldBefore(ds, o, q) && !HeldBetween(ds, o, |ds|, q) ==> Get(r.reverted[|ds|], q) == Some(before[q])
    ensures HeldBefore(ds, o, q) || HeldBetween(ds, o, |ds|, q) ==>
      Get(r.reverted[|ds|], q) == None || Get(r.reverted[|ds|], q) == Some(Dir)
  {
    AfterItsTurn(before, ds, r, o, |ds|, q);
    AtItsTurn(before, ds, r, o, q);
    NodeUntilMoved(before, ds, r, o, q);
    MoveAt(before, ds, r, o, q);
    assert Get(r.aside[o], q) != None ==> Exists(r.aside[o], ds[o]);
  }

  lemma NodeComesBack(before: Tree, ds: seq<Path>, r: Trace, q: Path)
    requires FreeNames(before, ds) && IsRun(before, ds, r) && q in before && q !in r.loose
    ensures !HeldTwice(ds, q) ==> Get(r.reverted[|ds|], q) == Some(before[q])
    ensures HeldTwice(ds, q) ==> Get(r.reverted[|ds|], q) == None || Get(r.reverted[|ds|], q) == Some(Dir)
  {
    if m :| 0 <= m < |ds| && Under(ds[m], q) {
      var o := OutermostHolder(ds, q, m);
      HeldNode(before, ds, r, o, q);
      if HeldTwice(ds, q) {
        var k, l :| 0 <= k < l < |ds| && Under(ds[k], q) && Under(ds[l], q);
        var other := if k == o then l else k;
        assert other < o ==> HeldBefore(ds, o, q);
        assert o < other ==> HeldBetween(ds, o, |ds|, q);
      }
    } else {
      NeverHeld(before, ds, r, |ds|, q);
    }
  }

  // ---- the code's own runs ----

  /** The tree after the first `k` destinations. */
  function AsideAt(before: Tree, ds: seq<Path>, stamp: string, k: nat): Tree
    requires k <= |ds|
  {
    Steps.After(Mover(stamp), before, ds, k)
  }

  /** The tree after the first `k` entries have been reverted. */
  function RevertedAtStep(t: Tree, saved: seq<Saved>, k: nat): Tree
    requires k <= |saved|
  {
    if k == 0 then t else RevertOne(RevertedAtStep(t, saved, k - 1), saved[k - 1])
  }

  lemma {:induction false} RevertedInSteps(t: Tree, saved: seq<Saved>, k: nat)
    requires k <= |saved|
    ensures Reverted(t, saved) == Reverted(RevertedAtStep(t, saved, k), saved[k..])
  {
    if k > 0 {
      RevertedInSteps(t, saved, k - 1);
      assert saved[k - 1..][1..] == saved[k..];
    }
  }

  lemma MoveOneAt(t: Tree, d: Path, stamp: string, y: Path)
    requires (Exists(t, d) ==> !Exists(t, Bak(d))) && d != "" && d[|d| - 1] != '/'
    ensures MoveOne(t, d, stamp).1 == Saved(d, if Exists(t, d) then Some(Bak(d)) else None)
    ensures MovedTo(t, MoveOne(t, d, stamp).0, d, Exists(t, d), y)
  {
    BakApart(d);
    if Exists(t, d) {
      RenameToFree(t, d, Bak(d));
      MoveTreeAt(t, d, Bak(d), y);
    } else if y in Ancestors(Parent(d)) {
      AncestorOfParent(d, y);
    }
  }

  lemma MoveOneStep(t: Tree, d: Path, stamp: string)
    requires d != "" && d[|d| - 1] != '/'
    ensures MoveStep(t, MoveOne(t, d, stamp).0, d, Exists(t, d))
  {
    if Exists(t, d) ==> !Exists(t, Bak(d)) {
      forall y ensures MovedTo(t, MoveOne(t, d, stamp).0, d, Exists(t, d), y) {
        MoveOneAt(t, d, stamp, y);
      }
    }
  }

  lemma RevertOneStep(t: Tree, d: Path, moved: bool)
    ensures RevertStep(t, RevertOne(t, Saved(d, if moved then Some(Bak(d)) else None)), d, moved)
  {
    var s := Saved(d, if moved then Some(Bak(d)) else None);
    BakApart(d);
    forall y ensures RevertedTo(t, RevertOne(t, s), d, moved, y) {
      RevertOneAt(t, s, y);
    }
  }

  ghost function AsideTrees(before: Tree, ds: seq<Path>, stamp: string): (trees: seq<Tree>)
    ensures |trees| == |ds| + 1 && forall k :: 0 <= k <= |ds| ==> trees[k] == AsideAt(before, ds, stamp, k)
  {
    seq(|ds| + 1, k requires 0 <= k <= |ds| => AsideAt(before, ds, stamp, k))
  }

  ghost function Existed(ds: seq<Path>, trees: seq<Tree>): (moved: seq<bool>)
    requires |trees| == |ds| + 1
    ensures |moved| == |ds| && forall k :: 0 <= k < |ds| ==> moved[k] == Exists(trees[k], ds[k])
  {
    seq(|ds|, k requires 0 <= k < |ds| => Exists(trees[k], ds[k]))
  }

  ghost function RevertedTrees(t: Tree, saved: seq<Saved>): (trees: seq<Tree>)
    ensures |trees| == |saved| + 1 && forall k :: 0 <= k <= |saved| ==> trees[k] == RevertedAtStep(t, saved, k)
  {
    seq(|saved| + 1, k requires 0 <= k <= |saved| => RevertedAtStep(t, saved, k))
  }

  /** Moving aside, extracting inside destinations, reverting: `t` is the tree after
      extraction. */
  ghost function RunOf(before: Tree, ds: seq<Path>, stamp: string, t: Tree, loose: iset<Path>): Trace {
    var trees := AsideTrees(before, ds, stamp);
    Trace(trees, Existed(ds, trees), RevertedTrees(t, SavedAll(before, ds, stamp)), loose)
  }

  lemma RunMoves(before: Tree, ds: seq<Path>, stamp: string, k: nat)
    requires FreeNames(before, ds) && k < |ds|
    ensures MoveStep(AsideAt(before, ds, stamp, k), AsideAt(before, ds, stamp, k + 1), ds[k],
      Exists(AsideAt(before, ds, stamp, k), ds[k]))
  {
    MoveOneStep(AsideAt(before, ds, stamp, k), ds[k], stamp);
  }

  lemma RunReverts(before: Tree, ds: seq<Path>, stamp: string, t: Tree, k: nat)
    requires FreeNames(before, ds) && k < |ds| && !Exists(AsideAt(before, ds, stamp, k), Bak(ds[k]))
    ensures var saved := SavedAll(before, ds, stamp);
      RevertStep(RevertedAtStep(t, saved, k), RevertedAtStep(t, saved, k + 1), ds[k],
        Exists(AsideAt(before, ds, stamp, k), ds[k]))
  {
    MoveOneAt(AsideAt(before, ds, stamp, k), ds[k], stamp, "");
    RevertOneStep(RevertedAtStep(t, SavedAll(before, ds, stamp), k), ds[k],
      Exists(AsideAt(before, ds, stamp, k), ds[k]));
  }

  lemma TraceAt(before: Tree, ds: seq<Path>, stamp: string, t: Tree, loose: iset<Path>, k: nat)
    requires k < |ds|
    ensures var r := RunOf(before, ds, stamp, t, loose);
      && r.aside[k] == AsideAt(before, ds, stamp, k) && r.aside[k + 1] == AsideAt(before, ds, stamp, k + 1)
      && r.moved[k] == Exists(AsideAt(before, ds, stamp, k), ds[k])
  {
  }

  lemma TraceMoves(before: Tree, ds: seq<Path>, stamp: string, t: Tree, loose: iset<Path>, k: nat)
    requires FreeNames(before, ds) && k < |ds|
    ensures var r := RunOf(before, ds, stamp, t, loose); MoveStep(r.aside[k], r.aside[k + 1], ds[k], r.moved[k])
  {
    RunMoves(before, ds, stamp, k);
    TraceAt(before, ds, stamp, t, loose, k);
  }

  lemma TraceReverts(before: Tree, ds: seq<Path>, stamp: string, t: Tree, loose: iset<Path>, k: nat)
    requires FreeNames(before, ds) && k < |ds|
    ensures var r := RunOf(before, ds, stamp, t, loose);
      !Exists(r.aside[k], Bak(ds[k])) ==> RevertStep(r.reverted[k], r.reverted[k + 1], ds[k], r.moved[k])
  {
    if !Exists(AsideAt(before, ds, stamp, k), Bak(ds[k])) {
      RunReverts(before, ds, stamp, t, k);
    }
  }

  lemma RunOfIsRun(before: Tree, ds: seq<Path>, stamp: string, t: Tree, loose: iset<Path>)
    requires FreeNames(before, ds) && InsideOr(AsideAt(before, ds, stamp, |ds|), t, ds, loose)
    requires ClearOfCopies(ds, loose)
    ensures IsRun(before, ds, RunOf(before, ds, stamp, t, loose))
  {
    var r := RunOf(before, ds, stamp, t, loose);
    forall k | 0 <= k < |ds| ensures MoveStep(r.aside[k], r.aside[k + 1], ds[k], r.moved[k]) {
      TraceMoves(before, ds, stamp, t, loose, k);
    }
    forall k | 0 <= k < |ds| && !Exists(r.aside[k], Bak(ds[k]))
      ensures RevertStep(r.reverted[k], r.reverted[k + 1], ds[k], r.moved[k])
    {
      TraceReverts(before, ds, stamp, t, loose, k);
    }
    RunStarts(before, ds, stamp, t, loose);
  }

  lemma RunStarts(before: Tree, ds: seq<Path>, stamp: string, t: Tree, loose: iset<Path>)
    ensures var r := RunOf(before, ds, stamp, t, loose);
      && |r.aside| == |r.reverted| == |ds| + 1 && |r.moved| == |ds|
      && r.aside[0] == before && r.aside[|ds|] == AsideAt(before, ds, stamp, |ds|) && r.reverted[0] == t
  {
  }

  lemma RunEnds(before: Tree, ds: seq<Path>, stamp: string, t: Tree, loose: iset<Path>)
    ensures RunOf(before, ds, stamp, t, loose).reverted[|ds|] == Reverted(t, SavedAll(before, ds, stamp))
  {
    var saved := SavedAll(before, ds, stamp);
    RevertedInSteps(t, saved, |ds|);
    assert saved[|ds|..] == [];
  }

  /** The law, for every list of distinct destinations with free moved-aside names, however
      they are nested, and for every extraction: a node that at most one destination holds
      comes back, and a file that two of them hold does not. */
  lemma ComesBack(before: Tree, ds: seq<Path>, stamp: string, t: Tree, q: Path)
    requires FreeNames(before, ds) && InsideOnly(AsideAt(before, ds, stamp, |ds|), t, ds) && q in before
    ensures !HeldTwice(ds, q) ==> Get(Reverted(t, SavedAll(before, ds, stamp)), q) == Some(before[q])
    ensures HeldTwice(ds, q) && before[q].File? ==> Get(Reverted(t, SavedAll(before, ds, stamp)), q) != Some(before[q])
  {
    var loose: iset<Path> := iset{};
    RunOfIsRun(before, ds, stamp, t, loose);
    RunEnds(before, ds, stamp, t, loose);
    NodeComesBack(before, ds, RunOf(before, ds, stamp, t, loose), q);
  }

  ghost predicate IsFile(t: Tree, q: Path) { q in t && t[q].File? }

  /** So reverting brings back every file if and only if no file is inside two destinations. */
  lemma RevertExact(before: Tree, ds: seq<Path>, stamp: string, t: Tree)
    requires FreeNames(before, ds) && InsideOnly(AsideAt(before, ds, stamp, |ds|), t, ds)
    ensures (forall q :: IsFile(before, q) ==> Get(Reverted(t, SavedAll(before, ds, stamp)), q) == Some(before[q]))
       <==> (forall q :: IsFile(before, q) ==> !HeldTwice(ds, q))
  {
    forall q | IsFile(before, q)
      ensures Get(Reverted(t, SavedAll(before, ds, stamp)), q) == Some(before[q]) <==> !HeldTwice(ds, q)
    {
      ComesBack(before, ds, stamp, t, q);
    }
  }

  // ---- failed restorations ----

  /** Paths that hold no file and no copy. */
  ghost function Loose(before: Tree, roots: seq<Path>): iset<Path> {
    iset p: Path | !IsFile(before, p) && forall k :: 0 <= k < |roots| ==> !Under(Bak(roots[k]), p)
  }

  lemma FileComesBack(before: Tree, roots: seq<Path>, stamp: string, t: Tree, q: Path)
    requires FreeNames(before, roots) && InsideOr(Aside(before, roots, stamp), t, roots, Loose(before, roots))
    requires IsFile(before, q)
    ensures Get(Reverted(t, SavedAll(before, roots, stamp)), q) == Some(before[q]) <==> !HeldTwice(roots, q)
  {
    var loose := Loose(before, roots);
    RunOfIsRun(before, roots, stamp, t, loose);
    RunEnds(before, roots, stamp, t, loose);
    NodeComesBack(before, roots, RunOf(before, roots, stamp, t, loose), q);
  }

  lemma StaysUntilMoved(before: Tree, roots: seq<Path>, stamp: string, n: nat, q: Path)
    requires FreeNames(before, roots) && n <= |roots| && q in before && !HeldBefore(roots, n, q)
    ensures Get(AsideAt(before, roots, stamp, n), q) == Some(before[q])
  {
    var t := AsideAt(before, roots, stamp, |roots|);
    RunOfIsRun(before, roots, stamp, t, iset{});
    NodeUntilMoved(before, roots, RunOf(before, roots, stamp, t, iset{}), n, q);
  }

  /** Every file in a destination is in a path that is moved aside for it, or was before. */
  lemma RootsCover(before: Tree, ds: seq<Path>, mounts: set<Path>, stamp: string, roots: seq<Path>, i: nat, q: Path)
    returns (k: nat)
    requires FreeNames(before, roots) && Unfolds(before, ds, mounts, stamp, roots)
    requires IsFile(before, q) && i < |ds| && Under(ds[i], q) && ds[i] != ""
    ensures k < |roots| && Under(roots[k], q)
  {
    var a, b := Steps.PartOf(Mover(stamp), Parts(mounts), before, ds, roots, i);
    k := PartCovers(before, ds[i], mounts, stamp, roots, a, b, q);
  }

  lemma PartCovers(before: Tree, d: Path, mounts: set<Path>, stamp: string, roots: seq<Path>, a: nat, b: nat, q: Path)
    returns (k: nat)
    requires FreeNames(before, roots) && a <= b <= |roots|
    requires IsPart(AsideAt(before, roots, stamp, a), d, mounts, roots[a..b])
    requires IsFile(before, q) && Under(d, q) && d != ""
    ensures k < |roots| && Under(roots[k], q)
  {
    if !HeldBefore(roots, a, q) { StaysUntilMoved(before, roots, stamp, a, q); }
    k := HeldOrThere(AsideAt(before, roots, stamp, a), d, mounts, roots, a, b, q);
  }

  lemma HeldOrThere(t: Tree, d: Path, mounts: set<Path>, roots: seq<Path>, a: nat, b: nat, q: Path) returns (k: nat)
    requires a <= b <= |roots| && IsPart(t, d, mounts, roots[a..b]) && (HeldBefore(roots, a, q) || IsFile(t, q))
    requires Under(d, q) && d != ""
    ensures k < |roots| && Under(roots[k], q)
  {
    if HeldBefore(roots, a, q) {
      k :| k < a && Under(roots[k], q);
    } else {
      var j := InPart(t, d, mounts, roots[a..b], q);
      k := a + j;
    }
  }

  lemma InPart(t: Tree, d: Path, mounts: set<Path>, part: seq<Path>, q: Path) returns (j: nat)
    requires IsPart(t, d, mounts, part) && IsFile(t, q) && Under(d, q) && d != ""
    ensures j < |part| && Under(part[j], q)
  {
    var c := d;
    if Exists(t, d) && d in mounts {
      c :| c in part && Under(c, q);
    }
    j :| 0 <= j < |part| && part[j] == c;
  }

  /** Entries outside the paths moved aside do not go to their copies. */
  ghost predicate SparesCopies(located: seq<Entry>, roots: seq<Path>) {
    forall i, k :: 0 <= i < |located| && 0 <= k < |roots| && Under(Bak(roots[k]), located[i].path) ==>
      exists m :: 0 <= m < |roots| && Under(roots[m], located[i].path)
  }

  ghost predicate TmpClear(before: Tree, roots: seq<Path>, tmp: Path) {
    tmp != "" && tmp[|tmp| - 1] != '/' && !Exists(before, tmp) && forall k :: 0 <= k < |roots| ==>
      Disjoint(Bak(roots[k]), tmp)
  }

  lemma TmpIsLoose(before: Tree, roots: seq<Path>, tmp: Path, p: Path)
    requires TmpClear(before, roots, tmp) && Under(tmp, p)
    ensures p in Loose(before, roots)
  {
    forall k | 0 <= k < |roots| ensures !Under(Bak(roots[k]), p) {
      if Under(Bak(roots[k]), p) { CommonPathNests(Bak(roots[k]), tmp, p); }
    }
  }

  /** What extraction changes, all in all. */
  lemma ExtractionIsLoose(before: Tree, blueprint: Blueprint, ds: seq<Path>, mounts: set<Path>, rules: seq<Rule>,
                          tmp: Path, stamp: string,
                          entries: seq<Entry>, located: seq<Entry>, roots: seq<Path>, t: Tree)
    requires Places(blueprint, ds, rules, tmp, entries, located) && ValidBlueprint(LongestFirst(blueprint.paths))
    requires FreeNames(before, roots) && TmpClear(before, roots, tmp) && SparesCopies(located, roots)
    requires Unfolds(before, ds, mounts, stamp, roots) && ChangedAt(Aside(before, roots, stamp), t, located)
    ensures InsideOr(Aside(before, roots, stamp), t, roots, Loose(before, roots))
  {
    var aside := Aside(before, roots, stamp);
    forall p | Get(t, p) != Get(aside, p)
      ensures p in Loose(before, roots) || exists i :: 0 <= i < |roots| && Under(roots[i], p) {
      var i :| 0 <= i < |located| && located[i].path == p;
      ChangedIsExtending(aside, t, LongestFirst(blueprint.paths), rules, tmp, entries);
      if Under(tmp, p) {
        TmpIsLoose(before, roots, tmp, p);
      } else if IsFile(before, p) {
        var j :| 0 <= j < |ds| && Under(ds[j], p);
        NoEmptyDestination(LongestFirst(blueprint.paths));
        assert ds[j] in ds;
        var k := RootsCover(before, ds, mounts, stamp, roots, j, p);
      }
    }
  }

  /** `t'` has directories where `t` has nothing, and is the same otherwise. */
  ghost predicate DirsMore(t: Tree, t': Tree) {
    forall q :: Get(t', q) == Get(t, q) || (Get(t, q) == None && Get(t', q) == Some(Dir))
  }

  lemma DirsMoreReverted(t: Tree, t': Tree, s: Saved)
    requires DirsMore(t, t') && SavedApart(s)
    ensures DirsMore(RevertOne(t, s), RevertOne(t', s))
  {
    forall q ensures Get(RevertOne(t', s), q) == Get(RevertOne(t, s), q)
      || (Get(RevertOne(t, s), q) == None && Get(RevertOne(t', s), q) == Some(Dir))
    {
      RevertOneAt(t, s, q);
      RevertOneAt(t', s, q);
    }
  }

  lemma {:induction false} DirsMoreAllReverted(t: Tree, t': Tree, saved: seq<Saved>)
    requires DirsMore(t, t') && forall i :: 0 <= i < |saved| ==> SavedApart(saved[i])
    ensures DirsMore(Reverted(t, saved), Reverted(t', saved))
    decreases |saved|
  {
    if saved != [] {
      DirsMoreReverted(t, t', saved[0]);
      DirsMoreAllReverted(RevertOne(t, saved[0]), RevertOne(t', saved[0]), saved[1..]);
    }
  }

  lemma SavedAreApart(before: Tree, roots: seq<Path>, stamp: string, i: nat)
    requires FreeNames(before, roots) && i < |roots|
    ensures |SavedAll(before, roots, stamp)| == |roots| && SavedApart(SavedAll(before, roots, stamp)[i])
  {
    var t := AsideAt(before, roots, stamp, |roots|);
    RunOfIsRun(before, roots, stamp, t, iset{});
    NameIsFree(before, roots, RunOf(before, roots, stamp, t, iset{}), i);
    MoveOneAt(AsideAt(before, roots, stamp, i), roots[i], stamp, "");
    BakApart(roots[i]);
  }

  /** A failure while destinations are moved aside. */
  lemma EarlyFailure(before: Tree, roots: seq<Path>, stamp: string, made: set<Path>, q: Path)
    requires FreeNames(before, roots) && IsFile(before, q)
    ensures var after := Reverted(WithDirs(Aside(before, roots, stamp), made), SavedAll(before, roots, stamp));
      Get(after, q) == Some(before[q]) <==> !HeldTwice(roots, q)
  {
    var aside, saved := Aside(before, roots, stamp), SavedAll(before, roots, stamp);
    FileComesBack(before, roots, stamp, aside, q);
    forall i: nat | i < |saved| ensures SavedApart(saved[i]) { SavedAreApart(before, roots, stamp, i); }
    DirsMoreAllReverted(aside, WithDirs(aside, made), saved);
  }

  lemma WithoutTmp(before: Tree, aside: Tree, t: Tree, roots: seq<Path>, tmp: Path)
    requires TmpClear(before, roots, tmp) && InsideOr(aside, t, roots, Loose(before, roots))
    ensures InsideOr(aside, RemoveTree(t, tmp), roots, Loose(before, roots))
  {
    forall p ensures Get(RemoveTree(t, tmp), p) == Get(aside, p) || p in Loose(before, roots)
      || exists i :: 0 <= i < |roots| && Under(roots[i], p) {
      if Under(tmp, p) { TmpIsLoose(before, roots, tmp, p); }
    }
  }

  /** Whatever the destinations, nested or on their own mounts, and wherever it failed: a
      failed restoration leaves a file as it was if and only if no two of the paths that
      were moved aside hold it. */
  lemma FailureKeepsFiles(before: Tree, after: Tree, blueprint: Blueprint, ds: seq<Path>, mounts: set<Path>,
                          rules: seq<Rule>, tmp: Path, stamp: string,
                          entries: seq<Entry>, located: seq<Entry>, roots: seq<Path>, q: Path)
    requires Places(blueprint, ds, rules, tmp, entries, located) && ValidBlueprint(LongestFirst(blueprint.paths))
    requires FreeNames(before, roots) && TmpClear(before, roots, tmp) && SparesCopies(located, roots)
    requires Undone(before, after, ds, mounts, roots, stamp, located, tmp) && IsFile(before, q)
    ensures Get(after, q) == Some(before[q]) <==> !HeldTwice(roots, q)
  {
    if PartlyReverted(before, after, ds, mounts, roots, stamp) {
      var made :| after == Reverted(WithDirs(Aside(before, roots, stamp), made), SavedAll(before, roots, stamp));
      EarlyFailure(before, roots, stamp, made, q);
    } else {
      var t :| UndoneFrom(before, after, roots, stamp, located, tmp, t);
      ExtractionIsLoose(before, blueprint, ds, mounts, rules, tmp, stamp, entries, located, roots, t);
      UndoneFile(before, after, roots, stamp, located, tmp, t, q);
    }
  }

  lemma UndoneFile(before: Tree, after: Tree, roots: seq<Path>, stamp: string, located: seq<Entry>, tmp: Path, t: Tree,
                   q: Path)
    requires FreeNames(before, roots) && TmpClear(before, roots, tmp) && IsFile(before, q)
    requires InsideOr(Aside(before, roots, stamp), t, roots, Loose(before, roots))
    requires UndoneFrom(before, after, roots, stamp, located, tmp, t)
    ensures Get(after, q) == Some(before[q]) <==> !HeldTwice(roots, q)
  {
    if after == Reverted(RemoveTree(t, tmp), SavedAll(before, roots, stamp)) {
      WithoutTmp(before, Aside(before, roots, stamp), t, roots, tmp);
      FileComesBack(before, roots, stamp, RemoveTree(t, tmp), q);
    } else {
      FileComesBack(before, roots, stamp, t, q);
      assert !Under(tmp, q);
    }
  }

  lemma FirstDestinations(before: Tree, ds: seq<Path>, tmp: Path, k: nat)
    requires FreeNames(before, ds) && TmpClear(before, ds, tmp) && k <= |ds|
    ensures FreeNames(before, ds[..k]) && TmpClear(before, ds[..k], tmp)
  {
  }

  /** Entries go to destinations or to the temporary directory. */
  lemma EntriesSpareCopies(before: Tree, blueprint: Blueprint, ds: seq<Path>, rules: seq<Rule>, tmp: Path,
                           entries: seq<Entry>, located: seq<Entry>)
    requires Places(blueprint, ds, rules, tmp, entries, located) && ValidBlueprint(LongestFirst(blueprint.paths))
    requires TmpClear(before, ds, tmp)
    ensures SparesCopies(located, ds)
  {
    var mappings := LongestFirst(blueprint.paths);
    forall i, k | 0 <= i < |located| && 0 <= k < |ds| && Under(Bak(ds[k]), located[i].path)
      ensures exists m :: 0 <= m < |ds| && Under(ds[m], located[i].path)
    {
      LocationWithin(mappings, tmp, Pass(rules, entries[i].path));
      if Under(tmp, located[i].path) {
        CommonPathNests(Bak(ds[k]), tmp, located[i].path);
      } else {
        var m :| 0 <= m < |mappings| && Under(Trim(mappings[m].to), located[i].path);
        assert Under(ds[m], located[i].path);
      }
    }
  }

  lemma FirstOnesBack(before: Tree, after: Tree, ds: seq<Path>, mounts: set<Path>, tmp: Path, stamp: string,
                      roots: seq<Path>, q: Path)
    requires Unmounted(ds, mounts) && FreeNames(before, ds) && TmpClear(before, ds, tmp)
    requires PartlyReverted(before, after, ds, mounts, roots, stamp) && IsFile(before, q)
    ensures Prefixed(roots, ds) && (Get(after, q) == Some(before[q]) <==> !HeldTwice(roots, q))
  {
    UnmountedPartly(before, ds, mounts, stamp, roots);
    FirstDestinations(before, ds, tmp, |roots|);
    var made :| after == Reverted(WithDirs(Aside(before, roots, stamp), made), SavedAll(before, roots, stamp));
    EarlyFailure(before, roots, stamp, made, q);
  }

  lemma AllOfThemBack(before: Tree, after: Tree, blueprint: Blueprint, ds: seq<Path>, mounts: set<Path>,
                      rules: seq<Rule>, tmp: Path, stamp: string,
                      entries: seq<Entry>, located: seq<Entry>, roots: seq<Path>, t: Tree, q: Path)
    requires Places(blueprint, ds, rules, tmp, entries, located) && ValidBlueprint(LongestFirst(blueprint.paths))
    requires Unmounted(ds, mounts) && FreeNames(before, ds) && TmpClear(before, ds, tmp)
    requires Unfolds(before, ds, mounts, stamp, roots) && UndoneFrom(before, after, roots, stamp, located, tmp, t)
    requires IsFile(before, q)
    ensures Prefixed(roots, ds) && (Get(after, q) == Some(before[q]) <==> !HeldTwice(roots, q))
  {
    UnmountedRoots(before, ds, mounts, stamp, roots);
    assert ds[..|ds|] == ds;
    EntriesSpareCopies(before, blueprint, ds, rules, tmp, entries, located);
    ExtractionIsLoose(before, blueprint, ds, mounts, rules, tmp, stamp, entries, located, roots, t);
    UndoneFile(before, after, roots, stamp, located, tmp, t, q);
  }

  /** For destinations that are not mounted this needs nothing of the entries: whatever was
      extracted, a failed restoration leaves every file that at most one of them holds. */
  lemma NestedFailure(before: Tree, after: Tree, blueprint: Blueprint, ds: seq<Path>, mounts: set<Path>,
                      rules: seq<Rule>, tmp: Path, stamp: string,
                      entries: seq<Entry>, located: seq<Entry>, roots: seq<Path>, q: Path)
    requires Places(blueprint, ds, rules, tmp, entries, located) && ValidBlueprint(LongestFirst(blueprint.paths))
    requires Unmounted(ds, mounts) && FreeNames(before, ds) && TmpClear(before, ds, tmp)
    requires Undone(before, after, ds, mounts, roots, stamp, located, tmp) && IsFile(before, q)
    ensures Prefixed(roots, ds) && (Get(after, q) == Some(before[q]) <==> !HeldTwice(roots, q))
    ensures !HeldTwice(ds, q) ==> Get(after, q) == Some(before[q])
  {
    if PartlyReverted(before, after, ds, mounts, roots, stamp) {
      FirstOnesBack(before, after, ds, mounts, tmp, stamp, roots, q);
    } else {
      var t :| UndoneFrom(before, after, roots, stamp, located, tmp, t);
      AllOfThemBack(before, after, blueprint, ds, mounts, rules, tmp, stamp, entries, located, roots, t, q);
    }
    if HeldTwice(roots, q) { FewerHold(ds, roots, q); }
  }

  /** The first of the destinations. */
  ghost predicate Prefixed(roots: seq<Path>, ds: seq<Path>) { |roots| <= |ds| && roots == ds[..|roots|] }

  lemma FewerHold(ds: seq<Path>, roots: seq<Path>, q: Path)
    requires Prefixed(roots, ds) && HeldTwice(roots, q)
    ensures HeldTwice(ds, q)
  {
    var k, l :| 0 <= k < l < |roots| && Under(roots[k], q) && Under(roots[l], q);
    assert ds[k] == roots[k] && ds[l] == roots[l];
  }

  // ---- destinations on their own mount ----

  /** What unpacking some entries leaves at an entry's path: the last one that goes there. */
  lemma {:induction false} UnpackedOver(located: seq<Entry>, onto: Tree, q: Path)
    ensures q in Unpacked(located, map[]) <==> exists i :: 0 <= i < |located| && located[i].path == q
    ensures Get(Unpacked(located, onto), q) ==
      if q in Unpacked(located, map[]) then Get(Unpacked(located, map[]), q) else Get(onto, q)
  {
    if located != [] {
      var n := |located| - 1;
      UnpackedOver(located[..n], onto, q);
      assert forall i :: 0 <= i < n ==> located[..n][i] == located[i];
    }
  }

  /** A fresh temporary directory away from everything else. */
  ghost predicate TmpApart(before: Tree, roots: seq<Path>, stamp: string, tmp: Path) {
    && !Exists(before, tmp)
    && (forall i, p :: 0 <= i < |roots| && NameOf(roots[i], stamp, p) ==> Disjoint(p, tmp))
    && (forall q :: q in ParentDirs(roots) ==> !Under(tmp, q))
  }

  ghost predicate InSome(saved: seq<Saved>, p: Path) {
    exists i :: 0 <= i < |saved| && Under(saved[i].path, p)
  }

  /** The copy of the `i`th path holds `p`. */
  ghost predicate InCopy(saved: seq<Saved>, i: nat, p: Path)
    requires i < |saved|
  {
    saved[i].backup.Some? && Under(saved[i].backup.value, p)
  }

  /** What a copy had at `p` when it was made. */
  function Original(s: Saved, p: Path): Path
    requires s.backup.Some? && Under(s.backup.value, p)
  {
    s.path + p[|s.backup.value|..]
  }

  /** An entry does no harm to a later revert: it goes into a path that was moved aside or
      into the temporary directory, or it is the very node that was there before, be it in
      a copy or outside everything (where it may also be a directory made on the way). */
  ghost predicate Harmless(before: Tree, saved: seq<Saved>, dirs: set<Path>, tmp: Path, unpacked: Tree, p: Path) {
    || InSome(saved, p) || Under(tmp, p)
    || (&& (forall i :: 0 <= i < |saved| && InCopy(saved, i, p) ==>
        Get(unpacked, p) == Get(before, Original(saved[i], p)))
        && (Untouched(saved, p) ==> SameOrDir(before, unpacked, dirs, p)))
  }

  /** What a failure after unpacking some entries leaves. */
  function Failed(aside: Tree, saved: seq<Saved>, tmp: Path, located: seq<Entry>): Tree {
    Reverted(RemoveTree(Unpacked(located, aside), tmp), saved)
  }

  /** ... in a path that was moved aside: what is in its copy by then. */
  lemma FailedInPath(before: Tree, aside: Tree, saved: seq<Saved>, tmp: Path, located: seq<Entry>, i: nat, q: Path)
    requires AllApart(saved) && ApartFromAll(saved, tmp) && i < |saved| && Under(saved[i].path, q)
    requires Keeps(before, aside, saved[i])
    ensures saved[i].backup.None? ==> Get(Failed(aside, saved, tmp, located), q) == Get(before, q)
    ensures saved[i].backup.Some? ==>
      var source, unpacked := saved[i].backup.value + q[|saved[i].path|..], Unpacked(located, map[]);
      Get(Failed(aside, saved, tmp, located), q) == if source in unpacked then Get(unpacked, source) else Get(before, q)
  {
    var s := saved[i];
    RevertedAt(RemoveTree(Unpacked(located, aside), tmp), saved, q);
    assert Touches(s, q);
    if s.backup.Some? {
      var source := s.backup.value + q[|s.path|..];
      assert Under(s.backup.value, source);
      UnpackedOver(located, aside, source);
      if Under(tmp, source) { CommonPathNests(tmp, s.backup.value, source); }
    }
  }

  /** ... in a copy: nothing, as before. */
  lemma FailedInCopy(before: Tree, aside: Tree, saved: seq<Saved>, tmp: Path, located: seq<Entry>, i: nat, q: Path)
    requires AllApart(saved) && i < |saved| && InCopy(saved, i, q) && Keeps(before, aside, saved[i])
    ensures Get(Failed(aside, saved, tmp, located), q) == None && Get(before, q) == None
  {
    RevertedAt(RemoveTree(Unpacked(located, aside), tmp), saved, q);
    assert Touches(saved[i], q);
    BackupsAreNotPaths(saved, i, q);
  }

  /** ... elsewhere: what was unpacked there. */
  lemma FailedElsewhere(aside: Tree, saved: seq<Saved>, tmp: Path, located: seq<Entry>, q: Path)
    requires AllApart(saved) && Untouched(saved, q)
    ensures var unpacked := Unpacked(located, map[]);
      Get(Failed(aside, saved, tmp, located), q) ==
        if Under(tmp, q) then None else if q in unpacked then Get(unpacked, q) else Get(aside, q)
  {
    RevertedAt(RemoveTree(Unpacked(located, aside), tmp), saved, q);
    UnpackedOver(located, aside, q);
  }

  /** The entry at `p` overwrites what a copy had there, which is what comes back. */
  lemma CopyOverwritten(before: Tree, aside: Tree, saved: seq<Saved>, tmp: Path, located: seq<Entry>, i: nat, p: Path)
    requires AllApart(saved) && ApartFromAll(saved, tmp) && i < |saved| && InCopy(saved, i, p)
    requires Keeps(before, aside, saved[i])
    requires p in Unpacked(located, map[])
    ensures Under(saved[i].path, Original(saved[i], p))
    ensures Get(Failed(aside, saved, tmp, located), Original(saved[i], p)) == Get(Unpacked(located, map[]), p)
  {
    var s, q := saved[i], Original(saved[i], p);
    assert Under(s.path, q) && q[|s.path|..] == p[|s.backup.value|..] && s.backup.value + p[|s.backup.value|..] == p;
    FailedInPath(before, aside, saved, tmp, located, i, q);
  }

  lemma HarmlessEntry(before: Tree, aside: Tree, saved: seq<Saved>, dirs: set<Path>, tmp: Path, located: seq<Entry>,
                      p: Path)
    requires MovedAside(before, aside, saved, dirs) && ApartFromAll(saved, tmp) && p in Unpacked(located, map[])
    requires forall q :: SameOrDir(before, Failed(aside, saved, tmp, located), dirs, q)
    requires forall q :: q in dirs ==> Untouched(saved, q)
    ensures Harmless(before, saved, dirs, tmp, Unpacked(located, map[]), p)
  {
    var after, unpacked := Failed(aside, saved, tmp, located), Unpacked(located, map[]);
    if !InSome(saved, p) && !Under(tmp, p) {
      forall i: nat | i < |saved| && InCopy(saved, i, p)
        ensures Get(unpacked, p) == Get(before, Original(saved[i], p)) {
        var q := Original(saved[i], p);
        CopyOverwritten(before, aside, saved, tmp, located, i, p);
        assert Touches(saved[i], q);
        assert SameOrDir(before, after, dirs, q) && q !in dirs;
      }
      if Untouched(saved, p) {
        FailedElsewhere(aside, saved, tmp, located, p);
        assert SameOrDir(before, after, dirs, p);
      }
    }
  }

  lemma AllHarmless(before: Tree, aside: Tree, saved: seq<Saved>, dirs: set<Path>, tmp: Path, located: seq<Entry>,
                    q: Path)
    requires MovedAside(before, aside, saved, dirs) && ApartFromAll(saved, tmp) && !Exists(before, tmp)
    requires forall p :: p in Unpacked(located, map[]) ==>
      Harmless(before, saved, dirs, tmp, Unpacked(located, map[]), p)
    ensures SameOrDir(before, Failed(aside, saved, tmp, located), dirs, q)
  {
    if i: nat :| i < |saved| && Touches(saved[i], q) {
      assert Keeps(before, aside, saved[i]);
      if Under(saved[i].path, q) {
        FailedInPath(before, aside, saved, tmp, located, i, q);
        if saved[i].backup.Some? { CopyUnharmed(before, saved, dirs, tmp, Unpacked(located, map[]), i, q); }
      } else {
        FailedInCopy(before, aside, saved, tmp, located, i, q);
      }
    } else {
      assert Untouched(saved, q) && SameOrDir(before, aside, dirs, q);
      FailedElsewhere(aside, saved, tmp, located, q);
      NotInSome(saved, q);
    }
  }

  lemma NotInSome(saved: seq<Saved>, q: Path)
    requires Untouched(saved, q)
    ensures !InSome(saved, q)
  {
    if i :| 0 <= i < |saved| && Under(saved[i].path, q) { assert Touches(saved[i], q); }
  }

  lemma CopyUnharmed(before: Tree, saved: seq<Saved>, dirs: set<Path>, tmp: Path, unpacked: Tree, i: nat, q: Path)
    requires AllApart(saved) && ApartFromAll(saved, tmp) && i < |saved| && saved[i].backup.Some?
    requires Under(saved[i].path, q)
    requires forall p :: p in unpacked ==> Harmless(before, saved, dirs, tmp, unpacked, p)
    ensures var source := saved[i].backup.value + q[|saved[i].path|..];
      source in unpacked ==> Get(unpacked, source) == Get(before, q)
  {
    var b := saved[i].backup.value;
    var source := b + q[|saved[i].path|..];
    if source in unpacked {
      assert InCopy(saved, i, source) && source[|b|..] == q[|saved[i].path|..];
      assert Original(saved[i], source) == q;
      OutsideThoughCopy(saved, tmp, i, source);
      assert Harmless(before, saved, dirs, tmp, unpacked, source);
    }
  }

  lemma OutsideThoughCopy(saved: seq<Saved>, tmp: Path, i: nat, p: Path)
    requires AllApart(saved) && ApartFromAll(saved, tmp) && i < |saved| && InCopy(saved, i, p)
    ensures !InSome(saved, p) && !Under(tmp, p)
  {
    BackupsAreNotPaths(saved, i, p);
    if Under(tmp, p) { CommonPathNests(tmp, saved[i].backup.value, p); }
  }

  /** Whatever was moved aside for the destinations, as long as it is separate: a failure
      after unpacking these entries leaves everything as it was, but for directories created
      on the way, if and only if every entry is harmless.  Destinations that are not mounted
      hold all entries; a mounted one does not hold a new child. */
  lemma FailureExact(before: Tree, roots: seq<Path>, stamp: string, tmp: Path, located: seq<Entry>)
    requires ValidDestinations(before, roots, stamp) && TmpApart(before, roots, stamp, tmp)
    ensures var saved, unpacked := SavedAll(before, roots, stamp), Unpacked(located, map[]);
      Unchanged(before, Failed(Aside(before, roots, stamp), saved, tmp, located), roots) <==>
      forall k :: 0 <= k < |located| ==> Harmless(before, saved, ParentDirs(roots), tmp, unpacked, located[k].path)
  {
    AllKept(before, roots, stamp);
    FailureOver(before, Aside(before, roots, stamp), SavedAll(before, roots, stamp), roots, stamp, tmp, located);
  }

  lemma FailureOver(before: Tree, aside: Tree, saved: seq<Saved>, roots: seq<Path>, stamp: string, tmp: Path,
                    located: seq<Entry>)
    requires ValidDestinations(before, roots, stamp) && TmpApart(before, roots, stamp, tmp)
    requires SavedFrom(roots, stamp, saved) && MovedAside(before, aside, saved, ParentDirs(roots))
    ensures Unchanged(before, Failed(aside, saved, tmp, located), roots) <==>
      forall k :: 0 <= k < |located| ==>
        Harmless(before, saved, ParentDirs(roots), tmp, Unpacked(located, map[]), located[k].path)
  {
    var dirs, after, unpacked := ParentDirs(roots), Failed(aside, saved, tmp, located), Unpacked(located, map[]);
    SavedApartFromTmp(before, roots, stamp, tmp, saved);
    forall p
      ensures p in unpacked <==> exists k :: 0 <= k < |located| && located[k].path == p
    {
      UnpackedOver(located, aside, p);
    }
    if Unchanged(before, after, roots) {
      forall q | q in dirs ensures Untouched(saved, q) { ParentsUntouched(before, roots, stamp, saved, q); }
      forall k | 0 <= k < |located| ensures Harmless(before, saved, dirs, tmp, unpacked, located[k].path) {
        HarmlessEntry(before, aside, saved, dirs, tmp, located, located[k].path);
      }
    }
    if forall k :: 0 <= k < |located| ==> Harmless(before, saved, dirs, tmp, unpacked, located[k].path) {
      forall q ensures SameOrDir(before, after, dirs, q) { AllHarmless(before, aside, saved, dirs, tmp, located, q); }
    }
  }

  lemma SavedApartFromTmp(before: Tree, roots: seq<Path>, stamp: string, tmp: Path, saved: seq<Saved>)
    requires TmpApart(before, roots, stamp, tmp) && SavedFrom(roots, stamp, saved)
    ensures ApartFromAll(saved, tmp)
  {
    forall i | 0 <= i < |saved|
      ensures Disjoint(saved[i].path, tmp) && (saved[i].backup.Some? ==> Disjoint(saved[i].backup.value, tmp))
    {
      assert NameOf(roots[i], stamp, saved[i].path);
    }
  }

  /** On a mounted destination a new child stays: an entry below it that is in none of its
      old children, nor in a copy of one, was not there before and is there after the
      failure. */
  lemma NewChildStays(before: Tree, d: Path, mounts: set<Path>, roots: seq<Path>, stamp: string, tmp: Path,
                      located: seq<Entry>, k: nat)
    requires d != "" && d in mounts && Exists(before, d) && Unfolds(before, [d], mounts, stamp, roots)
    requires ValidDestinations(before, roots, stamp) && TmpApart(before, roots, stamp, tmp) && k < |located|
    requires var q := located[k].path;
      Under(d, q) && q != d && !Under(tmp, q) && Untouched(SavedAll(before, roots, stamp), q)
    ensures var q := located[k].path;
      var after := Failed(Aside(before, roots, stamp), SavedAll(before, roots, stamp), tmp, located);
      q !in before && q in after && !Unchanged(before, after, roots)
  {
    AllKept(before, roots, stamp);
    ChildrenListed(before, d, mounts, roots, stamp);
    var q, saved := located[k].path, SavedAll(before, roots, stamp);
    UnpackedOver(located, map[], q);
    NewChild(before, Aside(before, roots, stamp), saved, d, roots, stamp, tmp, located, q);
  }

  lemma NewChild(before: Tree, aside: Tree, saved: seq<Saved>, d: Path, roots: seq<Path>, stamp: string, tmp: Path,
                 located: seq<Entry>, q: Path)
    requires d != "" && IsListing(before, d, roots) && SavedFrom(roots, stamp, saved) && |saved| == |roots|
    requires AllApart(saved)
    requires Under(d, q) && q != d && !Under(tmp, q) && Untouched(saved, q) && q in Unpacked(located, map[])
    ensures var after := Failed(aside, saved, tmp, located);
      q !in before && q in after && !Unchanged(before, after, roots)
  {
    FailedElsewhere(aside, saved, tmp, located, q);
    NoNewParent(d, roots, q);
    forall i | 0 <= i < |roots| ensures !Under(roots[i], q) { assert !Touches(saved[i], q); }
    assert !SameOrDir(before, Failed(aside, saved, tmp, located), ParentDirs(roots), q);
  }

  lemma ChildrenListed(before: Tree, d: Path, mounts: set<Path>, roots: seq<Path>, stamp: string)
    requires d != "" && d in mounts && Exists(before, d) && Unfolds(before, [d], mounts, stamp, roots)
    ensures IsListing(before, d, roots)
  {
    var n: nat :| n <= |roots| && Steps.Unfolds(Mover(stamp), Parts(mounts), before, [d][..0], roots[..n])
      && Parts(mounts)(Steps.After(Mover(stamp), before, roots, n), [d][0], roots[n..]);
    assert n == 0 && roots[0..] == roots;
  }

  /** The directories above the children are the destination and those above it. */
  lemma NoNewParent(d: Path, roots: seq<Path>, q: Path)
    requires d != "" && forall c :: c in roots ==> IsChild(d, c)
    requires Under(d, q) && q != d
    ensures q !in ParentDirs(roots)
  {
    if q in ParentDirs(roots) {
      var i :| 0 <= i < |roots| && q in Ancestors(Parent(roots[i]));
      ParentOfChild(d, roots[i]);
    }
  }

  lemma ParentOfChild(d: Path, c: Path)
    requires d != "" && IsChild(d, c)
    ensures Parent(c) == d
  {
    assert c[|d|] == '/';
    assert LastSlash(c) == |d|;
  }

  // ---- two destinations ----

  ghost predicate AboveSome(ds: seq<Path>, q: Path) {
    exists i :: 0 <= i < |ds| && |q| < |ds[i]| && (q == "/" || Under(q, ds[i]))
  }

  /** Everything is as before, except for directories created above destinations. */
  ghost predicate Back(before: Tree, t: Tree, ds: seq<Path>) {
    forall q :: BackAt(before, t, ds, q)
  }

  ghost predicate BackAt(before: Tree, t: Tree, ds: seq<Path>, q: Path) {
    Get(t, q) == Get(before, q) || (Get(before, q) == None && Get(t, q) == Some(Dir) && AboveSome(ds, q))
  }

  /** Two destinations moved aside one after the other, an extraction, and two reversals. */
  ghost predicate TwoMoved(before: Tree, a1: Tree, a2: Tree, v0: Tree, v1: Tree, v2: Tree, d0: Path, d1: Path, m0: bool,
                           m1: bool) {
    && d0 != "" && d0[|d0| - 1] != '/' && d1 != "" && d1[|d1| - 1] != '/'
    && (m0 <==> Exists(before, d0)) && (m1 <==> Exists(a1, d1))
    && (forall y :: MovedTo(before, a1, d0, m0, y)) && (forall y :: MovedTo(a1, a2, d1, m1, y))
    && InsideOnly(a2, v0, [d0, d1])
    && (forall y :: RevertedTo(v0, v1, d0, m0, y)) && (forall y :: RevertedTo(v1, v2, d1, m1, y))
  }

  lemma NothingUnder(t: Tree, d: Path, y: Path)
    requires !Exists(t, d) && Under(d, y)
    ensures Get(t, y) == None
  {
  }

  /** What one destination's copy holds when it is reverted, while the other one is neither
      above nor inside it. */
  lemma CopyKept(before: Tree, a1: Tree, a2: Tree, v0: Tree, v1: Tree, v2: Tree, d0: Path, d1: Path, m0: bool, m1: bool,
                 x: Path)
    requires TwoMoved(before, a1, a2, v0, v1, v2, d0, d1, m0, m1) && (x == "" || x[0] == '/')
    requires m1 && Disjoint(d0, Bak(d1)) && (m0 ==> Disjoint(Bak(d0), Bak(d1)))
    ensures Get(v1, Bak(d1) + x) == Get(a1, d1 + x)
  {
    var z := Bak(d1) + x;
    BakApart(d1);
    assert Under(Bak(d1), z) && z[|Bak(d1)|..] == x;
    if Under(d0, z) { CommonPathNests(d0, Bak(d1), z); }
    if Under(d1, z) { CommonPathNests(d1, Bak(d1), z); }
    if m0 && Under(Bak(d0), z) { CommonPathNests(Bak(d0), Bak(d1), z); }
    assert MovedTo(a1, a2, d1, m1, z);
    assert RevertedTo(v0, v1, d0, m0, z);
    assert [d0, d1][0] == d0 && [d0, d1][1] == d1;
  }

  lemma Elsewhere(before: Tree, a1: Tree, a2: Tree, v0: Tree, v1: Tree, v2: Tree, d0: Path, d1: Path, m0: bool,
                  m1: bool, q: Path)
    requires TwoMoved(before, a1, a2, v0, v1, v2, d0, d1, m0, m1)
    requires !Under(d0, q) && !Under(d1, q) && (m0 ==> !Under(Bak(d0), q)) && (m1 ==> !Under(Bak(d1), q))
    ensures BackAt(before, v2, [d0, d1], q)
  {
    assert MovedTo(before, a1, d0, m0, q) && MovedTo(a1, a2, d1, m1, q);
    assert RevertedTo(v0, v1, d0, m0, q) && RevertedTo(v1, v2, d1, m1, q);
    assert [d0, d1][0] == d0 && [d0, d1][1] == d1;
  }

  lemma OuterFirstAt(before: Tree, a1: Tree, a2: Tree, v0: Tree, v1: Tree, v2: Tree, outer: Path, inner: Path, m0: bool,
                     m1: bool, q: Path)
    requires TwoMoved(before, a1, a2, v0, v1, v2, outer, inner, m0, m1)
    requires Under(outer, inner) && outer != inner && !Exists(before, Bak(outer))
    ensures Under(inner, q) ==> Get(v2, q) == None
    ensures !Under(inner, q) ==> BackAt(before, v2, [outer, inner], q)
  {
    BakApart(outer);
    assert !m1 by {
      forall y | Under(inner, y) ensures y !in a1 {
        UnderTransitive(outer, inner, y);
        assert MovedTo(before, a1, outer, m0, y);
        if Under(Bak(outer), y) { CommonPathNests(outer, Bak(outer), y); }
        if !m0 { NothingUnder(before, outer, y); }
      }
    }
    assert RevertedTo(v1, v2, inner, m1, q);
    if Under(inner, q) {
    } else if Under(outer, q) {
      assert RevertedTo(v0, v1, outer, m0, q);
      if m0 {
        OuterCopy(before, a1, a2, v0, v1, v2, outer, inner, m1, q[|outer|..]);
        assert outer + q[|outer|..] == q;
      } else {
        NothingUnder(before, outer, q);
      }
    } else if m0 && Under(Bak(outer), q) {
      assert RevertedTo(v0, v1, outer, m0, q);
      NothingUnder(before, Bak(outer), q);
    } else {
      Elsewhere(before, a1, a2, v0, v1, v2, outer, inner, m0, m1, q);
    }
  }

  lemma OuterCopy(before: Tree, a1: Tree, a2: Tree, v0: Tree, v1: Tree, v2: Tree, outer: Path, inner: Path, m1: bool,
                  x: Path)
    requires TwoMoved(before, a1, a2, v0, v1, v2, outer, inner, true, m1) && !m1
    requires Under(outer, inner) && outer != inner && (x == "" || x[0] == '/')
    ensures Get(v0, Bak(outer) + x) == Get(before, outer + x)
  {
    var z := Bak(outer) + x;
    BakApart(outer);
    assert Under(Bak(outer), z) && z[|Bak(outer)|..] == x;
    assert !Under(outer, z) by { if Under(outer, z) { CommonPathNests(outer, Bak(outer), z); } }
    assert !Under(inner, z) by { if Under(inner, z) { UnderTransitive(outer, inner, z); } }
    assert !Under(z, inner) by {
      if Under(z, inner) {
        UnderTransitive(Bak(outer), z, inner);
        CommonPathNests(outer, Bak(outer), inner);
      }
    }
    assert MovedTo(before, a1, outer, true, z) && MovedTo(a1, a2, inner, m1, z);
    assert [outer, inner][0] == outer && [outer, inner][1] == inner;
    assert z != "/";
  }

  lemma InnerFirstAt(before: Tree, a1: Tree, a2: Tree, v0: Tree, v1: Tree, v2: Tree, outer: Path, inner: Path, m0: bool,
                     m1: bool, q: Path)
    requires TwoMoved(before, a1, a2, v0, v1, v2, inner, outer, m0, m1)
    requires Under(outer, inner) && outer != inner && !Exists(before, Bak(outer))
    ensures m0 && Under(inner, q) ==> Get(v2, q) == None
    ensures !m0 ==> BackAt(before, v2, [inner, outer], q)
  {
    BakApart(outer);
    BakApart(inner);
    InnerNamesApart(outer, inner);
    assert MovedTo(before, a1, inner, m0, q) && RevertedTo(v1, v2, outer, m1, q);
    if Under(inner, q) { UnderTransitive(outer, inner, q); }
    if Under(outer, q) {
      if m1 {
        CopyKept(before, a1, a2, v0, v1, v2, inner, outer, m0, m1, q[|outer|..]);
        assert outer + q[|outer|..] == q;
      } else {
        NothingUnder(a1, outer, q);
      }
      if m0 && Under(inner, q) && Under(Bak(inner), q) { CommonPathNests(inner, Bak(inner), q); }
      assert [inner, outer][0] == inner;
    } else if m1 && Under(Bak(outer), q) {
      NothingUnder(before, Bak(outer), q);
    } else if !m0 {
      Elsewhere(before, a1, a2, v0, v1, v2, inner, outer, m0, m1, q);
    }
  }

  lemma InnerNamesApart(outer: Path, inner: Path)
    requires Under(outer, inner) && outer != inner
    ensures Disjoint(inner, Bak(outer)) && Disjoint(Bak(inner), Bak(outer))
  {
    BakApart(outer);
    assert Under(outer, Bak(inner));
    if Under(inner, Bak(outer)) { UnderTransitive(outer, inner, Bak(outer)); }
    if Under(Bak(inner), Bak(outer)) { UnderTransitive(outer, Bak(inner), Bak(outer)); }
    if Under(Bak(outer), inner) { CommonPathNests(Bak(outer), outer, inner); }
    if Under(Bak(outer), Bak(inner)) { CommonPathNests(Bak(outer), outer, Bak(inner)); }
  }

  /** The code's run over two destinations whose names are free when their turn comes. */
  lemma TwoRun(before: Tree, d0: Path, d1: Path, stamp: string, t: Tree)
    returns (a1: Tree, v1: Tree, m0: bool, m1: bool)
    requires d0 != "" && d0[|d0| - 1] != '/' && d1 != "" && d1[|d1| - 1] != '/'
    requires Exists(before, d0) ==> !Exists(before, Bak(d0))
    requires !Exists(MoveOne(before, d0, stamp).0, Bak(d1))
    requires InsideOnly(AsideAt(before, [d0, d1], stamp, 2), t, [d0, d1])
    ensures a1 == MoveOne(before, d0, stamp).0
    ensures TwoMoved(before, a1, AsideAt(before, [d0, d1], stamp, 2), t, v1,
      Reverted(t, SavedAll(before, [d0, d1], stamp)), d0, d1, m0, m1)
  {
    var ds := [d0, d1];
    a1, m0 := MoveOne(before, d0, stamp).0, Exists(before, d0);
    m1 := Exists(a1, d1);
    assert AsideAt(before, ds, stamp, 0) == before && AsideAt(before, ds, stamp, 1) == a1;
    assert AsideAt(before, ds, stamp, 2) == MoveOne(a1, d1, stamp).0;
    MoveOneAt(before, d0, stamp, "");
    MoveOneAt(a1, d1, stamp, "");
    MoveOneStep(before, d0, stamp);
    MoveOneStep(a1, d1, stamp);
    var saved := SavedAll(before, ds, stamp);
    v1 := RevertOne(t, saved[0]);
    RevertOneStep(t, d0, m0);
    RevertOneStep(v1, d1, m1);
    assert saved == [saved[0], saved[1]];
    RevertedTwo(t, saved[0], saved[1]);
  }

  lemma RevertedTwo(t: Tree, first: Saved, second: Saved)
    ensures Reverted(t, [first, second]) == RevertOne(RevertOne(t, first), second)
  {
    var t' := RevertOne(t, first);
    assert [first, second][1..] == [second] && [second][1..] == [];
    assert Reverted(t', [second]) == Reverted(RevertOne(t', second), []);
  }

  /** Nested destinations, the outer one first: everything is back if and only if the inner
      one did not exist. */
  lemma OuterFirst(before: Tree, outer: Path, inner: Path, stamp: string, t: Tree)
    requires Under(outer, inner) && FreeNames(before, [outer, inner])
    requires InsideOnly(AsideAt(before, [outer, inner], stamp, 2), t, [outer, inner])
    ensures Back(before, Reverted(t, SavedAll(before, [outer, inner], stamp)), [outer, inner]) <==>
      !Exists(before, inner)
    ensures !Exists(Reverted(t, SavedAll(before, [outer, inner], stamp)), inner)
  {
    var ds := [outer, inner];
    assert ds[0] == outer && ds[1] == inner;
    SecondNameFree(before, outer, inner, stamp);
    var a1, v1, m0, m1 := TwoRun(before, outer, inner, stamp, t);
    var v2 := Reverted(t, SavedAll(before, ds, stamp));
    OuterFirstTwo(before, a1, AsideAt(before, ds, stamp, 2), t, v1, v2, outer, inner, m0, m1);
  }

  lemma OuterFirstTwo(before: Tree, a1: Tree, a2: Tree, v0: Tree, v1: Tree, v2: Tree, outer: Path, inner: Path,
                      m0: bool, m1: bool)
    requires TwoMoved(before, a1, a2, v0, v1, v2, outer, inner, m0, m1) && Under(outer, inner)
    requires FreeNames(before, [outer, inner])
    ensures Back(before, v2, [outer, inner]) <==> !Exists(before, inner)
    ensures !Exists(v2, inner)
  {
    var ds := [outer, inner];
    assert ds[0] == outer && ds[1] == inner;
    forall q ensures Under(inner, q) ==> Get(v2, q) == None
             ensures !Under(inner, q) ==> BackAt(before, v2, ds, q)
    {
      OuterFirstAt(before, a1, a2, v0, v1, v2, outer, inner, m0, m1, q);
    }
    if Exists(before, inner) {
      var q :| q in before && Under(inner, q);
      assert !BackAt(before, v2, ds, q);
    } else {
      forall q ensures BackAt(before, v2, ds, q) {
        if Under(inner, q) { NothingUnder(before, inner, q); }
      }
    }
  }

  lemma SecondNameFree(before: Tree, d0: Path, d1: Path, stamp: string)
    requires FreeNames(before, [d0, d1])
    ensures !Exists(MoveOne(before, d0, stamp).0, Bak(d1))
  {
    var ds := [d0, d1];
    assert ds[0] == d0 && ds[1] == d1;
    assert !Under(Bak(ds[1]), ds[0]);
    BaksApart(before, ds, 0, 1);
    forall y | Under(Bak(d1), y) ensures y !in MoveOne(before, d0, stamp).0 {
      MoveOneAt(before, d0, stamp, y);
      NotInBak(before, ds, 0, 1, y);
      NotAbove(before, ds, 0, 1, y);
      NothingUnder(before, Bak(d1), y);
    }
  }

  /** The inner one first: the same condition. */
  lemma InnerFirst(before: Tree, outer: Path, inner: Path, stamp: string, t: Tree)
    requires Under(outer, inner) && FreeNames(before, [inner, outer])
    requires InsideOnly(AsideAt(before, [inner, outer], stamp, 2), t, [inner, outer])
    ensures Back(before, Reverted(t, SavedAll(before, [inner, outer], stamp)), [inner, outer]) <==>
      !Exists(before, inner)
    ensures Exists(before, inner) ==> !Exists(Reverted(t, SavedAll(before, [inner, outer], stamp)), inner)
  {
    var ds := [inner, outer];
    assert ds[0] == inner && ds[1] == outer;
    SecondNameFree(before, inner, outer, stamp);
    var a1, v1, m0, m1 := TwoRun(before, inner, outer, stamp, t);
    var v2 := Reverted(t, SavedAll(before, ds, stamp));
    InnerFirstTwo(before, a1, AsideAt(before, ds, stamp, 2), t, v1, v2, outer, inner, m0, m1);
  }

  lemma InnerFirstTwo(before: Tree, a1: Tree, a2: Tree, v0: Tree, v1: Tree, v2: Tree, outer: Path, inner: Path,
                      m0: bool, m1: bool)
    requires TwoMoved(before, a1, a2, v0, v1, v2, inner, outer, m0, m1) && Under(outer, inner)
    requires FreeNames(before, [inner, outer])
    ensures Back(before, v2, [inner, outer]) <==> !Exists(before, inner)
    ensures Exists(before, inner) ==> !Exists(v2, inner)
  {
    var ds := [inner, outer];
    assert ds[0] == inner && ds[1] == outer;
    forall q ensures m0 && Under(inner, q) ==> Get(v2, q) == None
             ensures !m0 ==> BackAt(before, v2, ds, q)
    {
      InnerFirstAt(before, a1, a2, v0, v1, v2, outer, inner, m0, m1, q);
    }
    if Exists(before, inner) {
      var q :| q in before && Under(inner, q);
      assert !BackAt(before, v2, ds, q);
    }
  }

  // ---- a destination that is another one's moved-aside name ----

  lemma BakOfBak(d: Path)
    ensures Disjoint(d, Bak(d)) && Disjoint(d, Bak(Bak(d))) && Disjoint(Bak(d), Bak(Bak(d)))
  {
    BakApart(d);
    BakApart(Bak(d));
    assert Bak(Bak(d))[|d|] == '.';
  }

  lemma BakFirstAt(before: Tree, a1: Tree, a2: Tree, v0: Tree, v1: Tree, v2: Tree, d: Path, m0: bool, m1: bool, q: Path)
    requires TwoMoved(before, a1, a2, v0, v1, v2, Bak(d), d, m0, m1) && !Exists(before, Bak(Bak(d)))
    ensures m1 && Under(Bak(d), q) ==> Get(v2, q) == None
    ensures m1 && !m0 && Under(d, q) ==> Get(v2, q) == None
    ensures !m1 && !Exists(before, d) ==> BackAt(before, v2, [Bak(d), d], q)
  {
    var e := Bak(d);
    BakOfBak(d);
    assert RevertedTo(v1, v2, d, m1, q) && RevertedTo(v0, v1, e, m0, q);
    if Under(e, q) && Under(d, q) { CommonPathNests(d, e, q); }
    if Under(d, q) {
      var z := e + q[|d|..];
      assert Under(e, z);
      assert RevertedTo(v0, v1, e, m0, z);
      if !Exists(before, d) { NothingUnder(before, d, q); }
    } else if !m1 && Under(e, q) {
      if m0 {
        BakCopy(before, a1, a2, v0, v1, v2, d, m1, q[|e|..]);
        assert e + q[|e|..] == q;
      } else {
        NothingUnder(before, e, q);
      }
    } else if !m1 && m0 && Under(Bak(e), q) {
      NothingUnder(before, Bak(e), q);
    } else if !m1 {
      Elsewhere(before, a1, a2, v0, v1, v2, e, d, m0, m1, q);
    }
  }

  lemma BakCopy(before: Tree, a1: Tree, a2: Tree, v0: Tree, v1: Tree, v2: Tree, d: Path, m1: bool, x: Path)
    requires TwoMoved(before, a1, a2, v0, v1, v2, Bak(d), d, true, m1) && !m1 && (x == "" || x[0] == '/')
    ensures Get(v0, Bak(Bak(d)) + x) == Get(before, Bak(d) + x)
  {
    var e := Bak(d);
    var z := Bak(e) + x;
    BakOfBak(d);
    assert Under(Bak(e), z) && z[|Bak(e)|..] == x;
    if Under(e, z) { CommonPathNests(e, Bak(e), z); }
    if Under(d, z) { CommonPathNests(d, Bak(e), z); }
    assert MovedTo(before, a1, e, true, z) && MovedTo(a1, a2, d, m1, z);
    assert [e, d][0] == e && [e, d][1] == d;
  }

  /** Whether `d` exists is not changed by what happens to `d.bak`. */
  lemma StillThere(before: Tree, a1: Tree, d: Path, m0: bool)
    requires d != "" && d[|d| - 1] != '/' && forall y :: MovedTo(before, a1, Bak(d), m0, y)
    ensures Exists(a1, d) <==> Exists(before, d)
  {
    BakOfBak(d);
    forall y | Under(d, y) ensures Get(a1, y) == Get(before, y) {
      assert MovedTo(before, a1, Bak(d), m0, y);
      if Under(Bak(d), y) { CommonPathNests(d, Bak(d), y); }
      if Under(Bak(Bak(d)), y) { CommonPathNests(d, Bak(Bak(d)), y); }
      if Under(y, Bak(d)) { UnderTransitive(d, y, Bak(d)); }
    }
    assert forall y :: Under(d, y) ==> (y in a1 <==> y in before);
  }

  /** Destinations `d.bak` and `d`, in this order: `d` is moved to the name that the first
      one has left, which is the first thing reverting deletes.  Everything is back if and
      only if `d` did not exist. */
  lemma BakFirst(before: Tree, d: Path, stamp: string, t: Tree)
    requires d != "" && d[|d| - 1] != '/' && !Exists(before, Bak(Bak(d)))
    requires InsideOnly(AsideAt(before, [Bak(d), d], stamp, 2), t, [Bak(d), d])
    ensures Back(before, Reverted(t, SavedAll(before, [Bak(d), d], stamp)), [Bak(d), d]) <==> !Exists(before, d)
  {
    var e := Bak(d);
    var ds := [e, d];
    assert e[|e| - 1] == 'k';
    BakOfBak(d);
    assert !Exists(MoveOne(before, e, stamp).0, e) by {
      forall y | Under(e, y) ensures y !in MoveOne(before, e, stamp).0 {
        MoveOneAt(before, e, stamp, y);
        if Under(Bak(e), y) { CommonPathNests(e, Bak(e), y); }
        if !Exists(before, e) { NothingUnder(before, e, y); }
      }
    }
    var a1, v1, m0, m1 := TwoRun(before, e, d, stamp, t);
    StillThere(before, a1, d, m0);
    var v2 := Reverted(t, SavedAll(before, ds, stamp));
    forall q ensures m1 && Under(e, q) ==> Get(v2, q) == None
             ensures m1 && !m0 && Under(d, q) ==> Get(v2, q) == None
             ensures !m1 ==> BackAt(before, v2, ds, q)
    {
      BakFirstAt(before, a1, AsideAt(before, ds, stamp, 2), t, v1, v2, d, m0, m1, q);
    }
    if m1 {
      var lost := if m0 then e else d;
      var q :| q in before && Under(lost, q);
      assert !BackAt(before, v2, ds, q);
    }
  }

  lemma BakLastLost(before: Tree, a1: Tree, a2: Tree, v0: Tree, v1: Tree, v2: Tree, d: Path, m1: bool, q: Path)
    requires TwoMoved(before, a1, a2, v0, v1, v2, d, Bak(d), true, m1) && !Exists(before, Bak(d))
    requires q in before && Under(d, q)
    ensures !BackAt(before, v2, [d, Bak(d)], Bak(d) + q[|d|..])
  {
    var e, x := Bak(d), q[|d|..];
    var z := e + x;
    BakOfBak(d);
    assert d + x == q && Under(e, z) && z[|e|..] == x;
    assert MovedTo(before, a1, d, true, z);
    assert Exists(a1, e);
    assert Under(Bak(e), Bak(e) + x);
    BakLastCopy(before, a1, a2, v0, v1, v2, d, m1, x);
    assert RevertedTo(v1, v2, e, m1, z);
    NothingUnder(before, e, z);
    assert |z| >= |e| > |d|;
    assert !AboveSome([d, e], z);
  }

  lemma BakLastCopy(before: Tree, a1: Tree, a2: Tree, v0: Tree, v1: Tree, v2: Tree, d: Path, m1: bool, x: Path)
    requires TwoMoved(before, a1, a2, v0, v1, v2, d, Bak(d), true, m1) && m1 && (x == "" || x[0] == '/')
    ensures Get(v1, Bak(Bak(d)) + x) == Get(a1, Bak(d) + x)
  {
    BakOfBak(d);
    CopyKept(before, a1, a2, v0, v1, v2, d, Bak(d), true, m1, x);
  }

  lemma BakLastAbsent(before: Tree, a1: Tree, a2: Tree, v0: Tree, v1: Tree, v2: Tree, d: Path, m1: bool, q: Path)
    requires TwoMoved(before, a1, a2, v0, v1, v2, d, Bak(d), false, m1) && !Exists(before, Bak(Bak(d)))
    ensures BackAt(before, v2, [d, Bak(d)], q)
  {
    var e := Bak(d);
    BakOfBak(d);
    assert MovedTo(before, a1, d, false, q) && RevertedTo(v0, v1, d, false, q) && RevertedTo(v1, v2, e, m1, q);
    assert [d, e][0] == d;
    if Under(e, q) {
      if m1 {
        CopyKept(before, a1, a2, v0, v1, v2, d, e, false, m1, q[|e|..]);
        assert e + q[|e|..] == q;
      } else {
        NothingUnder(a1, e, q);
      }
    } else if Under(d, q) {
      NothingUnder(before, d, q);
      if m1 && Under(Bak(e), q) { CommonPathNests(d, Bak(e), q); }
    } else if m1 && Under(Bak(e), q) {
      NothingUnder(before, Bak(e), q);
    } else {
      Elsewhere(before, a1, a2, v0, v1, v2, d, e, false, m1, q);
    }
  }

  lemma BothAside(before: Tree, a1: Tree, a2: Tree, d: Path, f: Path, e: Path, g: Path)
    requires a1 == MoveTree(before, d, f) && a2 == MoveTree(a1, e, g) && !Exists(before, f) && !Exists(a1, g)
    requires Disjoint(d, f) && Disjoint(d, e) && Disjoint(d, g) && Disjoint(f, e) && Disjoint(f, g) && Disjoint(e, g)
    ensures MovedAside(before, a2, [Saved(d, Some(f)), Saved(e, Some(g))], {})
  {
    assert MovedAside(before, before, [], {});
    AsideMoves(before, before, [], {}, d, f);
    var first := [] + [Saved(d, Some(f))];
    AsideMoves(before, a1, first, {}, e, g);
    assert first + [Saved(e, Some(g))] == [Saved(d, Some(f)), Saved(e, Some(g))];
  }

  lemma MovesTo(t: Tree, d: Path, stamp: string, b: Path)
    requires Exists(t, d) && b == BackupName(t, d, stamp) && !Exists(t, b)
    ensures MoveOne(t, d, stamp) == (MoveTree(t, d, b), Saved(d, Some(b)))
  {
    RenameToFree(t, d, b);
  }

  lemma TwoSaved(before: Tree, d0: Path, d1: Path, stamp: string)
    ensures var ds := [d0, d1]; var a1 := MoveOne(before, d0, stamp).0;
      && AsideAt(before, ds, stamp, 2) == MoveOne(a1, d1, stamp).0
      && SavedAll(before, ds, stamp) == [MoveOne(before, d0, stamp).1, MoveOne(a1, d1, stamp).1]
  {
    var ds := [d0, d1];
    assert AsideAt(before, ds, stamp, 0) == before;
    assert AsideAt(before, ds, stamp, 1) == MoveOne(before, d0, stamp).0;
  }

  /** When both exist, `d` gets a time-stamped name and the two do not meet. */
  lemma BothMoved(before: Tree, d: Path, stamp: string, t: Tree)
    requires d != "" && d[|d| - 1] != '/' && Exists(before, d) && Exists(before, Bak(d))
    requires !Exists(before, Bak(Bak(d))) && !Exists(before, Stamped(d, stamp))
    requires Disjoint(Stamped(d, stamp), Bak(Bak(d))) && Disjoint(Stamped(d, stamp), Bak(d))
    requires Disjoint(Stamped(d, stamp), d)
    requires InsideOnly(AsideAt(before, [d, Bak(d)], stamp, 2), t, [d, Bak(d)])
    ensures Back(before, Reverted(t, SavedAll(before, [d, Bak(d)], stamp)), [d, Bak(d)])
  {
    var e, f := Bak(d), Stamped(d, stamp);
    BakOfBak(d);
    var a1 := MoveTree(before, d, f);
    MovesTo(before, d, stamp, f);
    OthersMoveAside(before, d, f, e);
    OthersMoveAside(before, d, f, Bak(e));
    MovesTo(a1, e, stamp, Bak(e));
    TwoSaved(before, d, e, stamp);
    BothAside(before, a1, MoveTree(a1, e, Bak(e)), d, f, e, Bak(e));
    AllBack(before, MoveTree(a1, e, Bak(e)), t, [Saved(d, Some(f)), Saved(e, Some(Bak(e)))], [d, e]);
  }

  lemma AllBack(before: Tree, aside: Tree, t: Tree, saved: seq<Saved>, ds: seq<Path>)
    requires MovedAside(before, aside, saved, {}) && InsideOnly(aside, t, ds)
    requires |saved| == |ds| && forall i :: 0 <= i < |ds| ==> saved[i].path == ds[i]
    ensures Back(before, Reverted(t, saved), ds)
  {
    forall p ensures Get(t, p) == Get(aside, p) || exists i :: 0 <= i < |saved| && Under(saved[i].path, p) {
      if i :| 0 <= i < |ds| && Under(ds[i], p) { assert saved[i].path == ds[i]; }
    }
    forall q ensures BackAt(before, Reverted(t, saved), ds, q) {
      RevertRestores(before, aside, t, saved, {}, q);
    }
  }

  lemma OthersMoveAside(before: Tree, d: Path, f: Path, e: Path)
    requires Disjoint(d, f) && !Exists(before, f) && Disjoint(d, e) && Disjoint(f, e)
    ensures Exists(MoveTree(before, d, f), e) <==> Exists(before, e)
  {
    forall y | Under(e, y) ensures Get(MoveTree(before, d, f), y) == Get(before, y) {
      MoveTreeAt(before, d, f, y);
      if Under(d, y) { CommonPathNests(d, e, y); }
      if Under(f, y) { CommonPathNests(f, e, y); }
    }
    assert forall y :: Under(e, y) ==> (y in MoveTree(before, d, f) <==> y in before);
  }

  lemma StampedApart(d: Path, stamp: string)
    requires stamp != "bak" && forall i :: 0 <= i < |stamp| ==> stamp[i] != '/'
    ensures Disjoint(Stamped(d, stamp), Bak(Bak(d))) && Disjoint(Stamped(d, stamp), Bak(d))
    ensures Disjoint(Stamped(d, stamp), d)
  {
    var f := Stamped(d, stamp);
    assert f == d + ("." + stamp + ".bak") && Bak(Bak(d)) == d + ".bak.bak";
    SlashFree(d, "." + stamp + ".bak", ".bak.bak");
    SlashFree(d, "." + stamp + ".bak", ".bak");
    SlashFree(d, "." + stamp + ".bak", "");
    assert d + "" == d;
    assert stamp == ("." + stamp + ".bak")[1..|stamp| + 1];
    assert ".bak.bak"[1..4] == "bak";
  }

  lemma SlashFree(d: Path, x: Path, y: Path)
    requires '/' !in x && '/' !in y
    ensures Disjoint(d + x, d + y) <==> x != y
  {
    assert (d + x)[|d|..] == x && (d + y)[|d|..] == y;
    assert forall i :: |d| <= i < |d + x| ==> (d + x)[i] == x[i - |d|];
    assert forall i :: |d| <= i < |d + y| ==> (d + y)[i] == y[i - |d|];
  }

  /** The other order: if `d.bak` does not exist, `d` is moved there, and from there away
      with it.  Everything is back if and only if `d` did not exist or `d.bak` did. */
  lemma BakLast(before: Tree, d: Path, stamp: string, t: Tree)
    requires d != "" && d[|d| - 1] != '/' && !Exists(before, Bak(Bak(d))) && !Exists(before, Stamped(d, stamp))
    requires stamp != "bak" && forall i :: 0 <= i < |stamp| ==> stamp[i] != '/'
    requires InsideOnly(AsideAt(before, [d, Bak(d)], stamp, 2), t, [d, Bak(d)])
    ensures Back(before, Reverted(t, SavedAll(before, [d, Bak(d)], stamp)), [d, Bak(d)]) <==>
      !Exists(before, d) || Exists(before, Bak(d))
  {
    if Exists(before, d) && Exists(before, Bak(d)) {
      StampedApart(d, stamp);
      BothMoved(before, d, stamp, t);
    } else {
      BakLastOtherwise(before, d, stamp, t);
    }
  }

  lemma BakLastOtherwise(before: Tree, d: Path, stamp: string, t: Tree)
    requires d != "" && d[|d| - 1] != '/' && !Exists(before, Bak(Bak(d)))
    requires Exists(before, d) ==> !Exists(before, Bak(d))
    requires InsideOnly(AsideAt(before, [d, Bak(d)], stamp, 2), t, [d, Bak(d)])
    ensures Back(before, Reverted(t, SavedAll(before, [d, Bak(d)], stamp)), [d, Bak(d)]) <==> !Exists(before, d)
  {
    var e := Bak(d);
    var ds := [d, e];
    assert e[|e| - 1] == 'k';
    BakOfBak(d);
    assert !Exists(MoveOne(before, d, stamp).0, Bak(e)) by {
      forall y | Under(Bak(e), y) ensures y !in MoveOne(before, d, stamp).0 {
        MoveOneAt(before, d, stamp, y);
        if Under(e, y) { CommonPathNests(e, Bak(e), y); }
        NothingUnder(before, Bak(e), y);
      }
    }
    var a1, v1, m0, m1 := TwoRun(before, d, e, stamp, t);
    var v2 := Reverted(t, SavedAll(before, ds, stamp));
    if m0 {
      var q :| q in before && Under(d, q);
      BakLastLost(before, a1, AsideAt(before, ds, stamp, 2), t, v1, v2, d, m1, q);
    } else {
      forall q ensures BackAt(before, v2, ds, q) {
        BakLastAbsent(before, a1, AsideAt(before, ds, stamp, 2), t, v1, v2, d, m1, q);
      }
    }
  }
}
