/** Moving whatever is at or under one path to another, on paths that are lists of names. */
module Moves {

  datatype Step<T> = Step(from: seq<T>, to: seq<T>)

  function Move<T(==)>(s: Step<T>, ns: seq<T>): seq<T> {
    if s.from <= ns then s.to + ns[|s.from|..] else ns
  }

  predicate Comparable<T(==)>(a: seq<T>, b: seq<T>) {
    a <= b || b <= a
  }

  ghost predicate SourcesApart<T>(steps: seq<Step<T>>) {
    forall i, j :: 0 <= i < j < |steps| ==> !Comparable(steps[i].from, steps[j].from)
  }

  /** The first step whose source holds `ns`. */
  function Holder<T(==)>(steps: seq<Step<T>>, ns: seq<T>): (i: nat)
    ensures i <= |steps|
    ensures forall k :: 0 <= k < i ==> !(steps[k].from <= ns)
    ensures i < |steps| ==> steps[i].from <= ns
  {
    if steps == [] then 0
    else if steps[0].from <= ns then 0
    else 1 + Holder(steps[1..], ns)
  }

  /** One pass: the first step that holds the path moves it. */
  function MoveOnce<T(==)>(steps: seq<Step<T>>, ns: seq<T>): seq<T> {
    var i := Holder(steps, ns);
    if i < |steps| then Move(steps[i], ns) else ns
  }

  lemma PrefixesNest<T>(a: seq<T>, b: seq<T>, c: seq<T>)
    requires a <= c && b <= c
    ensures Comparable(a, b)
  {
    assert a == c[..|a|] && b == c[..|b|];
  }

  lemma HeldByOneOnly<T>(steps: seq<Step<T>>, i: nat, k: nat, ns: seq<T>)
    requires SourcesApart(steps) && i < |steps| && k < |steps| && i != k
    requires steps[i].from <= ns
    ensures !(steps[k].from <= ns)
  {
    assert !Comparable(steps[i].from, steps[k].from);
    if steps[k].from <= ns {
      PrefixesNest(steps[i].from, steps[k].from, ns);
    }
  }

  /** When sources are apart, whichever step holds a path is the one used. */
  lemma HolderIs<T>(steps: seq<Step<T>>, i: nat, ns: seq<T>)
    requires SourcesApart(steps) && i < |steps| && steps[i].from <= ns
    ensures Holder(steps, ns) == i
  {
    var h := Holder(steps, ns);
    if h < i {
      HeldByOneOnly(steps, i, h, ns);
    }
  }

  // ---- folding one more step into a pass ----

  /** Target `j`, if there is one, goes where the new step moves it; the step itself is
      appended if it is kept. */
  function Redirect<T(==)>(steps: seq<Step<T>>, s: Step<T>, j: nat, keep: bool): (next: seq<Step<T>>)
    requires j <= |steps|
    ensures |next| == |steps| + if keep then 1 else 0
    ensures forall i :: 0 <= i < |steps| ==>
      next[i] == if i == j then Step(steps[i].from, Move(s, steps[i].to)) else steps[i]
    ensures keep ==> next[|steps|] == s
  {
    (if j < |steps| then steps[j := Step(steps[j].from, Move(s, steps[j].to))] else steps) + if keep then [s] else []
  }

  /** The source lies inside this target, into which one pass does not look. */
  predicate Inside<T(==)>(t: seq<T>, s: Step<T>) {
    t < s.from
  }

  ghost predicate Foldable<T>(steps: seq<Step<T>>, s: Step<T>, j: nat) {
    forall k :: 0 <= k < |steps| ==> !Inside(steps[k].to, s) && (s.from <= steps[k].to ==> k == j)
  }

  lemma RedirectApart<T>(steps: seq<Step<T>>, s: Step<T>, j: nat, keep: bool)
    requires j <= |steps| && SourcesApart(steps + [s])
    ensures SourcesApart(Redirect(steps, s, j, keep))
    ensures SourcesApart(steps)
    ensures forall i :: 0 <= i < |steps| ==> !Comparable(steps[i].from, s.from)
  {
    var all, next := steps + [s], Redirect(steps, s, j, keep);
    assert forall i :: 0 <= i < |steps| ==> all[i] == steps[i];
    assert all[|steps|] == s;
    assert forall i :: 0 <= i < |next| ==> next[i].from == all[i].from;
  }

  /** Going below a target commutes with the step, unless the source is inside the target. */
  lemma MoveBelow<T>(s: Step<T>, t: seq<T>, x: seq<T>)
    requires s.from == s.to || !Inside(t, s)
    ensures Move(s, t + x) == Move(s, t) + x
  {
    if s.from <= t {
      assert (t + x)[..|s.from|] == s.from;
      assert (t + x)[|s.from|..] == t[|s.from|..] + x;
    } else if s.from <= t + x {
      assert t == (t + x)[..|t|];
      PrefixesNest(s.from, t, t + x);
      assert s.from + (t + x)[|s.from|..] == t + x;
    }
  }

  lemma IdleMove<T>(s: Step<T>, ns: seq<T>)
    requires s.from == s.to
    ensures Move(s, ns) == ns
  {
  }

  /** One more step folded in is one more move after the pass. */
  lemma RedirectMoves<T>(steps: seq<Step<T>>, s: Step<T>, j: nat, keep: bool, ns: seq<T>)
    requires j <= |steps| && SourcesApart(steps + [s])
    requires s.from == s.to || Foldable(steps, s, j)
    requires keep || !(s.from <= ns)
    ensures MoveOnce(Redirect(steps, s, j, keep), ns) == Move(s, MoveOnce(steps, ns))
  {
    var next := Redirect(steps, s, j, keep);
    RedirectApart(steps, s, j, keep);
    var i := Holder(steps, ns);
    if i < |steps| {
      HolderIs(next, i, ns);
      MoveBelow(s, steps[i].to, ns[|steps[i].from|..]);
      if s.from == s.to {
        IdleMove(s, steps[i].to);
      }
    } else if s.from <= ns {
      HolderIs(next, |steps|, ns);
    } else {
      assert Holder(next, ns) == |next|;
    }
  }

  lemma SameTail<T>(a: seq<T>, b: seq<T>, x: seq<T>)
    requires a != b
    ensures a + x != b + x
  {
    assert (a + x)[..|a|] == a && (b + x)[..|b|] == b;
  }

  /** Where a target that the step moves is not redirected, some path below that step's
      source ends elsewhere. */
  lemma RedirectDiffers<T>(steps: seq<Step<T>>, s: Step<T>, j: nat, keep: bool, k: nat) returns (rest: seq<T>)
    requires j <= |steps| && SourcesApart(steps + [s]) && s.from != s.to && k < |steps|
    requires Inside(steps[k].to, s) || (s.from <= steps[k].to && k != j)
    requires j < |steps| ==> s.from <= steps[j].to
    ensures rest == if Inside(steps[k].to, s) then s.from[|steps[k].to|..] else []
    ensures var ns := steps[k].from + rest;
      && steps[k].from <= ns
      && MoveOnce(Redirect(steps, s, j, keep), ns) == Move(steps[k], ns)
      && MoveOnce(Redirect(steps, s, j, keep), ns) != Move(s, MoveOnce(steps, ns))
  {
    var t := steps[k].to;
    rest := if Inside(t, s) then s.from[|t|..] else [];
    var ns := steps[k].from + rest;
    RedirectApart(steps, s, j, keep);
    HolderIs(steps, k, ns);
    HolderIs(Redirect(steps, s, j, keep), k, ns);
    assert ns[|steps[k].from|..] == rest;
    var moved := t + rest;
    assert s.from <= moved;
    assert s.from + moved[|s.from|..] == moved;
    SameTail(s.to, s.from, moved[|s.from|..]);
  }
}
