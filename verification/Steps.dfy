/** Taking steps along a sequence of arguments, each recording something, where an argument
    may stand for several. */
module Steps {
  /** The state after the first `k` steps. */
  function After<S, A>(step: (S, A) -> S, s: S, args: seq<A>, k: nat): S
    requires k <= |args|
  {
    if k == 0 then s else step(After(step, s, args, k - 1), args[k - 1])
  }

  lemma {:induction false} AfterPrefix<S, A>(step: (S, A) -> S, s: S, args: seq<A>, n: nat, k: nat)
    requires k <= n <= |args|
    ensures After(step, s, args[..n], k) == After(step, s, args, k)
  {
    if k > 0 {
      AfterPrefix(step, s, args, n, k - 1);
    }
  }

  /** What each step records of the state it starts from. */
  function Records<S, A, R>(step: (S, A) -> S, record: (S, A) -> R, s: S, args: seq<A>): (rs: seq<R>)
    ensures |rs| == |args|
    ensures forall k {:trigger rs[k]} :: 0 <= k < |args| ==> rs[k] == record(After(step, s, args, k), args[k])
  {
    seq(|args|, k requires 0 <= k < |args| => record(After(step, s, args, k), args[k]))
  }

  lemma RecordsPrefix<S, A, R>(step: (S, A) -> S, record: (S, A) -> R, s: S, args: seq<A>, n: nat)
    requires n <= |args|
    ensures Records(step, record, s, args[..n]) == Records(step, record, s, args)[..n]
  {
    forall k | 0 <= k < n ensures Records(step, record, s, args[..n])[k] == Records(step, record, s, args)[k] {
      AfterPrefix(step, s, args, n, k);
    }
  }

  lemma OneMore<S, A, R>(step: (S, A) -> S, record: (S, A) -> R, s: S, args: seq<A>, a: A)
    ensures var t := After(step, s, args, |args|);
      && After(step, s, args + [a], |args| + 1) == step(t, a)
      && Records(step, record, s, args + [a]) == Records(step, record, s, args) + [record(t, a)]
  {
    var more, n := args + [a], |args|;
    assert more[..n] == args && more[n] == a;
    AfterPrefix(step, s, more, n, n);
    RecordsPrefix(step, record, s, more, n);
    Rejoin(Records(step, record, s, more), Records(step, record, s, args) + [record(After(step, s, args, n), a)], n);
  }

  lemma Rejoin<T>(xs: seq<T>, ys: seq<T>, n: nat)
    requires |xs| == |ys| == n + 1 && xs[..n] == ys[..n] && xs[n] == ys[n]
    ensures xs == ys
  {
    assert xs == xs[..n] + [xs[n]] && ys == ys[..n] + [ys[n]];
  }

  /** What holds of no arguments and is kept by one more holds of every initial part. */
  lemma {:induction false} KeptAlong<A>(kept: seq<A> -> bool, args: seq<A>, k: nat)
    requires kept([])
    requires forall n {:trigger args[..n]} :: 0 <= n < |args| && kept(args[..n]) ==> kept(args[..n] + [args[n]])
    requires k <= |args|
    ensures kept(args[..k])
  {
    if k == 0 {
      assert args[..0] == [];
    } else {
      KeptAlong(kept, args, k - 1);
      assert args[..k] == args[..k - 1] + [args[k - 1]];
    }
  }

  // ---- arguments that stand for several ----

  /** Each of `ds` stands for some of `roots`, in order; what it stands for depends on the
      state when its turn comes. */
  ghost predicate Unfolds<S(!new),
    A(!new)>(step: (S, A) -> S, isPart: (S, A, seq<A>) -> bool, s: S, ds: seq<A>, roots: seq<A>) {
    if ds == [] then roots == []
    else
      var last := |ds| - 1;
      exists n :: 0 <= n <= |roots| && Unfolds(step, isPart, s, ds[..last], roots[..n])
        && isPart(After(step, s, roots, n), ds[last], roots[n..])
  }

  ghost predicate UnfoldsTo<S(!new),
    A(!new)>(step: (S, A) -> S, isPart: (S, A, seq<A>) -> bool, s: S, ds: seq<A>, roots: seq<A>,
                                              k: nat, n: nat, rest: seq<A>) {
    && k <= |ds| && n <= |roots| && Unfolds(step, isPart, s, ds[..k], roots[..n])
    && (n == |roots| || (k < |ds| && isPart(After(step, s, roots, n), ds[k], roots[n..] + rest)))
  }

  /** The first of `ds`, the last perhaps in part. */
  ghost predicate Partly<S(!new),
    A(!new)>(step: (S, A) -> S, isPart: (S, A, seq<A>) -> bool, s: S, ds: seq<A>, roots: seq<A>) {
    exists k, n, rest :: UnfoldsTo(step, isPart, s, ds, roots, k, n, rest)
  }

  lemma UnfoldsStep<S(!new),
    A(!new)>(step: (S, A) -> S, isPart: (S, A, seq<A>) -> bool, s: S, ds: seq<A>, roots: seq<A>, k: nat, part: seq<A>)
    requires k < |ds| && Unfolds(step, isPart, s, ds[..k], roots) && isPart(After(step, s, roots, |roots|), ds[k], part)
    ensures Unfolds(step, isPart, s, ds[..k + 1], roots + part)
  {
    var all, n := roots + part, |roots|;
    assert ds[..k + 1][..k] == ds[..k] && all[..n] == roots && all[n..] == part;
    AfterPrefix(step, s, all, n, n);
  }

  lemma UnfoldsPartly<S(!new),
    A(!new)>(step: (S, A) -> S, isPart: (S, A, seq<A>) -> bool, s: S, ds: seq<A>, roots: seq<A>, k: nat, part: seq<A>,
      m: nat)
    requires k < |ds| && Unfolds(step, isPart, s, ds[..k], roots) && m <= |part|
    requires m > 0 ==> isPart(After(step, s, roots, |roots|), ds[k], part)
    ensures Partly(step, isPart, s, ds, roots + part[..m])
  {
    var all, n := roots + part[..m], |roots|;
    assert all[..n] == roots && all[n..] == part[..m] && part[..m] + part[m..] == part;
    AfterPrefix(step, s, all, n, n);
    assert UnfoldsTo(step, isPart, s, ds, all, k, n, part[m..]);
  }

  /** Some arguments stand for themselves. */
  ghost predicate Single<S(!new), A(!new)>(isPart: (S, A, seq<A>) -> bool, ds: seq<A>) {
    forall t, d, part {:trigger isPart(t, d, part)} :: d in ds && isPart(t, d, part) ==> part == [d]
  }

  lemma {:induction false} StandForThemselves<S(!new),
    A(!new)>(step: (S, A) -> S, isPart: (S, A, seq<A>) -> bool, s: S, ds: seq<A>, roots: seq<A>)
    requires Single(isPart, ds) && Unfolds(step, isPart, s, ds, roots)
    ensures roots == ds
  {
    if ds != [] {
      var last := |ds| - 1;
      var n :| 0 <= n <= |roots| && Unfolds(step, isPart, s, ds[..last], roots[..n])
        && isPart(After(step, s, roots, n), ds[last], roots[n..]);
      SingleOfPrefix(isPart, ds, last);
      StandForThemselves(step, isPart, s, ds[..last], roots[..n]);
      assert n == last && ds[..last + 1] == ds;
      Extended(roots, ds, n);
    }
  }

  lemma SingleOfPrefix<S(!new), A(!new)>(isPart: (S, A, seq<A>) -> bool, ds: seq<A>, k: nat)
    requires k <= |ds| && Single(isPart, ds)
    ensures Single(isPart, ds[..k])
  {
  }

  lemma Extended<A>(roots: seq<A>, ds: seq<A>, n: nat)
    requires n < |ds| && n <= |roots| && roots[..n] == ds[..n] && roots[n..] == [ds[n]]
    ensures n + 1 == |roots| && roots == ds[..n + 1]
  {
    assert |roots[n..]| == 1 && roots[n] == roots[n..][0];
    Rejoin(roots, ds[..n + 1], n);
  }

  lemma PartlyThemselves<S(!new),
    A(!new)>(step: (S, A) -> S, isPart: (S, A, seq<A>) -> bool, s: S, ds: seq<A>, roots: seq<A>)
    requires Single(isPart, ds) && Partly(step, isPart, s, ds, roots)
    ensures |roots| <= |ds| && roots == ds[..|roots|]
  {
    var k: nat, n: nat, rest :| UnfoldsTo(step, isPart, s, ds, roots, k, n, rest);
    SingleOfPrefix(isPart, ds, k);
    StandForThemselves(step, isPart, s, ds[..k], roots[..n]);
    if n < |roots| {
      OneInAll(roots[n..], rest, ds[k]);
      Extended(roots, ds, n);
    } else {
      assert roots[..n] == roots;
    }
  }

  lemma OneInAll<A>(part: seq<A>, rest: seq<A>, d: A)
    requires part != [] && part + rest == [d]
    ensures part == [d]
  {
    assert part[0] == (part + rest)[0] && |part + rest| == 1;
  }

  /** What each argument stands for. */
  lemma {:induction false} PartOf<S(!new),
    A(!new)>(step: (S, A) -> S, isPart: (S, A, seq<A>) -> bool, s: S, ds: seq<A>, roots: seq<A>, i: nat)
    returns (a: nat, b: nat)
    requires Unfolds(step, isPart, s, ds, roots) && i < |ds|
    ensures a <= b <= |roots| && isPart(After(step, s, roots, a), ds[i], roots[a..b])
  {
    var last := |ds| - 1;
    var n :| 0 <= n <= |roots| && Unfolds(step, isPart, s, ds[..last], roots[..n])
      && isPart(After(step, s, roots, n), ds[last], roots[n..]);
    if i == last {
      a, b := n, |roots|;
      assert roots[a..b] == roots[n..];
    } else {
      a, b := PartOf(step, isPart, s, ds[..last], roots[..n], i);
      AfterPrefix(step, s, roots, n, a);
      assert roots[..n][a..b] == roots[a..b];
    }
  }
}
