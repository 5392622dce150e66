/** Archive names and file-system paths, and the one relation that extraction,
    path migration, destination lookup and configuration validation all share:
    "this path is at or under that one, on a `/` boundary".

    A path is a byte string.  Only the byte `/` is ever looked at, so one `char`
    stands for one byte. */
module Paths {

  type Path = string

  /** A rewriting rule or a blueprint line: everything at or under `from` moves to `to`. */
  datatype Rule = Rule(from: Path, to: Path)

  /** The outcome of matching a path against a prefix. */
  datatype Match = Exact | Below(suffix: Path) | Apart

  /** A single trailing slash of a prefix is ignored. */
  function Trim(p: Path): (q: Path)
    ensures q <= p && |p| - 1 <= |q|
  {
    if |p| > 0 && p[|p| - 1] == '/' then p[..|p| - 1] else p
  }

  /** `p` is `root` itself or lies in the tree below it. */
  predicate Under(root: Path, p: Path) {
    root <= p && (|p| == |root| || p[|root|] == '/')
  }

  predicate AtOrUnder(prefix: Path, p: Path) {
    Under(Trim(prefix), p)
  }

  /** The three-way test of the source: exact (a lone trailing slash counts as
      exact), properly below, or merely sharing leading bytes (`abc` and `abcd/ef`). */
  function Classify(prefix: Path, p: Path): (m: Match)
    ensures m.Apart? <==> !AtOrUnder(prefix, p)
    ensures m.Below? ==> p == Trim(prefix) + m.suffix && |m.suffix| >= 2 && m.suffix[0] == '/'
    ensures m.Exact? <==> (p == Trim(prefix) || p == Trim(prefix) + "/")
  {
    var q := Trim(prefix);
    if q <= p then
      var suffix := p[|q|..];
      assert p == q + suffix;
      if suffix == "" || suffix == "/" then Exact
      else if suffix[0] == '/' then Below(suffix)
      else Apart
    else Apart
  }

  /** One rule applied to one path. */
  function Rewrite(r: Rule, p: Path): (q: Path)
  {
    match Classify(r.from, p)
    case Exact => r.to
    case Below(suffix) => r.to + suffix
    case Apart => p
  }

  /** Two prefixes of one path, both on a boundary, are nested. */
  lemma CommonPathNests(a: Path, b: Path, p: Path)
    requires Under(a, p) && Under(b, p)
    ensures Under(a, b) || Under(b, a)
  {
    if |a| <= |b| {
      assert a == p[..|a|] && b == p[..|b|];
      assert a <= b;
    } else {
      assert a == p[..|a|] && b == p[..|b|];
      assert b <= a;
    }
  }

  lemma UnderTransitive(a: Path, b: Path, c: Path)
    requires Under(a, b) && Under(b, c)
    ensures Under(a, c)
  {
  }

  // ---- longest-first order ----

  /** Stable sort by decreasing length of the source path. */
  function LongestFirst(rules: seq<Rule>): (sorted: seq<Rule>)
    ensures DescendingLength(sorted)
  {
    if rules == [] then [] else InsertByLength(rules[0], LongestFirst(rules[1..]))
  }

  ghost predicate DescendingLength(rules: seq<Rule>) {
    forall i, j :: 0 <= i < j < |rules| ==> |rules[i].from| >= |rules[j].from|
  }

  /** Puts `r` before the first rule that is not longer, so that ties keep their order. */
  function InsertByLength(r: Rule, rules: seq<Rule>): (sorted: seq<Rule>)
    requires DescendingLength(rules)
    ensures DescendingLength(sorted)
    ensures |sorted| == |rules| + 1
    ensures |sorted[0].from| == if rules == [] || |r.from| >= |rules[0].from| then |r.from| else |rules[0].from|
  {
    if rules == [] || |r.from| >= |rules[0].from| then [r] + rules
    else [rules[0]] + InsertByLength(r, rules[1..])
  }

  lemma {:induction false} InsertKeepsRules(r: Rule, rules: seq<Rule>)
    requires DescendingLength(rules)
    ensures multiset(InsertByLength(r, rules)) == multiset{r} + multiset(rules)
  {
    if rules != [] && |r.from| < |rules[0].from| {
      InsertKeepsRules(r, rules[1..]);
      assert rules == [rules[0]] + rules[1..];
    }
  }

  /** Sorting neither drops, adds nor duplicates a rule. */
  lemma {:induction false} LongestFirstKeepsRules(rules: seq<Rule>)
    ensures multiset(LongestFirst(rules)) == multiset(rules)
    ensures forall r :: r in LongestFirst(rules) <==> r in rules
  {
    if rules != [] {
      LongestFirstKeepsRules(rules[1..]);
      InsertKeepsRules(rules[0], LongestFirst(rules[1..]));
      assert rules == [rules[0]] + rules[1..];
    }
    assert forall r :: r in LongestFirst(rules) <==> r in multiset(LongestFirst(rules));
  }

  /** The first rule whose source holds `p`, or the length of the list. */
  function FirstHit(rules: seq<Rule>, p: Path): (i: nat)
    ensures i <= |rules|
    ensures forall k :: 0 <= k < i ==> !AtOrUnder(rules[k].from, p)
    ensures i < |rules| ==> AtOrUnder(rules[i].from, p)
  {
    if rules == [] then 0
    else if AtOrUnder(rules[0].from, p) then 0
    else 1 + FirstHit(rules[1..], p)
  }

  /** Lengths are compared with the trailing slash and matching ignores it; even so
      the first hit of a longest-first list is the longest boundary match. */
  lemma FirstHitIsLongest(rules: seq<Rule>, p: Path, k: nat)
    requires DescendingLength(rules)
    requires k < |rules| && AtOrUnder(rules[k].from, p)
    ensures FirstHit(rules, p) < |rules|
    ensures |Trim(rules[k].from)| <= |Trim(rules[FirstHit(rules, p)].from)|
    ensures Under(Trim(rules[k].from), Trim(rules[FirstHit(rules, p)].from))
  {
    var i := FirstHit(rules, p);
    var a, b := rules[i].from, rules[k].from;
    assert i <= k;
    assert |a| >= |b|;
    CommonPathNests(Trim(a), Trim(b), p);
    if |Trim(a)| < |Trim(b)| {
      // `b` sorts no earlier than `a`, so it would be untrimmed and yet end in a slash
      assert false;
    }
  }

  /** One pass: the first rule that holds the path rewrites it. */
  function Pass(rules: seq<Rule>, p: Path): (q: Path)
  {
    var i := FirstHit(rules, p);
    if i < |rules| then Rewrite(rules[i], p) else p
  }
}
