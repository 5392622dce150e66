/** Path migrations between archive versions: choosing the versions that apply,
    flattening them into one rule list, and what that list means. */
module Migrations {
  import opened Paths
  import opened Components
  import opened Moves

  /** `migrate_paths` of one version; the enclosing list is sorted by version. */
  datatype Migration = Migration(version: nat, paths: seq<Rule>)

  // ---- version filter ----

  function SkipUpTo(ms: seq<Migration>, v: nat): seq<Migration> {
    if ms != [] && ms[0].version <= v then SkipUpTo(ms[1..], v) else ms
  }

  function TakeUpTo(ms: seq<Migration>, v: nat): seq<Migration> {
    if ms != [] && ms[0].version <= v then [ms[0]] + TakeUpTo(ms[1..], v) else []
  }

  function FilterMigrations(ms: seq<Migration>, from: nat, to: nat): seq<Migration> {
    TakeUpTo(SkipUpTo(ms, from), to)
  }

  ghost predicate SortedByVersion(ms: seq<Migration>) {
    forall i, j :: 0 <= i < j < |ms| ==> ms[i].version <= ms[j].version
  }

  /** The versions in the half-open interval (from, to], wherever they stand in the list. */
  ghost function Between(ms: seq<Migration>, from: nat, to: nat): seq<Migration> {
    if ms == [] then []
    else (if from < ms[0].version <= to then [ms[0]] else []) + Between(ms[1..], from, to)
  }

  /** On a sorted list, skipping then taking selects exactly the versions after the
      backup's and up to the blueprint's, in order. */
  lemma {:induction false} FilterSelectsBetween(ms: seq<Migration>, from: nat, to: nat)
    requires SortedByVersion(ms)
    ensures FilterMigrations(ms, from, to) == Between(ms, from, to)
  {
    if ms != [] {
      if ms[0].version <= from {
        FilterSelectsBetween(ms[1..], from, to);
      } else if ms[0].version <= to {
        FilterSelectsBetween(ms[1..], from, to);
        assert ms[1..] != [] ==> ms[1..][0] == ms[1];
      } else {
        NothingBetween(ms, from, to);
      }
    }
  }

  lemma {:induction false} NothingBetween(ms: seq<Migration>, from: nat, to: nat)
    requires forall i :: 0 <= i < |ms| ==> ms[i].version > to
    ensures Between(ms, from, to) == []
  {
    if ms != [] { NothingBetween(ms[1..], from, to); }
  }

  /** The rules of the selected versions, in order. */
  function RulesOf(ms: seq<Migration>): seq<Rule> {
    if ms == [] then [] else ms[0].paths + RulesOf(ms[1..])
  }

  // ---- the meaning of a migration list ----

  /** A rule as a step on names. */
  function ByName(r: Rule): Step<Name> {
    Step(Names(r.from), Names(r.to))
  }

  function AllByName(rules: seq<Rule>): (steps: seq<Step<Name>>)
    ensures |steps| == |rules| && forall i :: 0 <= i < |rules| ==> steps[i] == ByName(rules[i])
  {
    seq(|rules|, i requires 0 <= i < |rules| => ByName(rules[i]))
  }

  /** Moving by one rule after the other, as if the backup had been upgraded through
      every version. */
  function MoveAll(rules: seq<Rule>, ns: seq<Name>): seq<Name> {
    if rules == [] then ns
    else Move(ByName(rules[|rules| - 1]), MoveAll(rules[..|rules| - 1], ns))
  }

  // ---- flattening ----

  /** The first accumulated rule whose target is at or under `source`. */
  function FirstTarget(flat: seq<Rule>, source: Path): (j: nat)
    ensures j <= |flat|
    ensures forall k :: 0 <= k < j ==> !AtOrUnder(source, flat[k].to)
    ensures j < |flat| ==> AtOrUnder(source, flat[j].to)
  {
    if flat == [] then 0
    else if AtOrUnder(source, flat[0].to) then 0
    else 1 + FirstTarget(flat[1..], source)
  }

  /** One round of the outer loop: redirect the first target the new rule moves, and
      append the rule unless its source was that very target. */
  function Absorb(flat: seq<Rule>, r: Rule): (next: seq<Rule>)
    ensures |flat| <= |next| <= |flat| + 1
    ensures forall i :: 0 <= i < |flat| ==> next[i].from == flat[i].from
    ensures |next| == |flat| + 1 ==> next[|flat|] == r
  {
    var j := FirstTarget(flat, r.from);
    if j == |flat| then flat + [r]
    else
      var redirected := flat[j := Rule(flat[j].from, Rewrite(r, flat[j].to))];
      if Classify(r.from, flat[j].to).Exact? then redirected else redirected + [r]
  }

  function Accumulate(rules: seq<Rule>): seq<Rule> {
    if rules == [] then []
    else Absorb(Accumulate(rules[..|rules| - 1]), rules[|rules| - 1])
  }

  function Flatten(rules: seq<Rule>): seq<Rule> {
    LongestFirst(Accumulate(rules))
  }

  /** The inner loop, with its early exits. */
  method AbsorbRule(accumulated: seq<Rule>, r: Rule) returns (flat: seq<Rule>)
    ensures flat == Absorb(accumulated, r)
  {
    flat := accumulated;
    var needInsert := true;
    var j := 0;
    while j < |flat|
      invariant 0 <= j <= |flat|
      invariant flat == accumulated && needInsert
      invariant forall i :: 0 <= i < j ==> !AtOrUnder(r.from, flat[i].to)
    {
      match Classify(r.from, flat[j].to) {
        case Exact =>
          flat := flat[j := Rule(flat[j].from, r.to)];
          needInsert := false;
          break;
        case Below(suffix) =>
          flat := flat[j := Rule(flat[j].from, r.to + suffix)];
          break;
        case Apart =>
      }
      j := j + 1;
    }
    assert j == FirstTarget(accumulated, r.from);
    if needInsert {
      flat := flat + [r];
    }
  }

  method FlattenMigrations(migrations: seq<Rule>) returns (flat: seq<Rule>)
    ensures flat == Flatten(migrations)
  {
    flat := [];
    for k := 0 to |migrations|
      invariant flat == Accumulate(migrations[..k])
    {
      assert migrations[..k + 1][..k] == migrations[..k];
      flat := AbsorbRule(flat, migrations[k]);
    }
    assert migrations[..|migrations|] == migrations;
    flat := LongestFirst(flat);
  }

  /** `names[0] -> names[1]`, `names[1] -> names[2]`, and so on. */
  ghost function Chain(names: seq<Path>): seq<Rule>
    requires |names| >= 2
  {
    seq(|names| - 1, i requires 0 <= i < |names| - 1 => Rule(names[i], names[i + 1]))
  }

  /** Renaming one path version after version flattens to a single rule, from the first
      name to the last. */
  lemma {:induction false} ChainCollapses(names: seq<Path>)
    requires |names| >= 2
    ensures Accumulate(Chain(names)) == [Rule(names[0], names[|names| - 1])]
  {
    var n := |names|;
    if n == 2 {
      ChainOfTwo(names);
      AccumulateOne(Rule(names[0], names[1]));
    } else {
      ChainCollapses(names[..n - 1]);
      ChainGrows(names);
      CollapsesNext(Chain(names[..n - 1]), names[0], names[n - 2], names[n - 1]);
    }
  }

  lemma ChainOfTwo(names: seq<Path>)
    requires |names| == 2
    ensures Chain(names) == [] + [Rule(names[0], names[1])]
  {
  }

  lemma ChainGrows(names: seq<Path>)
    requires |names| > 2
    ensures Chain(names) == Chain(names[..|names| - 1]) + [Rule(names[|names| - 2], names[|names| - 1])]
  {
  }

  lemma AccumulateAppend(rules: seq<Rule>, r: Rule)
    ensures Accumulate(rules + [r]) == Absorb(Accumulate(rules), r)
  {
    assert (rules + [r])[..|rules|] == rules;
  }

  lemma CollapsesNext(rules: seq<Rule>, a: Path, b: Path, c: Path)
    requires Accumulate(rules) == [Rule(a, b)]
    ensures Accumulate(rules + [Rule(b, c)]) == [Rule(a, c)]
  {
    AccumulateAppend(rules, Rule(b, c));
    AbsorbsNext(a, b, c);
  }

  lemma AccumulateOne(r: Rule)
    ensures Accumulate([] + [r]) == [r]
  {
    AccumulateAppend([], r);
    assert Absorb([], r) == [] + [r];
  }

  lemma AbsorbsNext(a: Path, b: Path, c: Path)
    ensures Absorb([Rule(a, b)], Rule(b, c)) == [Rule(a, c)]
  {
    assert FirstTarget([Rule(a, b)], b) == 0;
  }

  // ---- when flattening preserves meaning ----

  ghost predicate NonNested(rules: seq<Rule>) {
    SourcesApart(AllByName(rules))
  }

  /** The new source is the target being redirected, so its own rule is not kept. */
  predicate Chained(flat: seq<Rule>, r: Rule) {
    var j := FirstTarget(flat, r.from);
    j < |flat| && Classify(r.from, flat[j].to).Exact?
  }

  predicate Idle(r: Rule) {
    ByName(r).from == ByName(r).to
  }

  /** The new rule can be folded into the accumulated ones: it moves nothing, or its source
      is not inside an accumulated target, the only target at or under it is the one that
      comparing bytes finds, and its own rule, if kept, is written so that comparing bytes
      finds what it holds. */
  ghost predicate Composes(flat: seq<Rule>, r: Rule) {
    Idle(r) || (Foldable(AllByName(flat), ByName(r), FirstTarget(flat, r.from))
      && (Chained(flat, r) || Written(r.from)))
  }

  ghost predicate Composable(rules: seq<Rule>) {
    rules == [] ||
    var init := rules[..|rules| - 1];
    Composable(init) && Composes(Accumulate(init), rules[|rules| - 1])
  }

  /** A name of the old layout: nothing in that layout lives where a chained source points. */
  predicate Live(rules: seq<Rule>, ns: seq<Name>) {
    rules == [] ||
    var init, last := rules[..|rules| - 1], rules[|rules| - 1];
    Live(init, ns) && !(Chained(Accumulate(init), last) && ByName(last).from <= ns)
  }

  /** One pass over the flattened list brings every path of the old layout to the place
      that the rules, applied one by one, move it to. */
  ghost predicate Agrees(rules: seq<Rule>) {
    forall p :: Written(p) && Live(rules, Names(p)) ==> Names(Pass(Flatten(rules), p)) == MoveAll(rules, Names(p))
  }

  /** ... for the list and for every initial part of it. */
  ghost predicate AgreesThroughout(rules: seq<Rule>) {
    Agrees(rules) && (rules == [] || AgreesThroughout(rules[..|rules| - 1]))
  }

  /** Comparing bytes finds what the rule holds, or the rule moves nothing. */
  ghost predicate Found(r: Rule) {
    Written(r.from) || Idle(r)
  }

  ghost predicate Sound(flat: seq<Rule>) {
    forall i :: 0 <= i < |flat| ==> Found(flat[i])
  }

  /** The byte-level pass at a path that one rule holds by name. */
  lemma PassAtHeld(list: seq<Rule>, flat: seq<Rule>, j: nat, p: Path)
    requires NonNested(flat) && j < |flat| && Found(flat[j])
    requires Written(p) && ByName(flat[j]).from <= Names(p)
    requires forall r :: r in list <==> r in flat
    ensures Names(Pass(list, p)) == Move(ByName(flat[j]), Names(p))
  {
    var h := FirstHit(list, p);
    if h < |list| {
      HeldByName(list[h], p);
      assert list[h] in flat;
      var k :| 0 <= k < |flat| && flat[k] == list[h];
      HolderIs(AllByName(flat), k, Names(p));
      HolderIs(AllByName(flat), j, Names(p));
    } else {
      assert flat[j] in list;
      if Written(flat[j].from) {
        HeldInBytes(flat[j].from, p);
      } else {
        IdleMove(ByName(flat[j]), Names(p));
      }
    }
  }

  /** On the paths of an archive, the byte-level pass is the pass by name, in whatever order
      the rules stand. */
  lemma PassIsMoveOnce(list: seq<Rule>, flat: seq<Rule>, p: Path)
    requires NonNested(flat) && Sound(flat) && Written(p)
    requires forall r :: r in list <==> r in flat
    ensures Names(Pass(list, p)) == MoveOnce(AllByName(flat), Names(p))
  {
    var i := Holder(AllByName(flat), Names(p));
    if i < |flat| {
      PassAtHeld(list, flat, i, p);
    } else {
      NothingFound(list, flat, p);
    }
  }

  lemma NothingFound(list: seq<Rule>, flat: seq<Rule>, p: Path)
    requires forall i :: 0 <= i < |flat| ==> !(ByName(flat[i]).from <= Names(p))
    requires forall r :: r in list ==> r in flat
    ensures Pass(list, p) == p
  {
    forall r | r in list ensures !AtOrUnder(r.from, p) {
      assert r in flat;
      if AtOrUnder(r.from, p) { HeldByName(r, p); }
    }
  }

  lemma RewriteByName(r: Rule, t: Path)
    requires AtOrUnder(r.from, t)
    ensures ByName(r).from <= Names(t) && Names(Rewrite(r, t)) == Move(ByName(r), Names(t))
  {
    HeldByName(r, t);
  }

  lemma AbsorbAt(flat: seq<Rule>, r: Rule, i: nat)
    requires i < |Absorb(flat, r)|
    ensures |Absorb(flat, r)| == |flat| + if Chained(flat, r) then 0 else 1
    ensures i < |flat| && i != FirstTarget(flat, r.from) ==> Absorb(flat, r)[i] == flat[i]
    ensures i < |flat| && i == FirstTarget(flat, r.from) ==>
      Absorb(flat, r)[i] == Rule(flat[i].from, Rewrite(r, flat[i].to))
    ensures i == |flat| ==> Absorb(flat, r)[i] == r
  {
  }

  lemma AbsorbByNameAt(flat: seq<Rule>, r: Rule, i: nat)
    requires i < |Absorb(flat, r)|
    ensures var j := FirstTarget(flat, r.from);
      ByName(Absorb(flat, r)[i]) ==
        if i == |flat| then ByName(r)
        else if i == j then Step(ByName(flat[i]).from, Move(ByName(r), ByName(flat[i]).to))
        else ByName(flat[i])
  {
    AbsorbAt(flat, r, i);
    if i < |flat| && i == FirstTarget(flat, r.from) {
      RewriteByName(r, flat[i].to);
    }
  }

  lemma SameSteps(a: seq<Step<Name>>, flat: seq<Rule>, s: Step<Name>, j: nat, keep: bool)
    requires j <= |flat| && |a| == |flat| + (if keep then 1 else 0)
    requires forall i :: 0 <= i < |flat| && i != j ==> a[i] == ByName(flat[i])
    requires j < |flat| ==> a[j] == Step(ByName(flat[j]).from, Move(s, ByName(flat[j]).to))
    requires keep ==> a[|flat|] == s
    ensures a == Redirect(AllByName(flat), s, j, keep)
  {
  }

  /** One round of the loop, by name. */
  lemma AbsorbIsRedirect(flat: seq<Rule>, r: Rule)
    ensures AllByName(Absorb(flat, r)) ==
      Redirect(AllByName(flat), ByName(r), FirstTarget(flat, r.from), !Chained(flat, r))
  {
    var next := Absorb(flat, r);
    forall i | 0 <= i < |next|
      ensures AllByName(next)[i] ==
        if i == |flat| then ByName(r)
        else if i == FirstTarget(flat, r.from) then Step(ByName(flat[i]).from, Move(ByName(r), ByName(flat[i]).to))
        else ByName(flat[i])
    {
      AbsorbByNameAt(flat, r, i);
    }
    SameSteps(AllByName(next), flat, ByName(r), FirstTarget(flat, r.from), !Chained(flat, r));
  }

  lemma TargetIsHeld(flat: seq<Rule>, r: Rule)
    ensures var j := FirstTarget(flat, r.from); j < |flat| ==> ByName(r).from <= ByName(flat[j]).to
  {
    var j := FirstTarget(flat, r.from);
    if j < |flat| {
      RewriteByName(r, flat[j].to);
    }
  }

  lemma AppendByName(flat: seq<Rule>, r: Rule)
    ensures AllByName(flat + [r]) == AllByName(flat) + [ByName(r)]
  {
  }

  lemma AbsorbApart(flat: seq<Rule>, r: Rule)
    requires NonNested(flat + [r])
    ensures NonNested(Absorb(flat, r)) && NonNested(flat)
    ensures forall i :: 0 <= i < |flat| ==> !Comparable(ByName(flat[i]).from, ByName(r).from)
  {
    AppendByName(flat, r);
    AbsorbIsRedirect(flat, r);
    RedirectApart(AllByName(flat), ByName(r), FirstTarget(flat, r.from), !Chained(flat, r));
    assert forall i :: 0 <= i < |flat| ==> AllByName(flat)[i] == ByName(flat[i]);
  }

  lemma AbsorbSound(flat: seq<Rule>, r: Rule)
    requires NonNested(flat + [r]) && Sound(flat) && Composes(flat, r)
    ensures Sound(Absorb(flat, r))
  {
    var next, j := Absorb(flat, r), FirstTarget(flat, r.from);
    AbsorbApart(flat, r);
    TargetIsHeld(flat, r);
    forall i | 0 <= i < |next| ensures Found(next[i]) {
      if i == |flat| {
        assert next[i] == r;
      } else if i != j {
        assert next[i] == flat[i];
      } else {
        assert next[i].from == flat[i].from;
        assert Found(flat[i]);
        assert !Comparable(ByName(flat[i]).from, ByName(r).from);
      }
    }
  }

  /** One round of flattening is one more move after the pass. */
  lemma AbsorbIsMove(flat: seq<Rule>, r: Rule, ns: seq<Name>)
    requires NonNested(flat + [r]) && Composes(flat, r)
    requires !(Chained(flat, r) && ByName(r).from <= ns)
    ensures MoveOnce(AllByName(Absorb(flat, r)), ns) == Move(ByName(r), MoveOnce(AllByName(flat), ns))
  {
    AppendByName(flat, r);
    AbsorbIsRedirect(flat, r);
    RedirectMoves(AllByName(flat), ByName(r), FirstTarget(flat, r.from), !Chained(flat, r), ns);
  }

  /** Where a rule does not fold in, some written path below an accumulated source ends
      elsewhere. */
  lemma AbsorbDiffers(flat: seq<Rule>, r: Rule) returns (p: Path, k: nat)
    requires NonNested(flat + [r]) && Sound(flat) && !Idle(r)
    requires !Foldable(AllByName(flat), ByName(r), FirstTarget(flat, r.from))
    ensures k < |flat| && ByName(flat[k]).from <= Names(p) && Written(p)
    ensures Names(Pass(LongestFirst(Absorb(flat, r)), p)) != Move(ByName(r), MoveOnce(AllByName(flat), Names(p)))
  {
    var rest;
    k, rest := StepDiffers(flat, r);
    p := BelowSource(flat, r, k, rest);
    PassAtKept(flat, r, k, p);
  }

  lemma StepDiffers(flat: seq<Rule>, r: Rule) returns (k: nat, rest: seq<Name>)
    requires NonNested(flat + [r]) && !Idle(r)
    requires !Foldable(AllByName(flat), ByName(r), FirstTarget(flat, r.from))
    ensures k < |flat| && k != FirstTarget(flat, r.from) && AreNames(rest)
    ensures var ns := ByName(flat[k]).from + rest;
      Move(ByName(flat[k]), ns) != Move(ByName(r), MoveOnce(AllByName(flat), ns))
  {
    var steps, s, j := AllByName(flat), ByName(r), FirstTarget(flat, r.from);
    AppendByName(flat, r);
    TargetIsHeld(flat, r);
    k :| 0 <= k < |steps| && (Inside(steps[k].to, s) || (s.from <= steps[k].to && k != j));
    rest := RedirectDiffers(steps, s, j, true, k);
  }

  lemma PassAtKept(flat: seq<Rule>, r: Rule, k: nat, p: Path)
    requires NonNested(flat + [r]) && Sound(flat)
    requires k < |flat| && k != FirstTarget(flat, r.from)
    requires Written(p) && ByName(flat[k]).from <= Names(p)
    ensures Names(Pass(LongestFirst(Absorb(flat, r)), p)) == Move(ByName(flat[k]), Names(p))
  {
    var next := Absorb(flat, r);
    AbsorbApart(flat, r);
    AbsorbAt(flat, r, k);
    LongestFirstKeepsRules(next);
    PassAtHeld(LongestFirst(next), next, k, p);
  }

  lemma BelowSource(flat: seq<Rule>, r: Rule, k: nat, rest: seq<Name>) returns (p: Path)
    requires NonNested(flat + [r]) && k < |flat| && AreNames(rest)
    ensures Written(p) && Names(p) == ByName(flat[k]).from + rest
  {
    AbsorbApart(flat, r);
    assert !Comparable(ByName(flat[k]).from, ByName(r).from);
    var ns := ByName(flat[k]).from + rest;
    NamesOfSpell(ns);
    p := Spell(ns);
  }

  /** A kept rule whose source is not written tidily holds no path of any archive. */
  lemma UntidySourceMisses(flat: seq<Rule>, r: Rule) returns (p: Path)
    requires NonNested(flat + [r]) && !Idle(r) && !Chained(flat, r) && !Written(r.from)
    ensures Written(p) && ByName(r).from <= Names(p)
    ensures Names(Pass(LongestFirst(Absorb(flat, r)), p)) != Move(ByName(r), MoveOnce(AllByName(flat), Names(p)))
  {
    var s := ByName(r);
    var ns := s.from + ["b"];
    NamesOfSpell(ns);
    p := Spell(ns);
    PassMisses(flat, r, p);
    HolderBeyond(flat, r, ns);
    assert ns[|s.from|..] == ["b"];
    SameTail(s.to, s.from, ["b"]);
  }

  lemma PassMisses(flat: seq<Rule>, r: Rule, p: Path)
    requires NonNested(flat + [r]) && !Chained(flat, r) && !Written(r.from)
    requires Tidy(p) && ByName(r).from <= Names(p)
    ensures Pass(LongestFirst(Absorb(flat, r)), p) == p
  {
    var next := Absorb(flat, r);
    LongestFirstKeepsRules(next);
    forall x | x in LongestFirst(next) ensures !AtOrUnder(x.from, p) {
      assert x in next;
      var i :| 0 <= i < |next| && next[i] == x;
      NotFoundBy(flat, r, i, p);
    }
  }

  lemma NotFoundBy(flat: seq<Rule>, r: Rule, i: nat, p: Path)
    requires NonNested(flat + [r]) && !Chained(flat, r) && !Written(r.from)
    requires Tidy(p) && ByName(r).from <= Names(p) && i < |Absorb(flat, r)|
    ensures !AtOrUnder(Absorb(flat, r)[i].from, p)
  {
    var x := Absorb(flat, r)[i];
    if AtOrUnder(x.from, p) {
      HeldByName(x, p);
      if i < |flat| {
        AbsorbApart(flat, r);
        assert !Comparable(ByName(flat[i]).from, ByName(r).from);
        PrefixesNest(ByName(flat[i]).from, ByName(r).from, Names(p));
      } else {
        TidyAbove(Trim(r.from), p);
      }
    }
  }

  lemma HolderBeyond(flat: seq<Rule>, r: Rule, ns: seq<Name>)
    requires NonNested(flat + [r]) && ByName(r).from <= ns
    ensures MoveOnce(AllByName(flat), ns) == ns
  {
    AbsorbApart(flat, r);
    var h := Holder(AllByName(flat), ns);
    if h < |flat| {
      assert !Comparable(ByName(flat[h]).from, ByName(r).from);
      PrefixesNest(ByName(flat[h]).from, ByName(r).from, ns);
    }
  }

  // ---- whole lists ----

  ghost predicate SourcesAmong(flat: seq<Rule>, rules: seq<Rule>) {
    forall i :: 0 <= i < |flat| ==> exists k :: 0 <= k < |rules| && rules[k].from == flat[i].from
  }

  lemma {:induction false} AccumulatedAmong(rules: seq<Rule>)
    ensures SourcesAmong(Accumulate(rules), rules)
  {
    if rules != [] {
      var init, last := rules[..|rules| - 1], rules[|rules| - 1];
      AccumulatedAmong(init);
      forall i | 0 <= i < |Accumulate(rules)|
        ensures exists k :: 0 <= k < |rules| && rules[k].from == Accumulate(rules)[i].from
      {
        if i < |Accumulate(init)| {
          var k :| 0 <= k < |init| && init[k].from == Accumulate(init)[i].from;
          assert rules[k].from == Accumulate(rules)[i].from;
        } else {
          assert rules[|rules| - 1].from == Accumulate(rules)[i].from;
        }
      }
    }
  }

  lemma InitNonNested(rules: seq<Rule>)
    requires rules != [] && NonNested(rules)
    ensures NonNested(rules[..|rules| - 1])
  {
    var init := rules[..|rules| - 1];
    AppendByName(init, rules[|rules| - 1]);
    assert init + [rules[|rules| - 1]] == rules;
    assert forall i :: 0 <= i < |init| ==> AllByName(rules)[i] == AllByName(init)[i];
  }

  /** Accumulated sources are sources of the list, so they are pairwise apart and apart
      from the next one. */
  lemma {:induction false} AccumulatedApart(rules: seq<Rule>)
    requires NonNested(rules)
    ensures NonNested(Accumulate(rules))
    ensures rules != [] ==> NonNested(Accumulate(rules[..|rules| - 1]) + [rules[|rules| - 1]])
  {
    if rules != [] {
      var init, last := rules[..|rules| - 1], rules[|rules| - 1];
      InitNonNested(rules);
      AccumulatedApart(init);
      ApartFromNext(rules);
      AbsorbApart(Accumulate(init), last);
    }
  }

  lemma ApartFromNext(rules: seq<Rule>)
    requires rules != [] && NonNested(rules) && NonNested(Accumulate(rules[..|rules| - 1]))
    ensures NonNested(Accumulate(rules[..|rules| - 1]) + [rules[|rules| - 1]])
  {
    var init, last := rules[..|rules| - 1], rules[|rules| - 1];
    var flat := Accumulate(init);
    AccumulatedAmong(init);
    AppendByName(flat, last);
    var steps := AllByName(flat + [last]);
    forall i, j | 0 <= i < j < |steps| ensures !Comparable(steps[i].from, steps[j].from) {
      assert steps[i] == AllByName(flat)[i];
      if j == |flat| {
        var k :| 0 <= k < |init| && init[k].from == flat[i].from;
        assert !Comparable(AllByName(rules)[k].from, AllByName(rules)[|init|].from);
      } else {
        assert steps[j] == AllByName(flat)[j];
      }
    }
  }

  lemma {:induction false} OutsideAllSourcesIsLive(rules: seq<Rule>, ns: seq<Name>)
    requires forall k :: 0 <= k < |rules| ==> !(ByName(rules[k]).from <= ns)
    ensures Live(rules, ns)
  {
    if rules != [] {
      OutsideAllSourcesIsLive(rules[..|rules| - 1], ns);
    }
  }

  lemma NewestSourceIsLive(rules: seq<Rule>, ns: seq<Name>)
    requires NonNested(rules) && rules != [] && ByName(rules[|rules| - 1]).from <= ns
    ensures Live(rules[..|rules| - 1], ns)
  {
    var init := rules[..|rules| - 1];
    forall k | 0 <= k < |init| ensures !(ByName(init[k]).from <= ns) {
      HeldByOneOnly(AllByName(rules), |init|, k, ns);
    }
    OutsideAllSourcesIsLive(init, ns);
  }

  lemma NotHeldByNext(flat: seq<Rule>, last: Rule, i: nat, ns: seq<Name>)
    requires NonNested(flat + [last]) && i < |flat| && ByName(flat[i]).from <= ns
    ensures !(ByName(last).from <= ns)
  {
    AppendByName(flat, last);
    HeldByOneOnly(AllByName(flat + [last]), i, |flat|, ns);
  }

  /** A path below an accumulated source is live. */
  lemma {:induction false} AccumulatedPathsAreLive(rules: seq<Rule>, i: nat, ns: seq<Name>)
    requires NonNested(rules)
    requires i < |Accumulate(rules)| && ByName(Accumulate(rules)[i]).from <= ns
    ensures Live(rules, ns)
  {
    if rules != [] {
      var init, last := rules[..|rules| - 1], rules[|rules| - 1];
      var flat := Accumulate(init);
      InitNonNested(rules);
      AccumulatedApart(rules);
      if i < |flat| {
        assert Accumulate(rules)[i].from == flat[i].from;
        AccumulatedPathsAreLive(init, i, ns);
        NotHeldByNext(flat, last, i, ns);
      } else {
        NewestSourceIsLive(rules, ns);
      }
    }
  }

  lemma {:induction false} ComposableIsSound(rules: seq<Rule>)
    requires NonNested(rules) && Composable(rules)
    ensures Sound(Accumulate(rules))
  {
    if rules != [] {
      InitNonNested(rules);
      ComposableIsSound(rules[..|rules| - 1]);
      AccumulatedApart(rules);
      AbsorbSound(Accumulate(rules[..|rules| - 1]), rules[|rules| - 1]);
    }
  }

  lemma {:induction false} AccumulateMoves(rules: seq<Rule>, ns: seq<Name>)
    requires NonNested(rules) && Composable(rules) && Live(rules, ns)
    ensures MoveOnce(AllByName(Accumulate(rules)), ns) == MoveAll(rules, ns)
  {
    if rules != [] {
      InitNonNested(rules);
      AccumulateMoves(rules[..|rules| - 1], ns);
      AccumulatedApart(rules);
      AbsorbIsMove(Accumulate(rules[..|rules| - 1]), rules[|rules| - 1], ns);
    }
  }

  /** One longest-first pass over the flattened list brings every old path where the rules
      applied one by one move it. */
  lemma FlattenPreservesMeaning(rules: seq<Rule>, p: Path)
    requires NonNested(rules) && Composable(rules)
    requires Written(p) && Live(rules, Names(p))
    ensures Names(Pass(Flatten(rules), p)) == MoveAll(rules, Names(p))
  {
    AccumulatedApart(rules);
    ComposableIsSound(rules);
    LongestFirstKeepsRules(Accumulate(rules));
    PassIsMoveOnce(Flatten(rules), Accumulate(rules), p);
    AccumulateMoves(rules, Names(p));
  }

  /** Exactly when flattening is right: for sources that are pairwise apart, the flattened
      list agrees with the rules applied one by one, throughout, if and only if each rule
      composes with the ones before it. */
  lemma {:induction false} FlattenExact(rules: seq<Rule>)
    requires NonNested(rules)
    ensures AgreesThroughout(rules) <==> Composable(rules)
  {
    if rules == [] {
      assert Agrees(rules);
    } else {
      var init := rules[..|rules| - 1];
      InitNonNested(rules);
      FlattenExact(init);
      if Composable(rules) {
        ComposableAgrees(rules);
      } else if Composable(init) {
        NextRuleDiffers(rules);
      }
    }
  }

  lemma ComposableAgrees(rules: seq<Rule>)
    requires NonNested(rules) && Composable(rules)
    ensures Agrees(rules)
  {
    forall p | Written(p) && Live(rules, Names(p))
      ensures Names(Pass(Flatten(rules), p)) == MoveAll(rules, Names(p))
    {
      FlattenPreservesMeaning(rules, p);
    }
  }

  lemma NextRuleDiffers(rules: seq<Rule>)
    requires rules != [] && NonNested(rules)
    requires Composable(rules[..|rules| - 1]) && !Composable(rules)
    ensures !Agrees(rules)
  {
    var p := DifferingPath(rules);
    assert Flatten(rules) == LongestFirst(Absorb(Accumulate(rules[..|rules| - 1]), rules[|rules| - 1]));
    AccumulateMoves(rules[..|rules| - 1], Names(p));
  }

  /** A path of the old layout that the last rule should have moved elsewhere. */
  lemma DifferingPath(rules: seq<Rule>) returns (p: Path)
    requires rules != [] && NonNested(rules)
    requires Composable(rules[..|rules| - 1]) && !Composes(Accumulate(rules[..|rules| - 1]), rules[|rules| - 1])
    ensures NonNested(rules[..|rules| - 1])
    ensures Written(p) && Live(rules[..|rules| - 1], Names(p)) && Live(rules, Names(p))
    ensures var flat, last := Accumulate(rules[..|rules| - 1]), rules[|rules| - 1];
      Names(Pass(LongestFirst(Absorb(flat, last)), p)) != Move(ByName(last), MoveOnce(AllByName(flat), Names(p)))
  {
    var init, last := rules[..|rules| - 1], rules[|rules| - 1];
    var flat := Accumulate(init);
    InitNonNested(rules);
    AccumulatedApart(rules);
    ComposableIsSound(init);
    if !Foldable(AllByName(flat), ByName(last), FirstTarget(flat, last.from)) {
      var k;
      p, k := AbsorbDiffers(flat, last);
      AccumulatedPathsAreLive(init, k, Names(p));
      NotHeldByNext(flat, last, k, Names(p));
    } else {
      p := UntidySourceMisses(flat, last);
      NewestSourceIsLive(rules, Names(p));
    }
  }

  // ---- tidy targets ----

  ghost predicate TidyTargets(rules: seq<Rule>) {
    forall i :: 0 <= i < |rules| ==> Tidy(rules[i].to)
  }

  lemma TidyRewrite(r: Rule, p: Path)
    requires Tidy(r.to) && Tidy(p)
    ensures Tidy(Rewrite(r, p))
  {
    var q := Trim(r.from);
    if Classify(r.from, p).Below? {
      assert p == q + p[|q|..];
      TidyTail(p, |q|);
      TidyJoin(r.to, p[|q| + 1..]);
      assert p[|q|..] == "/" + p[|q| + 1..];
      assert r.to + ("/" + p[|q| + 1..]) == r.to + "/" + p[|q| + 1..];
    }
  }

  lemma {:induction false} AccumulatedTargetsAreTidy(rules: seq<Rule>)
    requires TidyTargets(rules)
    ensures TidyTargets(Accumulate(rules))
  {
    if rules != [] {
      var init, last := rules[..|rules| - 1], rules[|rules| - 1];
      AccumulatedTargetsAreTidy(init);
      var j := FirstTarget(Accumulate(init), last.from);
      if j < |Accumulate(init)| {
        TidyRewrite(last, Accumulate(init)[j].to);
      }
    }
  }

  /** When no target has a needless slash, not even at its end, the result is byte for byte
      the tidy spelling of where the rules move the path. */
  lemma FlattenByteForByte(rules: seq<Rule>, p: Path)
    requires NonNested(rules) && Composable(rules) && TidyTargets(rules)
    requires Tidy(p) && Live(rules, Names(p))
    ensures Pass(Flatten(rules), p) == Spell(MoveAll(rules, Names(p)))
  {
    FlattenPreservesMeaning(rules, p);
    AccumulatedTargetsAreTidy(rules);
    LongestFirstKeepsRules(Accumulate(rules));
    var h := FirstHit(Flatten(rules), p);
    if h < |Flatten(rules)| {
      assert Flatten(rules)[h] in Accumulate(rules);
      TidyRewrite(Flatten(rules)[h], p);
    }
    SpellOfNames(Pass(Flatten(rules), p));
  }

  // ---- the playground's migrations ----

  /** One rule with a written source always flattens well. */
  lemma OneRuleComposes(r: Rule)
    requires Written(r.from)
    ensures NonNested([r]) && Composable([r]) && Agrees([r])
  {
    assert [r][..0] == [];
    assert Composes([], r);
    ComposableAgrees([r]);
  }

  lemma TwoRules(r0: Rule, r1: Rule)
    requires !Comparable(ByName(r0).from, ByName(r1).from) && Inside(ByName(r0).to, ByName(r1))
    ensures NonNested([r0, r1]) && NonNested([r0] + [r1]) && Accumulate([r0]) == [r0]
    ensures Accumulate([r0, r1]) == [r0, r1]
    ensures [r0, r1][..1] == [r0]
    ensures !Foldable(AllByName([r0]), ByName(r1), FirstTarget([r0], r1.from))
  {
    AccumulateOne(r0);
    assert [] + [r0] == [r0];
    AccumulateAppend([r0], r1);
    assert [r0] + [r1] == [r0, r1];
    TargetIsHeld([r0], r1);
    assert FirstTarget([r0], r1.from) == 1;
    assert Inside(AllByName([r0])[0].to, ByName(r1));
  }

  /** Two upgrades of which the second picks something out of what the first moved: the
      first alone flattens well, and with both every path of the first source stays where
      the first upgrade puts it. */
  lemma PickedOutIsLost(r0: Rule, r1: Rule, p: Path)
    requires !Comparable(ByName(r0).from, ByName(r1).from) && Inside(ByName(r0).to, ByName(r1)) && !Idle(r1)
    requires Written(r0.from) && Written(p) && ByName(r0).from <= Names(p)
    ensures NonNested([r0, r1]) && Agrees([r0]) && !Agrees([r0, r1])
    ensures Names(Pass(Flatten([r0, r1]), p)) == Move(ByName(r0), Names(p))
  {
    var rules := [r0, r1];
    TwoRules(r0, r1);
    OneRuleComposes(r0);
    NextRuleDiffers(rules);
    LongestFirstKeepsRules(rules);
    PassAtHeld(Flatten(rules), rules, 0, p);
  }

  lemma NamesOfMore(a: Path, b: Name)
    requires IsName(b)
    ensures Names(a + "/" + b) == Names(a) + [b]
    ensures Names(a + "/") == Names(a)
  {
    NamesOfName(b);
    NamesConcat(a, b);
    NamesConcat(a, "");
    assert a + "/" + "" == a + "/";
  }

  /** The first version's `d` moves to `e/f`, then `e/f/b` to `e/c`: a backup of the first
      version restores `d/b` in `e/f`, and not as `e/c`. */
  lemma PickedFileStays(d: Name, e: Name, f: Name, b: Name, c: Name, r0: Rule, r1: Rule, p: Path)
    requires IsName(d) && IsName(e) && IsName(f) && IsName(b) && IsName(c) && d != e
    requires r0 == Rule(d + "/", e + "/" + f + "/") && r1 == Rule(e + "/" + f + "/" + b, e + "/" + c)
    requires p == d + "/" + b
    ensures NonNested([r0, r1]) && Agrees([r0]) && !Agrees([r0, r1])
    ensures Names(Pass(Flatten([r0, r1]), p)) == [e, f, b] && MoveAll([r0, r1], Names(p)) == [e, c]
  {
    PickFirst(d, e, f);
    PickSecond(e, f, b, c);
    PickIsWritten(d, b);
    UpgradeDiffers(r0, r1, p, d, e, f, b, c);
  }

  lemma PickFirst(d: Name, e: Name, f: Name)
    requires IsName(d) && IsName(e) && IsName(f)
    ensures ByName(Rule(d + "/", e + "/" + f + "/")) == Step([d], [e, f])
  {
    NamesOfName(d);
    NamesOfMore(d, f);
    NamesOfName(e);
    NamesOfMore(e, f);
    NamesOfMore(e + "/" + f, f);
  }

  lemma PickSecond(e: Name, f: Name, b: Name, c: Name)
    requires IsName(e) && IsName(f) && IsName(b) && IsName(c)
    ensures ByName(Rule(e + "/" + f + "/" + b, e + "/" + c)) == Step([e, f, b], [e, c])
  {
    NamesOfName(e);
    NamesOfMore(e, f);
    NamesOfMore(e + "/" + f, b);
    NamesOfMore(e, c);
  }

  lemma PickIsWritten(d: Name, b: Name)
    requires IsName(d) && IsName(b)
    ensures Written(d + "/") && Written(d + "/" + b) && Names(d + "/" + b) == [d, b]
  {
    NamesOfName(d);
    NamesOfMore(d, b);
    assert Trim(d + "/") == d;
    assert Tidy(d) && Tidy(b);
    TidyJoin(d, b);
    assert (d + "/" + b)[|d| + |b|] == b[|b| - 1];
  }

  lemma UpgradeDiffers(r0: Rule, r1: Rule, p: Path, d: Name, e: Name, f: Name, b: Name, c: Name)
    requires d != e && Written(r0.from) && Written(p) && Names(p) == [d, b]
    requires ByName(r0) == Step([d], [e, f]) && ByName(r1) == Step([e, f, b], [e, c])
    ensures NonNested([r0, r1]) && Agrees([r0]) && !Agrees([r0, r1])
    ensures Names(Pass(Flatten([r0, r1]), p)) == [e, f, b] && MoveAll([r0, r1], Names(p)) == [e, c]
  {
    PickApart(d, e, f, b);
    PickedOutIsLost(r0, r1, p);
    PickMoves(r0, r1, d, e, f, b, c);
  }

  lemma PickApart(d: Name, e: Name, f: Name, b: Name)
    requires d != e
    ensures !Comparable([d], [e, f, b]) && [e, f] < [e, f, b]
  {
    assert [e, f] == [e, f, b][..2];
    assert [d][0] != [e, f, b][0];
  }

  lemma PickMoves(r0: Rule, r1: Rule, d: Name, e: Name, f: Name, b: Name, c: Name)
    requires ByName(r0) == Step([d], [e, f]) && ByName(r1) == Step([e, f, b], [e, c])
    ensures MoveAll([r0, r1], [d, b]) == [e, c]
    ensures Move(ByName(r0), [d, b]) == [e, f, b]
  {
    assert [d, b][1..] == [b];
    assert [e, f] + [b] == [e, f, b] && [e, f, b][3..] == [];
    assert [r0, r1][..1] == [r0] && [r0][..0] == [];
    assert MoveAll([r0], [d, b]) == Move(ByName(r0), MoveAll([], [d, b]));
    assert MoveAll([r0, r1], [d, b]) == Move(ByName(r1), MoveAll([r0], [d, b]));
  }

  /** In particular the playground's own two upgrades, as written there. */
  lemma PlaygroundUpgrade(r0: Rule, r1: Rule, p: Path)
    requires r0 == Rule("bar-data/", "foo-data/bar/") && r1 == Rule("foo-data/bar/b", "foo-data/c")
    requires p == "bar-data/b"
    ensures NonNested([r0, r1]) && Agrees([r0]) && !Agrees([r0, r1])
    ensures MoveAll([r0, r1], Names(p)) == ["foo-data", "c"]
    ensures Names(Pass(Flatten([r0, r1]), p)) == ["foo-data", "bar", "b"]
  {
    var d, e, f, b, c := "bar-data", "foo-data", "bar", "b", "c";
    assert d[0] != e[0];
    assert d + "/" == "bar-data/" && e + "/" + f + "/" == "foo-data/bar/";
    assert e + "/" + f + "/" + b == "foo-data/bar/b" && e + "/" + c == "foo-data/c";
    assert d + "/" + b == "bar-data/b";
    PickedFileStays(d, e, f, b, c, r0, r1, p);
  }
}
