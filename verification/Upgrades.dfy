/** Where an entry of an older backup lands: its path is migrated, then the longest mapping
    that holds it is looked up.  Both compare bytes; what is meant are names. */
module Upgrades {
  import opened Wrappers
  import opened Paths
  import opened Components
  import opened Moves
  import opened Migrations
  import opened Archiving
  import opened FileTrees
  import opened Restoration

  /** The line that holds these names most closely. */
  ghost predicate Holds(paths: seq<Rule>, ns: seq<Name>, i: nat) {
    && i < |paths| && Names(paths[i].from) <= ns
    && forall j :: 0 <= j < |paths| && Names(paths[j].from) <= ns ==> |Names(paths[j].from)| <= |Names(paths[i].from)|
  }

  /** No two lines have the same archive name. */
  ghost predicate DistinctNames(paths: seq<Rule>) {
    forall i, j :: 0 <= i < |paths| && 0 <= j < |paths| && Names(paths[i].from) == Names(paths[j].from) ==> i == j
  }

  /** The lookup finds the line that is meant if and only if comparing bytes shows that the
      line holds the path at all. */
  lemma FoundByName(paths: seq<Rule>, q: Path, i: nat)
    requires DistinctNames(paths) && Holds(paths, Names(q), i)
    ensures var sorted := LongestFirst(paths);
      (FirstHit(sorted, q) < |sorted| && sorted[FirstHit(sorted, q)] == paths[i]) <==> AtOrUnder(paths[i].from, q)
  {
    if AtOrUnder(paths[i].from, q) {
      var j := LineFound(paths, q, i);
      SameLine(paths, q, i, j);
    }
  }

  /** The lookup finds a line at least as long. */
  lemma LineFound(paths: seq<Rule>, q: Path, i: nat) returns (j: nat)
    requires i < |paths| && AtOrUnder(paths[i].from, q)
    ensures var sorted := LongestFirst(paths);
      j < |paths| && FirstHit(sorted, q) < |sorted| && sorted[FirstHit(sorted, q)] == paths[j]
    ensures AtOrUnder(paths[j].from, q) && |Trim(paths[i].from)| <= |Trim(paths[j].from)|
    ensures Under(Trim(paths[i].from), Trim(paths[j].from))
  {
    var sorted := LongestFirst(paths);
    LongestFirstKeepsRules(paths);
    assert paths[i] in sorted;
    var k :| 0 <= k < |sorted| && sorted[k] == paths[i];
    FirstHitIsLongest(sorted, q, k);
    var h := FirstHit(sorted, q);
    assert sorted[h] in paths;
    j :| 0 <= j < |paths| && paths[j] == sorted[h];
  }

  lemma SameLine(paths: seq<Rule>, q: Path, i: nat, j: nat)
    requires DistinctNames(paths) && Holds(paths, Names(q), i) && j < |paths|
    requires AtOrUnder(paths[i].from, q) && AtOrUnder(paths[j].from, q)
    requires |Trim(paths[i].from)| <= |Trim(paths[j].from)| && Under(Trim(paths[i].from), Trim(paths[j].from))
    ensures i == j
  {
    SameNames(paths[i], paths[j], q);
  }

  /** A line whose archive name is below another one's, and not longer, has the same names. */
  lemma SameNames(a: Rule, b: Rule, q: Path)
    requires AtOrUnder(a.from, q) && AtOrUnder(b.from, q)
    requires |Trim(a.from)| <= |Trim(b.from)| && Under(Trim(a.from), Trim(b.from))
    ensures Names(a.from) <= Names(b.from) && Names(b.from) <= Names(q)
  {
    HeldByName(b, q);
    assert AtOrUnder(a.from, Trim(b.from));
    HeldByName(a, Trim(b.from));
    NamesOfTrim(b.from);
  }

  /** Then the entry lands below that line's local path, by name. */
  lemma LandsByName(paths: seq<Rule>, tmp: Path, q: Path, i: nat)
    requires ValidBlueprint(paths) && DistinctNames(paths) && Holds(paths, Names(q), i) && AtOrUnder(paths[i].from, q)
    ensures Names(Location(LongestFirst(paths), tmp, q)) == Names(paths[i].to) + Names(q)[|Names(paths[i].from)|..]
  {
    var sorted := LongestFirst(paths);
    LongestFirstKeepsRules(paths);
    FoundByName(paths, q, i);
    LocationReplacesName(sorted, tmp, q);
    var r := Rule(paths[i].from, Trim(paths[i].to));
    HeldByName(r, q);
    NamesOfTrim(paths[i].to);
  }

  lemma WrittenRewrite(r: Rule, p: Path)
    requires Tidy(r.to) && Written(p)
    ensures Written(Rewrite(r, p))
  {
    var t := Trim(p);
    TidyRewrite(r, t);
    if p != t {
      assert p == t + "/";
      if Classify(r.from, p).Below? {
        var q := Trim(r.from);
        assert t == q + t[|q|..] && p[|q|..] == t[|q|..] + "/";
        assert Rewrite(r, p) == r.to + t[|q|..] + "/";
        assert Rewrite(r, t) == r.to + t[|q|..];
      }
    }
  }

  lemma MigratedIsWritten(rules: seq<Rule>, p: Path)
    requires TidyTargets(rules) && Written(p)
    ensures Written(Pass(Flatten(rules), p))
  {
    var flat := Flatten(rules);
    AccumulatedTargetsAreTidy(rules);
    LongestFirstKeepsRules(Accumulate(rules));
    var h := FirstHit(flat, p);
    if h < |flat| {
      assert flat[h] in Accumulate(rules);
      WrittenRewrite(flat[h], p);
    }
  }

  /** An entry of an older backup is restored, by name, below the local path of the line that
      holds where the migrations move it, if no target has a needless slash. */
  lemma UpgradedEntryLands(rules: seq<Rule>, paths: seq<Rule>, tmp: Path, p: Path, i: nat)
    requires NonNested(rules) && Composable(rules) && TidyTargets(rules) && Written(p) && Live(rules, Names(p))
    requires ValidBlueprint(paths) && DistinctNames(paths) && Holds(paths, MoveAll(rules, Names(p)), i)
    requires Written(paths[i].from)
    ensures Names(Location(LongestFirst(paths), tmp, Pass(Flatten(rules), p))) ==
      Names(paths[i].to) + MoveAll(rules, Names(p))[|Names(paths[i].from)|..]
  {
    var q := Pass(Flatten(rules), p);
    FlattenPreservesMeaning(rules, p);
    MigratedIsWritten(rules, p);
    HeldInBytes(paths[i].from, q);
    LandsByName(paths, tmp, q, i);
  }

  // ---- version after version ----

  /** Names moved by some rules, the first one first. */
  ghost function MovedBy(rules: seq<Rule>, ns: seq<Name>): seq<Name> {
    if rules == [] then ns else MovedBy(rules[1..], Move(ByName(rules[0]), ns))
  }

  /** Names of the version before, as they are in version `v`. */
  ghost function AtVersion(ms: seq<Migration>, v: nat, ns: seq<Name>): seq<Name> {
    if ms == [] then ns
    else AtVersion(ms[1..], v, if ms[0].version == v then MovedBy(ms[0].paths, ns) else ns)
  }

  /** Names of version `from`, upgraded to each later version in turn until `to`. */
  ghost function Upgraded(ms: seq<Migration>, from: nat, to: nat, ns: seq<Name>): seq<Name>
    decreases if from < to then to - from else 0
  {
    if from >= to then ns else Upgraded(ms, from + 1, to, AtVersion(ms, from + 1, ns))
  }

  ghost function VersionRules(ms: seq<Migration>, v: nat): seq<Rule> {
    if ms == [] then [] else (if ms[0].version == v then ms[0].paths else []) + VersionRules(ms[1..], v)
  }

  /** The rules of all these versions, in the order in which they are upgraded to. */
  ghost function UpgradeRules(ms: seq<Migration>, from: nat, to: nat): seq<Rule>
    decreases if from < to then to - from else 0
  {
    if from >= to then [] else VersionRules(ms, from + 1) + UpgradeRules(ms, from + 1, to)
  }

  lemma {:induction false} MovedByConcat(a: seq<Rule>, b: seq<Rule>, ns: seq<Name>)
    ensures MovedBy(a + b, ns) == MovedBy(b, MovedBy(a, ns))
  {
    if a == [] {
      assert a + b == b;
    } else {
      assert (a + b)[1..] == a[1..] + b;
      MovedByConcat(a[1..], b, Move(ByName(a[0]), ns));
    }
  }

  lemma MovedByOne(r: Rule, ns: seq<Name>)
    ensures MovedBy([r], ns) == Move(ByName(r), ns)
  {
    assert [r][1..] == [];
    assert MovedBy([], Move(ByName(r), ns)) == Move(ByName(r), ns);
  }

  lemma MovedByLast(init: seq<Rule>, last: Rule, ns: seq<Name>)
    ensures MovedBy(init + [last], ns) == Move(ByName(last), MovedBy(init, ns))
  {
    MovedByConcat(init, [last], ns);
    MovedByOne(last, MovedBy(init, ns));
  }

  lemma MoveAllLast(init: seq<Rule>, last: Rule, ns: seq<Name>)
    ensures MoveAll(init + [last], ns) == Move(ByName(last), MoveAll(init, ns))
  {
    assert (init + [last])[..|init|] == init;
  }

  lemma MovedAlike(init: seq<Rule>, last: Rule, ns: seq<Name>)
    requires MovedBy(init, ns) == MoveAll(init, ns)
    ensures MovedBy(init + [last], ns) == MoveAll(init + [last], ns)
  {
    MovedByLast(init, last, ns);
    MoveAllLast(init, last, ns);
  }

  lemma {:induction false} MovedByIsMoveAll(rules: seq<Rule>, ns: seq<Name>)
    ensures MovedBy(rules, ns) == MoveAll(rules, ns)
  {
    if rules != [] {
      var init, last := rules[..|rules| - 1], rules[|rules| - 1];
      MovedByIsMoveAll(init, ns);
      MovedAlike(init, last, ns);
      assert init + [last] == rules;
    }
  }

  lemma {:induction false} AtVersionIsMovedBy(ms: seq<Migration>, v: nat, ns: seq<Name>)
    ensures AtVersion(ms, v, ns) == MovedBy(VersionRules(ms, v), ns)
  {
    if ms != [] {
      var first := if ms[0].version == v then ms[0].paths else [];
      MovedByConcat(first, VersionRules(ms[1..], v), ns);
      AtVersionIsMovedBy(ms[1..], v, MovedBy(first, ns));
    }
  }

  lemma {:induction false} UpgradedIsMovedBy(ms: seq<Migration>, from: nat, to: nat, ns: seq<Name>)
    ensures Upgraded(ms, from, to, ns) == MovedBy(UpgradeRules(ms, from, to), ns)
    decreases if from < to then to - from else 0
  {
    if from < to {
      AtVersionIsMovedBy(ms, from + 1, ns);
      UpgradedIsMovedBy(ms, from + 1, to, AtVersion(ms, from + 1, ns));
      MovedByConcat(VersionRules(ms, from + 1), UpgradeRules(ms, from + 1, to), ns);
    }
  }

  // ---- what the code collects ----

  lemma {:induction false} NoneOfVersion(ms: seq<Migration>, v: nat)
    requires forall i :: 0 <= i < |ms| ==> ms[i].version != v
    ensures VersionRules(ms, v) == []
  {
    if ms != [] { NoneOfVersion(ms[1..], v); }
  }

  lemma {:induction false} NothingToUpgrade(ms: seq<Migration>, from: nat, to: nat)
    requires forall i :: 0 <= i < |ms| ==> ms[i].version > to
    ensures UpgradeRules(ms, from, to) == []
    decreases if from < to then to - from else 0
  {
    if from < to {
      NoneOfVersion(ms, from + 1);
      NothingToUpgrade(ms, from + 1, to);
    }
  }

  /** The first of a sorted list comes first if its version is passed, and else not at all. */
  lemma {:induction false} UpgradeRulesStep(m: Migration, rest: seq<Migration>, from: nat, to: nat)
    requires forall i :: 0 <= i < |rest| ==> rest[i].version >= m.version
    ensures UpgradeRules([m] + rest, from, to) ==
      (if from < m.version <= to then m.paths else []) + UpgradeRules(rest, from, to)
    decreases if from < to then to - from else 0
  {
    if from < to {
      UpgradeRulesStep(m, rest, from + 1, to);
      VersionRulesStep(m, rest, from + 1);
      if from + 1 < m.version { NoneOfVersion(rest, from + 1); }
      NowOrLater(m.paths, VersionRules(rest, from + 1), UpgradeRules(rest, from + 1, to),
                 m.version == from + 1, from + 1 < m.version <= to);
    }
  }

  lemma NowOrLater<T>(first: seq<T>, rest: seq<T>, later: seq<T>, now: bool, then': bool)
    requires !(now && then') && (then' ==> rest == [])
    ensures (if now then first else []) + rest + ((if then' then first else []) + later) ==
      (if now || then' then first else []) + (rest + later)
  {
  }

  lemma VersionRulesStep(m: Migration, rest: seq<Migration>, v: nat)
    ensures VersionRules([m] + rest, v) == (if m.version == v then m.paths else []) + VersionRules(rest, v)
  {
    assert ([m] + rest)[1..] == rest;
  }

  lemma {:induction false} CollectedInOrder(ms: seq<Migration>, from: nat, to: nat)
    requires SortedByVersion(ms)
    ensures RulesOf(Between(ms, from, to)) == UpgradeRules(ms, from, to)
  {
    if ms == [] {
      NothingToUpgrade(ms, from, to);
    } else {
      UpgradeRulesStep(ms[0], ms[1..], from, to);
      assert [ms[0]] + ms[1..] == ms;
      CollectedInOrder(ms[1..], from, to);
      RulesOfStep(ms[0], Between(ms[1..], from, to));
    }
  }

  lemma RulesOfStep(m: Migration, rest: seq<Migration>)
    ensures RulesOf([m] + rest) == m.paths + RulesOf(rest) && RulesOf([] + rest) == RulesOf(rest)
  {
    assert ([m] + rest)[1..] == rest && [] + rest == rest;
  }

  /** The rules of every passed version can be flattened, and the path is of the old layout. */
  ghost predicate Upgradable(ms: seq<Migration>, from: nat, to: nat, p: Path) {
    var rules := UpgradeRules(ms, from, to);
    NonNested(rules) && Composable(rules) && Written(p) && Live(rules, Names(p))
  }

  /** What restoration does to a path of a backup of version `from` under a blueprint of
      version `to`: it goes to the names it has after the upgrades to `from + 1`, `from + 2`
      and so on up to `to`, and stays if there are none. */
  lemma MigratedVersionByVersion(ms: seq<Migration>, from: nat, to: nat, p: Path)
    requires SortedByVersion(ms) && Upgradable(ms, from, to, p)
    ensures Names(Pass(MigrationsFor(ms, from, to), p)) == Upgraded(ms, from, to, Names(p))
  {
    UpgradedIsMovedBy(ms, from, to, Names(p));
    MovedByIsMoveAll(UpgradeRules(ms, from, to), Names(p));
    if from < to {
      FilterSelectsBetween(ms, from, to);
      CollectedInOrder(ms, from, to);
      FlattenPreservesMeaning(UpgradeRules(ms, from, to), p);
    }
  }

  /** A backup of the blueprint's version, or of a later one, is not migrated at all. */
  lemma NotMigrated(ms: seq<Migration>, from: nat, to: nat, p: Path)
    requires from >= to
    ensures Pass(MigrationsFor(ms, from, to), p) == p
  {
  }

  /** Where restoration puts an entry of an older backup: below the local path of the line
      that holds its upgraded names, if no target of a migration has a needless slash. */
  lemma OlderEntryLands(ms: seq<Migration>, from: nat, to: nat, paths: seq<Rule>, tmp: Path, p: Path, i: nat)
    requires SortedByVersion(ms) && Upgradable(ms, from, to, p) && TidyTargets(UpgradeRules(ms, from, to))
    requires ValidBlueprint(paths) && DistinctNames(paths) && Holds(paths, Upgraded(ms, from, to, Names(p)), i)
    requires Written(paths[i].from)
    ensures Names(Location(LongestFirst(paths), tmp, Pass(MigrationsFor(ms, from, to), p))) ==
      Names(paths[i].to) + Upgraded(ms, from, to, Names(p))[|Names(paths[i].from)|..]
  {
    UpgradedIsMovedBy(ms, from, to, Names(p));
    MovedByIsMoveAll(UpgradeRules(ms, from, to), Names(p));
    if from < to {
      FilterSelectsBetween(ms, from, to);
      CollectedInOrder(ms, from, to);
      UpgradedEntryLands(UpgradeRules(ms, from, to), paths, tmp, p, i);
    } else {
      HeldInBytes(paths[i].from, p);
      LandsByName(paths, tmp, p, i);
    }
  }

  /** So after a successful restoration the node of that entry is there, unless a later entry
      went to the same place. */
  lemma OlderEntryRestored(before: Tree, after: Tree, ms: seq<Migration>, archive: Archive, blueprint: Blueprint,
                           tmp: Path, i: nat, k: nat)
    returns (q: Path)
    requires k < |archive.entries| && ValidBlueprint(blueprint.paths) && DistinctNames(blueprint.paths)
    requires var p := archive.entries[k].path;
      && SortedByVersion(ms) && Upgradable(ms, archive.version, blueprint.version, p)
      && TidyTargets(UpgradeRules(ms, archive.version, blueprint.version))
      && Holds(blueprint.paths, Upgraded(ms, archive.version, blueprint.version, Names(p)), i)
      && Written(blueprint.paths[i].from)
    requires var located := Located(LongestFirst(blueprint.paths),
                                    MigrationsFor(ms, archive.version, blueprint.version), tmp, archive.entries);
      && Committed(before, after, Destinations(LongestFirst(blueprint.paths)), Unpacked(located, map[]))
      && forall j :: k < j < |located| ==> located[j].path != located[k].path
    ensures var ns := Upgraded(ms, archive.version, blueprint.version, Names(archive.entries[k].path));
      Names(q) == Names(blueprint.paths[i].to) + ns[|Names(blueprint.paths[i].from)|..]
    ensures Get(after, q) == Some(archive.entries[k].node)
  {
    var p, rules := archive.entries[k].path, MigrationsFor(ms, archive.version, blueprint.version);
    var located := Located(LongestFirst(blueprint.paths), rules, tmp, archive.entries);
    OlderEntryLands(ms, archive.version, blueprint.version, blueprint.paths, tmp, p, i);
    q := located[k].path;
    LastEntryWins(located, map[], k);
    var h := OlderEntryFound(ms, archive.version, blueprint.version, blueprint.paths, tmp, p, i);
    assert Under(Destinations(LongestFirst(blueprint.paths))[h], q);
  }

  lemma OlderEntryFound(ms: seq<Migration>, from: nat, to: nat, paths: seq<Rule>, tmp: Path, p: Path, i: nat)
    returns (h: nat)
    requires SortedByVersion(ms) && Upgradable(ms, from, to, p) && TidyTargets(UpgradeRules(ms, from, to))
    requires ValidBlueprint(paths) && DistinctNames(paths) && Holds(paths, Upgraded(ms, from, to, Names(p)), i)
    requires Written(paths[i].from)
    ensures h < |LongestFirst(paths)|
    ensures Under(Trim(LongestFirst(paths)[h].to),
      Location(LongestFirst(paths), tmp, Pass(MigrationsFor(ms, from, to), p)))
  {
    MigratedVersionByVersion(ms, from, to, p);
    OlderIsWritten(ms, from, to, p);
    h := FoundUnder(paths, tmp, Pass(MigrationsFor(ms, from, to), p), i);
  }

  lemma OlderIsWritten(ms: seq<Migration>, from: nat, to: nat, p: Path)
    requires SortedByVersion(ms) && Written(p) && TidyTargets(UpgradeRules(ms, from, to))
    ensures Written(Pass(MigrationsFor(ms, from, to), p))
  {
    if from < to {
      FilterSelectsBetween(ms, from, to);
      CollectedInOrder(ms, from, to);
      MigratedIsWritten(UpgradeRules(ms, from, to), p);
    }
  }

  lemma FoundUnder(paths: seq<Rule>, tmp: Path, q: Path, i: nat) returns (h: nat)
    requires ValidBlueprint(paths) && DistinctNames(paths) && Holds(paths, Names(q), i)
    requires Written(paths[i].from) && Written(q)
    ensures h < |LongestFirst(paths)| && Under(Trim(LongestFirst(paths)[h].to), Location(LongestFirst(paths), tmp, q))
  {
    HeldInBytes(paths[i].from, q);
    FoundByName(paths, q, i);
    h := FirstHit(LongestFirst(paths), q);
    LongestFirstKeepsRules(paths);
    LocationReplacesName(LongestFirst(paths), tmp, q);
  }

  // ---- a target with a needless slash ----

  lemma SlashedNames(d: Name, e: Name, b: Name)
    requires IsName(d) && IsName(e) && IsName(b)
    ensures Names(d) == [d] && Names(e) == [e] && Names(e + "/") == [e]
    ensures Names(d + "/" + b) == [d, b] && Names(e + "/" + b) == [e, b]
  {
    NamesOfName(d);
    NamesOfName(e);
    NamesOfName(b);
    NamesConcat(d, b);
    NamesConcat(e, b);
    NamesOfTrim(e + "/");
  }

  /** The migrated path has two slashes, and the line `e/b` does not see it. */
  lemma SlashedBytes(d: Name, e: Name, b: Name, r: Rule, p: Path)
    requires IsName(d) && IsName(e) && IsName(b) && r == Rule(d, e + "/") && p == d + "/" + b
    ensures var q := Rewrite(r, p); AtOrUnder(r.from, p) && AtOrUnder(e, q) && !AtOrUnder(e + "/" + b, q)
  {
    assert Trim(d) == d && Trim(e) == e && Trim(e + "/" + b) == e + "/" + b;
    assert p[|d|..] == "/" + b && |"/" + b| >= 2;
    var q := Rewrite(r, p);
    assert q == e + "/" + ("/" + b);
    assert q[|e| + 1] == '/' && (e + "/" + b)[|e| + 1] == b[0];
  }

  lemma OneRuleFlat(r: Rule)
    ensures Flatten([r]) == [r]
  {
    assert [] + [r] == [r] && [r][1..] == [];
    AccumulateOne(r);
    assert LongestFirst([]) == [] && LongestFirst([r]) == InsertByLength(r, []);
  }

  lemma OnlyFirstFound(a: Rule, b: Rule, q: Path)
    requires AtOrUnder(a.from, q) && !AtOrUnder(b.from, q)
    ensures var sorted := LongestFirst([a, b]); FirstHit(sorted, q) < |sorted| && sorted[FirstHit(sorted, q)] == a
  {
    var sorted := LongestFirst([a, b]);
    LongestFirstKeepsRules([a, b]);
    assert a in [a, b];
    var k :| 0 <= k < |sorted| && sorted[k] == a;
    assert sorted[FirstHit(sorted, q)] in [a, b];
  }

  /** A file `d/b` whose directory moves to `e`, written `e/`, is not found by the line `e/b`
      that is meant for it: it lands below the local path of `e`. */
  lemma SlashedTargetMisses(d: Name, e: Name, b: Name, x: Path, y: Path, tmp: Path, r: Rule, paths: seq<Rule>, p: Path)
    requires IsName(d) && IsName(e) && IsName(b) && d != e && ValidLocal(x) && ValidLocal(y)
    requires r == Rule(d, e + "/") && paths == [Rule(e, x), Rule(e + "/" + b, y)] && p == d + "/" + b
    ensures MoveAll([r], Names(p)) == [e, b] && Holds(paths, [e, b], 1) && DistinctNames(paths)
    ensures Names(Location(LongestFirst(paths), tmp, Pass(Flatten([r]), p))) == Names(x) + [b]
  {
    SlashedNames(d, e, b);
    SlashedBytes(d, e, b, r, p);
    OneRuleFlat(r);
    var q := Rewrite(r, p);
    assert FirstHit([r], p) == 0 && Pass([r], p) == q;
    SlashedMeaning(d, e, b, r, paths, p);
    HeldByName(r, p);
    assert Names(p)[1..] == [b];
    assert ValidName(e) && (e + "/" + b)[|e| + |b|] == b[|b| - 1] && ValidName(e + "/" + b);
    FirstOfTwoLands(paths[0], paths[1], tmp, q);
  }

  lemma SlashedMeaning(d: Name, e: Name, b: Name, r: Rule, paths: seq<Rule>, p: Path)
    requires Names(r.from) == [d] && Names(r.to) == [e] && Names(p) == [d, b] && |paths| == 2
    requires Names(paths[0].from) == [e] && Names(paths[1].from) == [e, b]
    ensures MoveAll([r], Names(p)) == [e, b] && Holds(paths, [e, b], 1) && DistinctNames(paths)
  {
    assert [r][..0] == [] && [d, b][1..] == [b];
    assert MoveAll([], Names(p)) == Names(p);
  }

  lemma FirstOfTwoLands(a: Rule, b: Rule, tmp: Path, q: Path)
    requires ValidName(a.from) && ValidLocal(a.to) && ValidName(b.from) && ValidLocal(b.to)
    requires AtOrUnder(a.from, q) && !AtOrUnder(b.from, q)
    ensures Names(a.from) <= Names(q)
    ensures Names(Location(LongestFirst([a, b]), tmp, q)) == Names(a.to) + Names(q)[|Names(a.from)|..]
  {
    OnlyFirstFound(a, b, q);
    LongestFirstKeepsRules([a, b]);
    forall r | r in LongestFirst([a, b]) ensures ValidName(r.from) && ValidLocal(r.to) { assert r == a || r == b; }
    LocationReplacesName(LongestFirst([a, b]), tmp, q);
    HeldByName(Rule(a.from, Trim(a.to)), q);
    NamesOfTrim(a.to);
  }
}
