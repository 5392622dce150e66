/** The blueprint that the server ships with. */
module ServerBlueprint {
  import opened Paths
  import opened Archiving
  import opened FileTrees
  import opened Restoration

  const SERVER_DATA := Rule("prose-pod-server-data", "/var/lib/prose-pod-server")
  const PROSODY_DATA := Rule("prosody-data", "/var/lib/prosody")
  const PROSE_CONFIG := Rule("prose-config", "/etc/prose")
  const PROSODY_CONFIG := Rule("prosody-config", "/etc/prosody")

  const SERVER_BLUEPRINT := Blueprint(1, [SERVER_DATA, PROSODY_DATA, PROSE_CONFIG, PROSODY_CONFIG])

  // ---- blueprints whose lines differ ----

  /** The two paths differ at some byte, so neither is the beginning of the other. */
  ghost predicate Differ(a: Path, b: Path) {
    exists k :: 0 <= k < |a| && k < |b| && a[k] != b[k]
  }

  ghost predicate RulesDiffer(a: Rule, b: Rule) { Differ(a.from, b.from) && Differ(a.to, b.to) }

  predicate OutsideTmp(d: Path) { |d| > 1 && d[1] != 't' && d[|d| - 1] != '/' }

  ghost predicate GoodRule(r: Rule) {
    && ValidName(r.from) && Trim(r.from) == r.from
    && ValidLocal(r.to) && Trim(r.to) == r.to && OutsideTmp(r.to)
  }

  /** Every line is good, and any two differ, the earlier one first. */
  ghost predicate Pairwise(good: Rule -> bool, differ: (Rule, Rule) -> bool, paths: seq<Rule>) {
    && (forall i :: 0 <= i < |paths| ==> good(paths[i]))
    && (forall i, j :: 0 <= i < j < |paths| ==> differ(paths[i], paths[j]))
  }

  ghost predicate DiffersFrom(differ: (Rule, Rule) -> bool, r: Rule, paths: seq<Rule>) {
    forall i :: 0 <= i < |paths| ==> differ(r, paths[i])
  }

  lemma PairwiseGrows(good: Rule -> bool, differ: (Rule, Rule) -> bool, r: Rule, paths: seq<Rule>)
    requires Pairwise(good, differ, paths) && good(r) && DiffersFrom(differ, r, paths)
    ensures Pairwise(good, differ, [r] + paths)
  {
    var all := [r] + paths;
    forall i, j | 0 <= i < j < |all| ensures differ(all[i], all[j]) {
      assert all[j] == paths[j - 1];
      assert i > 0 ==> all[i] == paths[i - 1];
    }
  }

  lemma PairwiseRest(good: Rule -> bool, differ: (Rule, Rule) -> bool, paths: seq<Rule>)
    requires Pairwise(good, differ, paths) && paths != []
    ensures Pairwise(good, differ, paths[1..]) && DiffersFrom(differ, paths[0], paths[1..])
  {
  }

  lemma {:induction false} PairwiseInserted(good: Rule -> bool, differ: (Rule, Rule) -> bool, r: Rule, paths: seq<Rule>)
    requires forall x, y :: differ(x, y) ==> differ(y, x)
    requires DescendingLength(paths) && Pairwise(good, differ, paths) && good(r) && DiffersFrom(differ, r, paths)
    ensures Pairwise(good, differ, InsertByLength(r, paths))
    ensures forall x :: DiffersFrom(differ, x, paths) && differ(x, r) ==>
      DiffersFrom(differ, x, InsertByLength(r, paths))
  {
    if paths == [] || |r.from| >= |paths[0].from| {
      PairwiseGrows(good, differ, r, paths);
    } else {
      var first, rest := paths[0], paths[1..];
      PairwiseRest(good, differ, paths);
      PairwiseInserted(good, differ, r, rest);
      assert differ(r, first);
      PairwiseGrows(good, differ, first, InsertByLength(r, rest));
      forall x | DiffersFrom(differ, x, paths) && differ(x, r)
        ensures DiffersFrom(differ, x, InsertByLength(r, paths)) {
        assert DiffersFrom(differ, x, rest);
      }
    }
  }

  /** Sorting keeps that. */
  lemma {:induction false} PairwiseSorted(good: Rule -> bool, differ: (Rule, Rule) -> bool, paths: seq<Rule>)
    requires forall x, y :: differ(x, y) ==> differ(y, x)
    requires Pairwise(good, differ, paths)
    ensures Pairwise(good, differ, LongestFirst(paths))
    ensures forall x :: DiffersFrom(differ, x, paths) ==> DiffersFrom(differ, x, LongestFirst(paths))
  {
    if paths != [] {
      PairwiseRest(good, differ, paths);
      PairwiseSorted(good, differ, paths[1..]);
      PairwiseInserted(good, differ, paths[0], LongestFirst(paths[1..]));
      forall x | DiffersFrom(differ, x, paths) ensures DiffersFrom(differ, x, LongestFirst(paths)) {
        assert DiffersFrom(differ, x, paths[1..]);
        assert differ(x, paths[0]);
      }
    }
  }

  lemma PairwiseFour(good: Rule -> bool, differ: (Rule, Rule) -> bool, a: Rule, b: Rule, c: Rule, d: Rule)
    requires good(a) && good(b) && good(c) && good(d)
    requires differ(a, b) && differ(a, c) && differ(a, d) && differ(b, c) && differ(b, d) && differ(c, d)
    ensures Pairwise(good, differ, [a, b, c, d])
  {
  }

  ghost predicate GoodPaths(paths: seq<Rule>) {
    Pairwise(r => GoodRule(r), (a, b) => RulesDiffer(a, b), paths)
  }

  lemma DifferBack(a: Rule, b: Rule)
    requires RulesDiffer(a, b)
    ensures RulesDiffer(b, a)
  {
    var k :| 0 <= k < |a.from| && k < |b.from| && a.from[k] != b.from[k];
    var l :| 0 <= l < |a.to| && l < |b.to| && a.to[l] != b.to[l];
  }

  lemma SortedIsGood(paths: seq<Rule>)
    requires GoodPaths(paths)
    ensures GoodPaths(LongestFirst(paths))
  {
    forall a, b | RulesDiffer(a, b) ensures RulesDiffer(b, a) { DifferBack(a, b); }
    PairwiseSorted(r => GoodRule(r), (a, b) => RulesDiffer(a, b), paths);
  }

  /** Paths that differ are apart, and so are the names they may be moved to. */
  lemma DifferApart(a: Path, b: Path, stamp: string, p: Path, q: Path)
    requires Differ(a, b) && NameOf(a, stamp, p) && NameOf(b, stamp, q)
    ensures Disjoint(p, q)
  {
    var k :| 0 <= k < |a| && k < |b| && a[k] != b[k];
    assert p[k] == a[k] && q[k] == b[k];
  }

  lemma GoodIsSeparate(sorted: seq<Rule>, stamp: string)
    requires GoodPaths(sorted)
    ensures Separate(Destinations(sorted), stamp)
  {
    var ds := Destinations(sorted);
    forall i, j, p, q | 0 <= i < |ds| && 0 <= j < |ds| && i != j && NameOf(ds[i], stamp, p) && NameOf(ds[j], stamp, q)
      ensures Disjoint(p, q)
    {
      assert GoodRule(sorted[i]) && GoodRule(sorted[j]);
      if i < j {
        DifferApart(ds[i], ds[j], stamp, p, q);
      } else {
        DifferApart(ds[j], ds[i], stamp, q, p);
      }
    }
  }

  lemma GoodIsValid(sorted: seq<Rule>)
    requires GoodPaths(sorted)
    ensures ValidBlueprint(sorted)
  {
    forall r | r in sorted ensures ValidName(r.from) && ValidLocal(r.to) {
      var i :| 0 <= i < |sorted| && sorted[i] == r;
      assert GoodRule(sorted[i]);
    }
  }

  lemma TmpIsApart(d: Path, stamp: string, tmp: Path, p: Path)
    requires |tmp| > 1 && tmp[1] == 't' && OutsideTmp(d) && NameOf(d, stamp, p)
    ensures Disjoint(p, tmp)
  {
    assert d[1] != tmp[1];
    DifferApart(d, tmp, stamp, p, tmp);
  }

  lemma TmpIsNoAncestor(d: Path, tmp: Path, q: Path)
    requires |tmp| > 1 && tmp[1] == 't' && OutsideTmp(d) && q in Ancestors(Parent(d))
    ensures !Under(tmp, q)
  {
    AncestorOfParent(d, q);
  }

  lemma GoodDestination(sorted: seq<Rule>, i: nat)
    requires GoodPaths(sorted) && i < |sorted|
    ensures var d := Destinations(sorted)[i]; ValidLocal(d) && Trim(d) == d && OutsideTmp(d)
  {
    assert GoodRule(sorted[i]);
  }

  /** Such a blueprint can be restored into a fresh directory of `/tmp`. */
  lemma GoodIsRestorable(before: Tree, blueprint: Blueprint, tmp: Path, stamp: string)
    requires GoodPaths(blueprint.paths) && forall i :: 0 <= i < |stamp| ==> stamp[i] != '/'
    requires |tmp| > 1 && tmp[1] == 't' && tmp[|tmp| - 1] != '/' && !Exists(before, tmp)
    requires forall d :: d in Destinations(LongestFirst(blueprint.paths)) ==> !Exists(before, Stamped(d, stamp))
    ensures Restorable(before, blueprint, tmp, stamp)
  {
    var sorted := LongestFirst(blueprint.paths);
    var ds := Destinations(sorted);
    SortedIsGood(blueprint.paths);
    GoodIsValid(sorted);
    GoodIsSeparate(sorted, stamp);
    forall i: nat | i < |ds|
      ensures ValidLocal(ds[i]) && Trim(ds[i]) == ds[i] && !Exists(before, Stamped(ds[i], stamp)) {
      GoodDestination(sorted, i);
      assert ds[i] in ds;
    }
    forall i: nat, p | i < |ds| && NameOf(ds[i], stamp, p) ensures Disjoint(p, tmp) {
      GoodDestination(sorted, i);
      TmpIsApart(ds[i], stamp, tmp, p);
    }
    forall q | q in ParentDirs(ds) ensures !Under(tmp, q) {
      var i: nat :| i < |ds| && q in Ancestors(Parent(ds[i]));
      GoodDestination(sorted, i);
      TmpIsNoAncestor(ds[i], tmp, q);
    }
  }

  lemma DifferNotUnder(a: Path, b: Path)
    requires Differ(a, b)
    ensures !Under(a, b) && !Under(b, a)
  {
    var k :| 0 <= k < |a| && k < |b| && a[k] != b[k];
  }

  /** ... and every path archived with it maps back to where it came from. */
  lemma GoodMapsBack(paths: seq<Rule>, tmp: Path)
    requires GoodPaths(paths)
    ensures MapsBack(paths, tmp)
  {
    GoodIsValid(paths);
    forall i: nat, j: nat | i < |paths| && j < |paths| && Under(Trim(paths[i].from), Trim(paths[j].from))
      ensures Trim(paths[j].to) == Trim(paths[i].to) + Trim(paths[j].from)[|Trim(paths[i].from)|..]
    {
      assert GoodRule(paths[i]) && GoodRule(paths[j]);
      if i < j { DifferNotUnder(paths[i].from, paths[j].from); }
      if j < i { DifferNotUnder(paths[j].from, paths[i].from); }
    }
    MapsBackExactly(paths, tmp);
  }

  // ---- absolute paths, name by name ----

  predicate Plain(name: string) { |name| > 2 && '/' !in name }

  lemma ChildName(dir: Path, name: string)
    requires Plain(name)
    ensures FileName(dir + "/" + name) == name
  {
    var d := dir + "/" + name;
    assert d[|dir|] == '/';
    assert forall i :: |dir| < i < |d| ==> d[i] == name[i - |dir| - 1];
    assert LastSlash(d) == |dir|;
  }

  predicate NoEmptyPart(q: Path) { forall i :: 0 < i < |q| ==> !(q[i - 1] == '/' && q[i] == '/') }

  lemma ChildHasNoEmptyPart(dir: Path, name: string)
    requires Plain(name) && NoEmptyPart(dir) && (dir == "" || dir[|dir| - 1] != '/')
    ensures NoEmptyPart(dir + "/" + name)
  {
    var d := dir + "/" + name;
    forall i | 0 < i < |d| ensures !(d[i - 1] == '/' && d[i] == '/') {
      if i > |dir| {
        assert d[i] == name[i - |dir| - 1];
      } else if i < |dir| {
        assert d[i - 1] == dir[i - 1] && d[i] == dir[i];
      }
    }
  }

  lemma ChildIsLocal(dir: Path, name: string)
    requires Plain(name) && (dir == "" || (ValidLocal(dir) && Trim(dir) == dir))
    ensures ValidLocal(dir + "/" + name) && Trim(dir + "/" + name) == dir + "/" + name
  {
    var d := dir + "/" + name;
    assert d[|d| - 1] == name[|name| - 1];
    ChildName(dir, name);
    ChildHasNoEmptyPart(dir, name);
  }

  lemma TwoDeep(a: string, b: string, d: Path)
    requires Plain(a) && Plain(b) && d == "/" + a + "/" + b
    ensures ValidLocal(d) && Trim(d) == d
  {
    assert "/" + a == "" + "/" + a;
    ChildIsLocal("", a);
    ChildIsLocal("/" + a, b);
  }

  lemma ThreeDeep(a: string, b: string, c: string, d: Path)
    requires Plain(a) && Plain(b) && Plain(c) && d == "/" + a + "/" + b + "/" + c
    ensures ValidLocal(d) && Trim(d) == d
  {
    TwoDeep(a, b, "/" + a + "/" + b);
    ChildIsLocal("/" + a + "/" + b, c);
  }

  lemma PlainIsName(name: string)
    requires Plain(name)
    ensures ValidName(name) && Trim(name) == name
  {
  }

  lemma GoodInVarLib(r: Rule, name: string)
    requires Plain(r.from) && Plain(name) && r.to == "/var/lib/" + name
    ensures GoodRule(r)
  {
    PlainIsName(r.from);
    assert r.to == "/" + "var" + "/" + "lib" + "/" + name;
    ThreeDeep("var", "lib", name, r.to);
  }

  lemma GoodInEtc(r: Rule, name: string)
    requires Plain(r.from) && Plain(name) && r.to == "/etc/" + name
    ensures GoodRule(r)
  {
    PlainIsName(r.from);
    assert r.to == "/" + "etc" + "/" + name;
    TwoDeep("etc", name, r.to);
  }

  // ---- the server's own ----

  lemma ServerDataName()
    ensures Plain(SERVER_DATA.from)
  {
  }

  lemma ServerDataDirectory()
    ensures Plain("prose-pod-server")
  {
  }

  lemma ServerDataPath()
    ensures SERVER_DATA.to == "/var/lib/" + "prose-pod-server"
  {
  }

  lemma ProsodyDataNames()
    ensures Plain(PROSODY_DATA.from) && Plain("prosody") && PROSODY_DATA.to == "/var/lib/" + "prosody"
  {
  }

  lemma ProseConfigNames()
    ensures Plain(PROSE_CONFIG.from) && Plain("prose") && PROSE_CONFIG.to == "/etc/" + "prose"
  {
  }

  lemma ProsodyConfigNames()
    ensures Plain(PROSODY_CONFIG.from) && Plain("prosody") && PROSODY_CONFIG.to == "/etc/" + "prosody"
  {
  }

  lemma GoodDataRules()
    ensures GoodRule(SERVER_DATA) && GoodRule(PROSODY_DATA)
  {
    ServerDataName();
    ServerDataDirectory();
    ServerDataPath();
    GoodInVarLib(SERVER_DATA, "prose-pod-server");
    ProsodyDataNames();
    GoodInVarLib(PROSODY_DATA, "prosody");
  }

  lemma GoodConfigRules()
    ensures GoodRule(PROSE_CONFIG) && GoodRule(PROSODY_CONFIG)
  {
    ProseConfigNames();
    GoodInEtc(PROSE_CONFIG, "prose");
    ProsodyConfigNames();
    GoodInEtc(PROSODY_CONFIG, "prosody");
  }

  lemma RulesDifferAt(a: Rule, b: Rule, k: nat, l: nat)
    requires k < |a.from| && k < |b.from| && a.from[k] != b.from[k]
    requires l < |a.to| && l < |b.to| && a.to[l] != b.to[l]
    ensures RulesDiffer(a, b)
  {
  }

  lemma DataDiffers()
    ensures RulesDiffer(SERVER_DATA, PROSODY_DATA)
  {
    RulesDifferAt(SERVER_DATA, PROSODY_DATA, 4, 13);
  }

  lemma ServerDataDiffers()
    ensures RulesDiffer(SERVER_DATA, PROSE_CONFIG) && RulesDiffer(SERVER_DATA, PROSODY_CONFIG)
  {
    RulesDifferAt(SERVER_DATA, PROSE_CONFIG, 6, 1);
    RulesDifferAt(SERVER_DATA, PROSODY_CONFIG, 4, 1);
  }

  lemma ProsodyDataDiffers()
    ensures RulesDiffer(PROSODY_DATA, PROSE_CONFIG) && RulesDiffer(PROSODY_DATA, PROSODY_CONFIG)
  {
    RulesDifferAt(PROSODY_DATA, PROSE_CONFIG, 4, 1);
    RulesDifferAt(PROSODY_DATA, PROSODY_CONFIG, 8, 1);
  }

  /** `/etc/prose` and `/etc/prosody` differ late. */
  lemma ConfigsDiffer()
    ensures RulesDiffer(PROSE_CONFIG, PROSODY_CONFIG)
  {
    RulesDifferAt(PROSE_CONFIG, PROSODY_CONFIG, 4, 9);
  }

  lemma ServerPaths(paths: seq<Rule>)
    requires paths == SERVER_BLUEPRINT.paths
    ensures GoodPaths(paths)
  {
    GoodDataRules();
    GoodConfigRules();
    DataDiffers();
    ServerDataDiffers();
    ProsodyDataDiffers();
    ConfigsDiffer();
    PairwiseFour(r => GoodRule(r), (a, b) => RulesDiffer(a, b), SERVER_DATA, PROSODY_DATA, PROSE_CONFIG,
      PROSODY_CONFIG);
  }

  lemma SecondByte(tmp: Path)
    requires "/tmp/" <= tmp
    ensures |tmp| > 1 && tmp[1] == 't'
  {
    assert tmp[1] == "/tmp/"[1];
  }

  /** With a fresh directory of `/tmp` and no file that has a destination's time-stamped
      name, the server can be restored whatever else is on disk: its destinations are apart,
      although `/etc/prose` is the beginning of `/etc/prosody`. */
  lemma ServerIsRestorable(before: Tree, blueprint: Blueprint, stamp: string, tmp: Path)
    requires blueprint.paths == SERVER_BLUEPRINT.paths && forall i :: 0 <= i < |stamp| ==> stamp[i] != '/'
    requires "/tmp/" <= tmp && tmp[|tmp| - 1] != '/' && !Exists(before, tmp)
    requires forall d :: d in Destinations(LongestFirst(blueprint.paths)) ==> !Exists(before, Stamped(d, stamp))
    ensures Restorable(before, blueprint, tmp, stamp)
  {
    SecondByte(tmp);
    ServerPaths(blueprint.paths);
    GoodIsRestorable(before, blueprint, tmp, stamp);
  }

  /** And every path archived with it maps back. */
  lemma ServerMapsBack(tmp: Path)
    ensures MapsBack(SERVER_BLUEPRINT.paths, tmp)
  {
    ServerPaths(SERVER_BLUEPRINT.paths);
    GoodMapsBack(SERVER_BLUEPRINT.paths, tmp);
  }
}
