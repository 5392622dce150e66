/** Archiving a file tree through a blueprint, and finding where each archive entry is
    extracted to. */
module Archiving {
  import opened Paths
  import opened Wrappers

  datatype Node = Dir | File(data: string)

  type Tree = map<Path, Node>

  /** Blueprint lines are rules from an archive name to a local path. */
  datatype Blueprint = Blueprint(version: nat, paths: seq<Rule>)

  datatype Entry = Entry(path: Path, node: Node)

  /** `metadata.json`, always the first entry of a backup, holds only the version. */
  datatype Archive = Archive(version: nat, entries: seq<Entry>)

  datatype ArchivingError = DoesNotExist(path: Path)

  // ---- local paths ----

  function LastSlash(p: Path): (i: int)
    ensures -1 <= i < |p|
    ensures i >= 0 ==> p[i] == '/'
    ensures forall k :: i < k < |p| ==> p[k] != '/'
  {
    if p == "" then -1
    else if p[|p| - 1] == '/' then |p| - 1
    else LastSlash(p[..|p| - 1])
  }

  function FileName(p: Path): Path { p[LastSlash(p) + 1..] }

  function Parent(p: Path): Path {
    var i := LastSlash(p);
    if i < 0 then "" else if i == 0 then "/" else p[..i]
  }

  /** Appending a relative path, as `PathBuf::push` does. */
  function Join(dir: Path, p: Path): Path {
    if dir == "" then p
    else if dir[|dir| - 1] == '/' then dir + p
    else dir + "/" + p
  }

  /** A path that has a file name and is written without empty components; one trailing
      slash is allowed. */
  predicate ValidLocal(p: Path) {
    var q := Trim(p);
    && q != ""
    && q[|q| - 1] != '/'
    && (forall i :: 0 < i < |q| ==> !(q[i - 1] == '/' && q[i] == '/'))
    && FileName(q) != "." && FileName(q) != ".."
  }

  predicate ValidName(name: Path) {
    var q := Trim(name);
    q != "" && q[|q| - 1] != '/'
  }

  predicate ValidBlueprint(paths: seq<Rule>) {
    forall r :: r in paths ==> ValidName(r.from) && ValidLocal(r.to)
  }

  lemma ParentAndFileName(p: Path)
    requires ValidLocal(p)
    ensures Join(Parent(Trim(p)), FileName(Trim(p))) == Trim(p)
  {
    var q := Trim(p);
    var i := LastSlash(q);
    if i > 0 {
      assert q[i - 1] != '/';
      assert q == q[..i] + "/" + q[i + 1..];
    }
  }

  // ---- extraction ----

  /** Where the entry is unpacked (`None` is the temporary directory) and the name it is
      given there. */
  datatype Placement = Placement(dst: Option<Path>, path: Path)

  function PlacedBy(to: Path, m: Match, p: Path): Placement
    requires m.Below? ==> m.suffix != ""
  {
    match m
    case Exact => Placement(Some(Parent(Trim(to))), FileName(Trim(to)))
    case Below(suffix) => Placement(Some(to), suffix[1..])
    case Apart => Placement(None, p)
  }

  function Place(mappings: seq<Rule>, p: Path): Placement {
    var i := FirstHit(mappings, p);
    if i == |mappings| then Placement(None, p) else PlacedBy(mappings[i].to, Classify(mappings[i].from, p), p)
  }

  lemma FirstHitIs(rules: seq<Rule>, p: Path, i: nat)
    requires i <= |rules| && forall k :: 0 <= k < i ==> !AtOrUnder(rules[k].from, p)
    requires i < |rules| ==> AtOrUnder(rules[i].from, p)
    ensures FirstHit(rules, p) == i
  {
  }

  /** A tar entry whose path extraction rewrites before unpacking it. */
  class TarEntry {
    var path: Path
    const node: Node

    constructor (path: Path, node: Node)
      ensures this.path == path && this.node == node
    {
      this.path, this.node := path, node;
    }
  }

  /** First loop: at most one migration is applied. */
  method MigratePath(path: Path, migrations: seq<Rule>) returns (newPath: Path)
    ensures newPath == Pass(migrations, path)
  {
    newPath := path;
    var i := 0;
    while i < |migrations|
      invariant 0 <= i <= |migrations|
      invariant newPath == path
      invariant forall k :: 0 <= k < i ==> !AtOrUnder(migrations[k].from, path)
    {
      match Classify(migrations[i].from, newPath) {
        case Exact =>
          newPath := migrations[i].to;
          break;
        case Below(suffix) =>
          newPath := migrations[i].to + suffix;
          break;
        case Apart =>
      }
      i := i + 1;
    }
    assert i == FirstHit(migrations, path);
  }

  /** Second loop: at most one mapping is used. */
  method FindDestination(path: Path, mappings: seq<Rule>) returns (dst: Option<Path>, newPath: Path)
    ensures Placement(dst, newPath) == Place(mappings, path)
  {
    var j := 0;
    while j < |mappings|
      invariant 0 <= j <= |mappings|
      invariant forall k :: 0 <= k < j ==> !AtOrUnder(mappings[k].from, path)
    {
      var m := Classify(mappings[j].from, path);
      if !m.Apart? {
        FirstHitIs(mappings, path, j);
        if m.Exact? {
          return Some(Parent(Trim(mappings[j].to))), FileName(Trim(mappings[j].to));
        }
        return Some(mappings[j].to), m.suffix[1..];
      }
      j := j + 1;
    }
    FirstHitIs(mappings, path, j);
    return None, path;
  }

  /** Rewrites the entry's path and says where to unpack it. */
  method MapPath(entry: TarEntry, migrations: seq<Rule>, mappings: seq<Rule>) returns (dst: Option<Path>)
    modifies entry`path
    ensures Placement(dst, entry.path) == Place(mappings, Pass(migrations, old(entry.path)))
  {
    var migrated := MigratePath(entry.path, migrations);
    var newPath;
    dst, newPath := FindDestination(migrated, mappings);
    entry.path := newPath;
  }

  /** The path an entry named `p` ends up at. */
  function Location(mappings: seq<Rule>, tmp: Path, p: Path): Path {
    var placement := Place(mappings, p);
    Join(placement.dst.GetOr(tmp), placement.path)
  }

  lemma JoinBelow(to: Path, suffix: Path)
    requires ValidLocal(to) && |suffix| >= 2 && suffix[0] == '/'
    ensures Join(to, suffix[1..]) == Trim(to) + suffix
  {
    assert suffix == "/" + suffix[1..];
    if to[|to| - 1] == '/' {
      assert to == Trim(to) + "/";
    }
  }

  /** Splitting an exact match into parent and file name, and stripping the slash of a
      proper one, both amount to replacing the archive name by the local path. */
  lemma LocationReplacesName(mappings: seq<Rule>, tmp: Path, p: Path)
    requires ValidBlueprint(mappings)
    ensures var i := FirstHit(mappings, p);
      Location(mappings, tmp, p) ==
      if i < |mappings| then Rewrite(Rule(mappings[i].from, Trim(mappings[i].to)), p) else Join(tmp, p)
  {
    var i := FirstHit(mappings, p);
    if i < |mappings| {
      var r := mappings[i];
      assert r in mappings;
      match Classify(r.from, p) {
        case Below(suffix) => JoinBelow(r.to, suffix);
        case Exact => ParentAndFileName(r.to);
        case Apart =>
      }
    }
  }

  // ---- archive names map back to their own local paths ----

  /** Archive names may be nested as long as the local paths are nested the same way. */
  predicate Consistent(paths: seq<Rule>) {
    forall i, j :: 0 <= i < |paths| && 0 <= j < |paths| && Under(Trim(paths[i].from), Trim(paths[j].from)) ==>
      Trim(paths[j].to) == Trim(paths[i].to) + Trim(paths[j].from)[|Trim(paths[i].from)|..]
  }

  /** What lies below a root: the empty suffix or `/` and something. */
  predicate Suffix(x: Path) {
    x == "" || (|x| >= 2 && x[0] == '/' && x[|x| - 1] != '/')
  }

  ghost predicate MapsBack(paths: seq<Rule>, tmp: Path) {
    forall i: nat, x :: i < |paths| && Suffix(x) ==>
      Location(LongestFirst(paths), tmp, Trim(paths[i].from) + x) == Trim(paths[i].to) + x
  }

  lemma ConsistentMapsBack(paths: seq<Rule>, tmp: Path, i: nat, x: Path)
    requires ValidBlueprint(paths) && Consistent(paths)
    requires i < |paths| && Suffix(x)
    ensures Location(LongestFirst(paths), tmp, Trim(paths[i].from) + x) == Trim(paths[i].to) + x
  {
    var p := Trim(paths[i].from) + x;
    var h := HitOf(paths, tmp, i, p);
    SuffixBelowHit(paths[i], paths[h], x);
  }

  lemma HitOf(paths: seq<Rule>, tmp: Path, i: nat, p: Path) returns (h: nat)
    requires ValidBlueprint(paths)
    requires i < |paths| && AtOrUnder(paths[i].from, p)
    ensures h < |paths| && Under(Trim(paths[i].from), Trim(paths[h].from)) && AtOrUnder(paths[h].from, p)
    ensures Location(LongestFirst(paths), tmp, p) == Rewrite(Rule(paths[h].from, Trim(paths[h].to)), p)
  {
    LongestFirstKeepsRules(paths);
    LocationReplacesName(LongestFirst(paths), tmp, p);
    var k;
    k, h := SortedHit(paths, i, p);
  }

  lemma SuffixBelowHit(outer: Rule, inner: Rule, x: Path)
    requires Suffix(x) && ValidName(inner.from)
    requires Under(Trim(outer.from), Trim(inner.from))
    requires AtOrUnder(inner.from, Trim(outer.from) + x)
    requires Trim(inner.to) == Trim(outer.to) + Trim(inner.from)[|Trim(outer.from)|..]
    ensures Rewrite(Rule(inner.from, Trim(inner.to)), Trim(outer.from) + x) == Trim(outer.to) + x
  {
    var o, i := Trim(outer.from), Trim(inner.from);
    var z := i[|o|..];
    assert i == o + z;
    var y := x[|z|..];
    SplitSuffix(o, z, x);
    RewriteSuffix(Rule(inner.from, Trim(inner.to)), y);
    assert Trim(outer.to) + (z + y) == Trim(inner.to) + y;
  }

  lemma SplitSuffix(o: Path, z: Path, x: Path)
    requires Suffix(x) && Under(o + z, o + x)
    ensures |z| <= |x| && x == z + x[|z|..] && o + x == (o + z) + x[|z|..] && Suffix(x[|z|..])
  {
    assert (o + x)[|o|..] == x && (o + z)[|o|..] == z;
    assert z == x[..|z|];
    assert |z| < |x| ==> (o + x)[|o + z|] == x[|z|];
    assert o + (z + x[|z|..]) == (o + z) + x[|z|..];
  }

  lemma RewriteSuffix(r: Rule, y: Path)
    requires Suffix(y)
    ensures Rewrite(r, Trim(r.from) + y) == r.to + y
  {
    assert (Trim(r.from) + y)[|Trim(r.from)|..] == y;
    assert r.to + "" == r.to;
  }

  /** Every archived path maps back to where it came from if and only if the nesting of
      local paths mirrors that of archive names. */
  lemma MapsBackExactly(paths: seq<Rule>, tmp: Path)
    requires ValidBlueprint(paths)
    ensures MapsBack(paths, tmp) <==> Consistent(paths)
  {
    if Consistent(paths) {
      forall i: nat, x | i < |paths| && Suffix(x)
        ensures Location(LongestFirst(paths), tmp, Trim(paths[i].from) + x) == Trim(paths[i].to) + x
      {
        ConsistentMapsBack(paths, tmp, i, x);
      }
    }
    if MapsBack(paths, tmp) {
      forall i: nat, j: nat | i < |paths| && j < |paths| && Under(Trim(paths[i].from), Trim(paths[j].from))
        ensures Trim(paths[j].to) == Trim(paths[i].to) + Trim(paths[j].from)[|Trim(paths[i].from)|..]
      {
        NestingIsMirrored(paths, tmp, i, j);
      }
    }
  }

  lemma NestingIsMirrored(paths: seq<Rule>, tmp: Path, i: nat, j: nat)
    requires ValidBlueprint(paths) && MapsBack(paths, tmp)
    requires i < |paths| && j < |paths| && Under(Trim(paths[i].from), Trim(paths[j].from))
    ensures Trim(paths[j].to) == Trim(paths[i].to) + Trim(paths[j].from)[|Trim(paths[i].from)|..]
  {
    var x := Trim(paths[j].from)[|Trim(paths[i].from)|..];
    assert paths[j] in paths;
    assert Trim(paths[i].from) + x == Trim(paths[j].from) == Trim(paths[j].from) + "";
    MapsBackAt(paths, tmp, i, x);
    MapsBackAt(paths, tmp, j, "");
    assert Trim(paths[j].to) + "" == Trim(paths[j].to);
  }

  lemma MapsBackAt(paths: seq<Rule>, tmp: Path, i: nat, x: Path)
    requires MapsBack(paths, tmp) && i < |paths| && Suffix(x)
    ensures Location(LongestFirst(paths), tmp, Trim(paths[i].from) + x) == Trim(paths[i].to) + x
  {
  }

  /** The hit of the sorted list, found again in the blueprint. */
  lemma SortedHit(paths: seq<Rule>, i: nat, p: Path) returns (k: nat, h: nat)
    requires i < |paths| && AtOrUnder(paths[i].from, p)
    ensures k == FirstHit(LongestFirst(paths), p) < |LongestFirst(paths)|
    ensures h < |paths| && paths[h] == LongestFirst(paths)[k]
    ensures Under(Trim(paths[i].from), Trim(paths[h].from)) && AtOrUnder(paths[h].from, p)
  {
    var sorted := LongestFirst(paths);
    LongestFirstKeepsRules(paths);
    assert paths[i] in sorted;
    var m :| 0 <= m < |sorted| && sorted[m] == paths[i];
    FirstHitIsLongest(sorted, p, m);
    k := FirstHit(sorted, p);
    assert sorted[k] in paths;
    h :| 0 <= h < |paths| && paths[h] == sorted[k];
  }

  // ---- writing archives ----

  function Get(t: Tree, q: Path): Option<Node> {
    if q in t then Some(t[q]) else None
  }

  /** What a directory walk yields: for every directory root, the suffixes of everything
      below it, in whatever order the system lists them. */
  type Walk = map<Path, seq<Path>>

  ghost predicate WalksDir(fs: Tree, root: Path, walk: seq<Path>) {
    && (forall x :: x in walk ==> x != "" && Suffix(x) && root + x in fs)
    && (forall q {:trigger q[|root|..]} :: q in fs && Under(root, q) && q != root ==> q[|root|..] in walk)
  }

  ghost predicate WalkOf(fs: Tree, walk: Walk) {
    forall root :: root in fs && fs[root].Dir? ==> root in walk && WalksDir(fs, root, walk[root])
  }

  function Walked(fs: Tree, name: Path, root: Path, walk: seq<Path>): (es: seq<Entry>)
    ensures |es| == |walk|
    ensures forall i :: 0 <= i < |es| ==> es[i] == Entry(name + walk[i], Get(fs, root + walk[i]).GetOr(Dir))
  {
    if walk == [] then []
    else [Entry(name + walk[0], Get(fs, root + walk[0]).GetOr(Dir))] + Walked(fs, name, root, walk[1..])
  }

  /** The entries of one blueprint line: a file under its own name, or a directory (whose
      own entry carries a trailing slash) and everything below it. */
  function EntriesOf(fs: Tree, walk: Walk, line: Rule): seq<Entry> {
    var root := Trim(line.to);
    match Get(fs, root)
    case None => []
    case Some(File(data)) => [Entry(line.from, File(data))]
    case Some(Dir) =>
      [Entry(Trim(line.from) + "/", Dir)] +
      Walked(fs, Trim(line.from), root, if root in walk then walk[root] else [])
  }

  function EntriesOfAll(fs: Tree, walk: Walk, paths: seq<Rule>): seq<Entry> {
    if paths == [] then []
    else EntriesOfAll(fs, walk, paths[..|paths| - 1]) + EntriesOf(fs, walk, paths[|paths| - 1])
  }

  ghost predicate AllExist(fs: Tree, paths: seq<Rule>) {
    forall r :: r in paths ==> Trim(r.to) in fs
  }

  lemma EntriesExtend(fs: Tree, walk: Walk, paths: seq<Rule>, i: nat, additional: seq<Entry>)
    requires i < |paths|
    ensures additional + EntriesOfAll(fs, walk, paths[..i + 1]) ==
      additional + EntriesOfAll(fs, walk, paths[..i]) + EntriesOf(fs, walk, paths[i])
  {
    assert paths[..i + 1][..i] == paths[..i];
  }

  lemma AllExistStep(fs: Tree, paths: seq<Rule>, i: nat)
    requires i < |paths| && AllExist(fs, paths[..i])
    ensures paths[i] in paths && (AllExist(fs, paths[..i + 1]) <==> Trim(paths[i].to) in fs)
    ensures Trim(paths[i].to) !in fs ==> !AllExist(fs, paths)
  {
    assert paths[..i + 1] == paths[..i] + [paths[i]];
    assert paths[i] in paths;
  }

  /** Metadata, then the additional data, then the blueprint's lines in order; a missing
      local path aborts. */
  method ArchiveWriter(fs: Tree, walk: Walk, blueprint: Blueprint, additional: seq<Entry>)
    returns (res: Result<Archive, ArchivingError>)
    ensures res.Success? <==> AllExist(fs, blueprint.paths)
    ensures res.Success? ==>
      res.value == Archive(blueprint.version, additional + EntriesOfAll(fs, walk, blueprint.paths))
    ensures res.Failure? ==> exists r :: r in blueprint.paths && r.to == res.error.path && Trim(r.to) !in fs
  {
    var entries := additional;
    for i := 0 to |blueprint.paths|
      invariant AllExist(fs, blueprint.paths[..i])
      invariant entries == additional + EntriesOfAll(fs, walk, blueprint.paths[..i])
    {
      var line := blueprint.paths[i];
      AllExistStep(fs, blueprint.paths, i);
      if Trim(line.to) !in fs {
        return Failure(DoesNotExist(line.to));
      }
      EntriesExtend(fs, walk, blueprint.paths, i, additional);
      entries := entries + EntriesOf(fs, walk, line);
    }
    assert blueprint.paths[..|blueprint.paths|] == blueprint.paths;
    return Success(Archive(blueprint.version, entries));
  }

  // ---- what extraction leaves behind ----

  /** The entries with their final paths. */
  function Located(mappings: seq<Rule>, migrations: seq<Rule>, tmp: Path, entries: seq<Entry>): (es: seq<Entry>)
    ensures |es| == |entries|
    ensures forall i :: 0 <= i < |es| ==>
      es[i] == Entry(Location(mappings, tmp, Pass(migrations, entries[i].path)), entries[i].node)
  {
    seq(|entries|, i requires 0 <= i < |entries| =>
      Entry(Location(mappings, tmp, Pass(migrations, entries[i].path)), entries[i].node))
  }

  /** Unpacking them in order. */
  function Unpacked(located: seq<Entry>, onto: Tree): Tree {
    if located == [] then onto
    else
      var last := located[|located| - 1];
      Unpacked(located[..|located| - 1], onto)[last.path := last.node]
  }

  /** Of several entries for one path, the last one is what is found there. */
  lemma {:induction false} LastEntryWins(located: seq<Entry>, onto: Tree, i: nat)
    requires i < |located| && forall j :: i < j < |located| ==> located[j].path != located[i].path
    ensures Get(Unpacked(located, onto), located[i].path) == Some(located[i].node)
    ensures forall q :: (forall j :: 0 <= j < |located| ==> located[j].path != q) ==>
      Get(Unpacked(located, onto), q) == Get(onto, q)
  {
    var n := |located| - 1;
    if n > 0 {
      var init := located[..n];
      forall q | forall j :: 0 <= j < |located| ==> located[j].path != q
        ensures Get(Unpacked(located, onto), q) == Get(onto, q)
      {
        assert located[n].path != q;
        LeftAlone(init, onto, q);
      }
      if i < n { LastEntryWins(init, onto, i); }
    }
  }

  lemma {:induction false} LeftAlone(located: seq<Entry>, onto: Tree, q: Path)
    requires forall j :: 0 <= j < |located| ==> located[j].path != q
    ensures Get(Unpacked(located, onto), q) == Get(onto, q)
  {
    if located != [] {
      LeftAlone(located[..|located| - 1], onto, q);
      assert located[|located| - 1].path != q;
    }
  }

  /** Entries that agree on what they put at `q` determine what is found there. */
  lemma {:induction false} UnpackedAt(located: seq<Entry>, onto: Tree, q: Path, v: Node)
    requires forall e :: e in located && e.path == q ==> e.node == v
    ensures Get(Unpacked(located, onto), q) ==
      if exists e :: e in located && e.path == q then Some(v) else Get(onto, q)
  {
    if located != [] {
      var init, last := located[..|located| - 1], located[|located| - 1];
      assert located == init + [last];
      UnpackedAt(init, onto, q, v);
    }
  }

  /** The temporary directory is away from every local path. */
  ghost predicate TmpApart(paths: seq<Rule>, tmp: Path) {
    && tmp != "" && tmp[|tmp| - 1] != '/'
    && forall r :: r in paths ==> !Under(tmp, Trim(r.to)) && !Under(Trim(r.to), tmp)
  }

  /** Data added by the caller that no blueprint line claims. */
  ghost predicate Unclaimed(paths: seq<Rule>, entries: seq<Entry>) {
    forall e, r :: e in entries && r in paths ==> !AtOrUnder(r.from, e.path)
  }

  /** An archived entry names one node of the tree: the root, or one below it. */
  lemma EntryNamesNode(fs: Tree, walk: Walk, line: Rule, e: Entry) returns (x: Path)
    requires WalkOf(fs, walk) && e in EntriesOf(fs, walk, line)
    ensures Suffix(x) && Get(fs, Trim(line.to) + x) == Some(e.node)
    ensures e.path == Trim(line.from) + x || (x == "" && e.path == Trim(line.from) + "/")
  {
    var root := Trim(line.to);
    var es := EntriesOf(fs, walk, line);
    var k :| 0 <= k < |es| && es[k] == e;
    if k > 0 {
      x := WalkedEntry(fs, Trim(line.from), root, walk[root], k - 1);
    } else {
      x := "";
      RootEntry(fs, walk, line);
    }
  }

  lemma RootEntry(fs: Tree, walk: Walk, line: Rule)
    requires EntriesOf(fs, walk, line) != []
    ensures var e := EntriesOf(fs, walk, line)[0];
      && Get(fs, Trim(line.to) + "") == Some(e.node)
      && (e.path == Trim(line.from) + "" || e.path == Trim(line.from) + "/")
  {
    assert Trim(line.to) + "" == Trim(line.to) && Trim(line.from) + "" == Trim(line.from);
    Trimmed(line.from);
  }

  lemma WalkedEntry(fs: Tree, name: Path, root: Path, walk: seq<Path>, k: nat) returns (x: Path)
    requires WalksDir(fs, root, walk) && k < |walk|
    ensures var e := Walked(fs, name, root, walk)[k];
      Suffix(x) && x != "" && e.path == name + x && Get(fs, root + x) == Some(e.node)
  {
    x := walk[k];
    assert x in walk;
  }

  lemma Trimmed(p: Path)
    ensures p == Trim(p) || p == Trim(p) + "/"
  {
  }

  /** Each archived entry goes back to the very node it was made from. */
  lemma EntryGoesHome(fs: Tree, walk: Walk, paths: seq<Rule>, tmp: Path, i: nat, e: Entry)
    requires WalkOf(fs, walk) && ValidBlueprint(paths) && Consistent(paths)
    requires i < |paths| && e in EntriesOf(fs, walk, paths[i])
    ensures var q := Location(LongestFirst(paths), tmp, e.path);
      Get(fs, q) == Some(e.node) && Under(Trim(paths[i].to), q)
  {
    var x := EntryNamesNode(fs, walk, paths[i], e);
    if e.path == Trim(paths[i].from) + x {
      ConsistentMapsBack(paths, tmp, i, x);
    } else {
      ExactGoesHome(paths, tmp, i, e.path);
      assert Trim(paths[i].to) + x == Trim(paths[i].to);
    }
  }

  lemma ExactGoesHome(paths: seq<Rule>, tmp: Path, i: nat, p: Path)
    requires ValidBlueprint(paths) && Consistent(paths)
    requires i < |paths| && (p == Trim(paths[i].from) || p == Trim(paths[i].from) + "/")
    ensures Location(LongestFirst(paths), tmp, p) == Trim(paths[i].to)
  {
    var h := HitOf(paths, tmp, i, p);
    assert paths[h] in paths;
    var z := Trim(paths[h].from)[|Trim(paths[i].from)|..];
    assert z == "";
    assert Trim(paths[i].to) + z == Trim(paths[i].to);
    assert Trim(paths[h].from) == Trim(paths[i].from);
  }

  /** And each node below a local path is archived, under a name that leads back to it. */
  lemma NodeIsArchived(fs: Tree, walk: Walk, paths: seq<Rule>, tmp: Path, i: nat, q: Path) returns (e: Entry)
    requires WalkOf(fs, walk) && ValidBlueprint(paths) && Consistent(paths)
    requires i < |paths| && Trim(paths[i].to) in fs
    requires q in fs && Under(Trim(paths[i].to), q) && (fs[Trim(paths[i].to)].File? ==> q == Trim(paths[i].to))
    ensures e in EntriesOf(fs, walk, paths[i])
    ensures Location(LongestFirst(paths), tmp, e.path) == q
  {
    var root := Trim(paths[i].to);
    if q == root {
      e := RootIsArchived(fs, walk, paths[i]);
      ExactGoesHome(paths, tmp, i, e.path);
    } else {
      e := WalkedIsArchived(fs, walk, paths[i], q);
      ConsistentMapsBack(paths, tmp, i, q[|root|..]);
      assert q == root + q[|root|..];
    }
  }

  lemma RootIsArchived(fs: Tree, walk: Walk, line: Rule) returns (e: Entry)
    requires WalkOf(fs, walk) && Trim(line.to) in fs
    ensures e in EntriesOf(fs, walk, line) && (e.path == Trim(line.from) || e.path == Trim(line.from) + "/")
  {
    e := EntriesOf(fs, walk, line)[0];
    assert line.from == Trim(line.from) || line.from == Trim(line.from) + "/";
  }

  lemma WalkedIsArchived(fs: Tree, walk: Walk, line: Rule, q: Path) returns (e: Entry)
    requires WalkOf(fs, walk) && Trim(line.to) in fs && fs[Trim(line.to)].Dir?
    requires q in fs && Under(Trim(line.to), q) && q != Trim(line.to)
    ensures e in EntriesOf(fs, walk, line) && e.path == Trim(line.from) + q[|Trim(line.to)|..]
  {
    var root, name := Trim(line.to), Trim(line.from);
    var k := WalkReaches(fs, root, walk[root], q);
    var es := EntriesOf(fs, walk, line);
    DirEntries(fs, walk, line);
    e := Entry(name + walk[root][k], Get(fs, root + walk[root][k]).GetOr(Dir));
    assert es[k + 1] == e;
  }

  lemma DirEntries(fs: Tree, walk: Walk, line: Rule)
    requires Trim(line.to) in fs && fs[Trim(line.to)].Dir? && Trim(line.to) in walk
    ensures EntriesOf(fs, walk, line) ==
      [Entry(Trim(line.from) + "/", Dir)] + Walked(fs, Trim(line.from), Trim(line.to), walk[Trim(line.to)])
  {
  }

  lemma WalkReaches(fs: Tree, root: Path, walk: seq<Path>, q: Path) returns (k: nat)
    requires WalksDir(fs, root, walk) && q in fs && Under(root, q) && q != root
    ensures k < |walk| && walk[k] == q[|root|..]
  {
    assert q[|root|..] in walk;
    k :| k < |walk| && walk[k] == q[|root|..];
  }

  lemma {:induction false} EntryHasLine(fs: Tree, walk: Walk, paths: seq<Rule>, e: Entry) returns (i: nat)
    requires e in EntriesOfAll(fs, walk, paths)
    ensures i < |paths| && e in EntriesOf(fs, walk, paths[i])
  {
    if e in EntriesOf(fs, walk, paths[|paths| - 1]) {
      i := |paths| - 1;
    } else {
      i := EntryHasLine(fs, walk, paths[..|paths| - 1], e);
    }
  }

  lemma {:induction false} LineIsIncluded(fs: Tree, walk: Walk, paths: seq<Rule>, i: nat, e: Entry)
    requires i < |paths| && e in EntriesOf(fs, walk, paths[i])
    ensures e in EntriesOfAll(fs, walk, paths)
  {
    if i < |paths| - 1 {
      LineIsIncluded(fs, walk, paths[..|paths| - 1], i, e);
    }
  }

  /** Nothing lies below a file. */
  ghost predicate FilesAreLeaves(fs: Tree) {
    forall p, q :: p in fs && q in fs && fs[p].File? && Under(p, q) ==> q == p
  }

  ghost predicate Archivable(fs: Tree, walk: Walk, paths: seq<Rule>) {
    && WalkOf(fs, walk) && FilesAreLeaves(fs) && AllExist(fs, paths)
    && ValidBlueprint(paths) && Consistent(paths)
  }

  /** An entry no line claims is unpacked in the temporary directory. */
  lemma UnclaimedGoesToTmp(paths: seq<Rule>, tmp: Path, p: Path)
    requires ValidBlueprint(paths) && tmp != "" && tmp[|tmp| - 1] != '/'
    requires forall r :: r in paths ==> !AtOrUnder(r.from, p)
    ensures Place(LongestFirst(paths), p).dst.None?
    ensures Location(LongestFirst(paths), tmp, p) == tmp + "/" + p
  {
    LongestFirstKeepsRules(paths);
    assert forall r :: r in LongestFirst(paths) ==> !AtOrUnder(r.from, p);
  }

  /** A claimed one never is. */
  lemma ClaimedIsPlaced(paths: seq<Rule>, i: nat, p: Path)
    requires i < |paths| && AtOrUnder(paths[i].from, p)
    ensures Place(LongestFirst(paths), p).dst.Some?
  {
    var k, h := SortedHit(paths, i, p);
  }

  /** The final paths of a backup's entries, extracted at the version it was made with. */
  function HomePaths(paths: seq<Rule>, tmp: Path, entries: seq<Entry>): seq<Entry> {
    Located(LongestFirst(paths), [], tmp, entries)
  }

  lemma HomeOf(fs: Tree, walk: Walk, paths: seq<Rule>, tmp: Path, additional: seq<Entry>, located: Entry)
    requires Archivable(fs, walk, paths) && TmpApart(paths, tmp) && Unclaimed(paths, additional)
    requires located in HomePaths(paths, tmp, additional + EntriesOfAll(fs, walk, paths))
    ensures Under(tmp, located.path) ||
      (&& Get(fs, located.path) == Some(located.node)
       && exists i :: 0 <= i < |paths| && Under(Trim(paths[i].to), located.path))
  {
    var entries := additional + EntriesOfAll(fs, walk, paths);
    var e := LocatedFrom(paths, tmp, entries, located);
    if e in additional {
      AdditionalGoesToTmp(paths, tmp, additional, e);
    } else {
      ArchivedGoesHome(fs, walk, paths, tmp, e);
    }
  }

  lemma AdditionalGoesToTmp(paths: seq<Rule>, tmp: Path, additional: seq<Entry>, e: Entry)
    requires ValidBlueprint(paths) && TmpApart(paths, tmp) && Unclaimed(paths, additional) && e in additional
    ensures Under(tmp, Location(LongestFirst(paths), tmp, e.path))
  {
    UnclaimedGoesToTmp(paths, tmp, e.path);
  }

  lemma ArchivedGoesHome(fs: Tree, walk: Walk, paths: seq<Rule>, tmp: Path, e: Entry)
    requires Archivable(fs, walk, paths) && e in EntriesOfAll(fs, walk, paths)
    ensures var q := Location(LongestFirst(paths), tmp, e.path);
      Get(fs, q) == Some(e.node) && exists i :: 0 <= i < |paths| && Under(Trim(paths[i].to), q)
  {
    var i := EntryHasLine(fs, walk, paths, e);
    EntryGoesHome(fs, walk, paths, tmp, i, e);
  }

  lemma LocatedFrom(paths: seq<Rule>, tmp: Path, entries: seq<Entry>, located: Entry) returns (e: Entry)
    requires located in HomePaths(paths, tmp, entries)
    ensures e in entries && located == Entry(Location(LongestFirst(paths), tmp, e.path), e.node)
  {
    var es := HomePaths(paths, tmp, entries);
    var k :| 0 <= k < |es| && es[k] == located;
    e := entries[k];
    assert Pass([], e.path) == e.path;
  }

  lemma HomeHasNode(fs: Tree, walk: Walk, paths: seq<Rule>, tmp: Path, additional: seq<Entry>, i: nat, q: Path)
    requires Archivable(fs, walk, paths)
    requires i < |paths| && Under(Trim(paths[i].to), q) && q in fs
    ensures exists e :: e in HomePaths(paths, tmp, additional + EntriesOfAll(fs, walk, paths)) && e.path == q
  {
    var entries := additional + EntriesOfAll(fs, walk, paths);
    var es := HomePaths(paths, tmp, entries);
    assert paths[i] in paths;
    var e := NodeIsArchived(fs, walk, paths, tmp, i, q);
    LineIsIncluded(fs, walk, paths, i, e);
    assert e in entries;
    var k :| 0 <= k < |entries| && entries[k] == e;
    assert Pass([], e.path) == e.path;
    assert es[k] in es;
  }

  lemma LocalIsOutsideTmp(paths: seq<Rule>, tmp: Path, i: nat, q: Path)
    requires TmpApart(paths, tmp) && i < |paths| && Under(Trim(paths[i].to), q)
    ensures !Under(tmp, q)
  {
    assert paths[i] in paths;
    if Under(tmp, q) { CommonPathNests(tmp, Trim(paths[i].to), q); }
  }

  /** Backup, then restore: below every local path of the blueprint, exactly the archived
      nodes come back, each with its contents, and nothing else does. */
  lemma RestoresTheTree(fs: Tree, walk: Walk, paths: seq<Rule>, tmp: Path, additional: seq<Entry>, onto: Tree, i: nat,
                        q: Path)
    requires Archivable(fs, walk, paths) && TmpApart(paths, tmp) && Unclaimed(paths, additional)
    requires i < |paths| && Under(Trim(paths[i].to), q) && q !in onto
    ensures Get(Unpacked(HomePaths(paths, tmp, additional + EntriesOfAll(fs, walk, paths)), onto), q) == Get(fs, q)
  {
    var es := HomePaths(paths, tmp, additional + EntriesOfAll(fs, walk, paths));
    LocalIsOutsideTmp(paths, tmp, i, q);
    forall e | e in es && e.path == q ensures Get(fs, q) == Some(e.node) {
      HomeOf(fs, walk, paths, tmp, additional, e);
    }
    UnpackedAt(es, onto, q, Get(fs, q).GetOr(Dir));
    if q in fs {
      HomeHasNode(fs, walk, paths, tmp, additional, i, q);
    }
  }

  /** Elsewhere nothing is written, except in the temporary directory. */
  lemma RestoreStaysHome(fs: Tree, walk: Walk, paths: seq<Rule>, tmp: Path, additional: seq<Entry>, onto: Tree, q: Path)
    requires Archivable(fs, walk, paths) && TmpApart(paths, tmp) && Unclaimed(paths, additional)
    requires !Under(tmp, q) && forall i :: 0 <= i < |paths| ==> !Under(Trim(paths[i].to), q)
    ensures Get(Unpacked(HomePaths(paths, tmp, additional + EntriesOfAll(fs, walk, paths)), onto), q) == Get(onto, q)
  {
    var es := HomePaths(paths, tmp, additional + EntriesOfAll(fs, walk, paths));
    forall e | e in es ensures e.path != q {
      HomeOf(fs, walk, paths, tmp, additional, e);
    }
    UnpackedAt(es, onto, q, Dir);
  }

  /** Extra data is reported exactly when the backup holds some that no line claims. */
  ghost predicate IsPartial(mappings: seq<Rule>, migrations: seq<Rule>, entries: seq<Entry>) {
    exists e :: e in entries && Place(mappings, Pass(migrations, e.path)).dst.None?
  }

  lemma PartialIffAdditional(fs: Tree, walk: Walk, paths: seq<Rule>, additional: seq<Entry>)
    requires Archivable(fs, walk, paths) && Unclaimed(paths, additional)
    ensures IsPartial(LongestFirst(paths), [], additional + EntriesOfAll(fs, walk, paths)) <==> additional != []
  {
    var entries := additional + EntriesOfAll(fs, walk, paths);
    forall e | e in entries
      ensures Pass([], e.path) == e.path
      ensures Place(LongestFirst(paths), e.path).dst.None? <==> e in additional
    {
      if e in additional {
        UnclaimedGoesToTmp(paths, "/tmp", e.path);
      } else {
        var i := EntryHasLine(fs, walk, paths, e);
        var x := EntryNamesNode(fs, walk, paths[i], e);
        ClaimedIsPlaced(paths, i, e.path);
      }
    }
    if additional != [] {
      assert additional[0] in entries;
    }
  }
}
