/** Restoring a backup: destinations are moved aside, entries extracted, and a guard
    undoes everything unless it was defused. */
module Restoration {
  import opened Paths
  import opened Wrappers
  import opened Migrations
  import opened Archiving
  import opened FileTrees
  import Steps

  // ---- destinations and the names they may be moved to ----

  function Destinations(mappings: seq<Rule>): (ds: seq<Path>)
    ensures |ds| == |mappings|
    ensures forall i :: 0 <= i < |ds| ==> ds[i] == Trim(mappings[i].to)
  {
    seq(|mappings|, i requires 0 <= i < |mappings| => Trim(mappings[i].to))
  }

  function Stamped(d: Path, stamp: string): Path { d + "." + stamp + ".bak" }

  /** A destination and the two names it may be moved aside to. */
  predicate NameOf(d: Path, stamp: string, p: Path) {
    p == d || p == d + ".bak" || p == Stamped(d, stamp)
  }

  /** Destinations, and the names they may be moved aside to, are pairwise apart. */
  ghost predicate Separate(ds: seq<Path>, stamp: string) {
    forall i, j, p, q ::
      0 <= i < |ds| && 0 <= j < |ds| && i != j && NameOf(ds[i], stamp, p) && NameOf(ds[j], stamp, q) ==>
      Disjoint(p, q)
  }

  ghost predicate ValidDestinations(before: Tree, ds: seq<Path>, stamp: string) {
    && Separate(ds, stamp)
    && (forall i :: 0 <= i < |ds| ==> ValidLocal(ds[i]) && Trim(ds[i]) == ds[i])
    && (forall i :: 0 <= i < |ds| ==> !Exists(before, Stamped(ds[i], stamp)))
    && (forall i :: 0 <= i < |stamp| ==> stamp[i] != '/')
  }

  /** The directories above the destinations. */
  function ParentDirs(ds: seq<Path>): set<Path> {
    set i, q | 0 <= i < |ds| && q in Ancestors(Parent(ds[i])) :: q
  }

  lemma AncestorOfParent(d: Path, q: Path)
    requires d != "" && d[|d| - 1] != '/' && q in Ancestors(Parent(d))
    ensures |q| < |d| && (q == "/" || Under(q, d))
  {
    var k := LastSlash(d);
    var parent := Parent(d);
    var i :| 1 <= i <= |parent| && (i == |parent| || parent[i] == '/') && q == parent[..i];
    assert parent == d[..|parent|];
  }

  lemma NamesApart(d: Path, stamp: string, b: Path)
    requires NameOf(d, stamp, b) && b != d
    requires forall i :: 0 <= i < |stamp| ==> stamp[i] != '/'
    ensures Disjoint(d, b)
  {
    assert b[|d|] == '.';
  }

  /** No directory above a destination is at or under a destination or a moved-aside name. */
  lemma ParentsOutside(before: Tree, ds: seq<Path>, stamp: string, i: nat, p: Path, q: Path)
    requires ValidDestinations(before, ds, stamp)
    requires i < |ds| && NameOf(ds[i], stamp, p) && q in ParentDirs(ds)
    ensures !Under(p, q)
  {
    var j :| 0 <= j < |ds| && q in Ancestors(Parent(ds[j]));
    AncestorOfParent(ds[j], q);
    assert NameOf(ds[j], stamp, ds[j]);
    assert i != j ==> Disjoint(p, ds[j]);
    if Under(p, q) && q != "/" {
      UnderTransitive(p, q, ds[j]);
    }
  }

  /** The entries saved so far are those of the first destinations. */
  ghost predicate SavedFrom(ds: seq<Path>, stamp: string, saved: seq<Saved>) {
    && |saved| <= |ds|
    && forall i :: 0 <= i < |saved| ==>
         && saved[i].path == ds[i]
         && (saved[i].backup.Some? ==> saved[i].backup.value != ds[i] && NameOf(ds[i], stamp, saved[i].backup.value))
  }

  lemma NextIsApart(before: Tree, ds: seq<Path>, stamp: string, saved: seq<Saved>, p: Path)
    requires ValidDestinations(before, ds, stamp) && SavedFrom(ds, stamp, saved)
    requires |saved| < |ds| && NameOf(ds[|saved|], stamp, p)
    ensures ApartFromAll(saved, p)
  {
    var k := |saved|;
    forall i | 0 <= i < k
      ensures Disjoint(saved[i].path, p) && (saved[i].backup.Some? ==> Disjoint(saved[i].backup.value, p))
    {
      assert NameOf(ds[i], stamp, saved[i].path);
    }
  }

  lemma ParentsUntouched(before: Tree, ds: seq<Path>, stamp: string, saved: seq<Saved>, q: Path)
    requires ValidDestinations(before, ds, stamp) && SavedFrom(ds, stamp, saved) && q in ParentDirs(ds)
    ensures Untouched(saved, q)
  {
    forall i | 0 <= i < |saved| ensures !Touches(saved[i], q) {
      ParentsOutside(before, ds, stamp, i, ds[i], q);
      if saved[i].backup.Some? {
        ParentsOutside(before, ds, stamp, i, saved[i].backup.value, q);
      }
    }
  }

  /** The chosen name is free. */
  lemma BackupNameIsFree(before: Tree, t: Tree, ds: seq<Path>, stamp: string, saved: seq<Saved>)
    requires ValidDestinations(before, ds, stamp) && SavedFrom(ds, stamp, saved) && |saved| < |ds|
    requires MovedAside(before, t, saved, ParentDirs(ds))
    ensures var b := BackupName(t, ds[|saved|], stamp);
      NameOf(ds[|saved|], stamp, b) && b != ds[|saved|] && !Exists(t, b)
  {
    var d := ds[|saved|];
    var b := BackupName(t, d, stamp);
    if Exists(t, d + ".bak") {
      NextIsApart(before, ds, stamp, saved, b);
      forall q | q in t ensures !Under(b, q) {
        if Under(b, q) {
          ApartMeansUntouched(saved, b, q);
          assert SameOrDir(before, t, ParentDirs(ds), q);
          assert q !in before;
          ParentsOutside(before, ds, stamp, |saved|, b, q);
        }
      }
    }
  }

  // ---- the file system and the guard ----

  /** `rename` accepts a free name, a file over a file and a directory over an empty one. */
  predicate CanRename(t: Tree, a: Path, b: Path) {
    !Exists(t, b) || (a in t && b in t && t[a].Dir? == t[b].Dir? && forall q :: q in t && Under(b, q) ==> q == b)
  }

  function Rename(t: Tree, a: Path, b: Path): Tree { MoveTree(RemoveTree(t, b), a, b) }

  lemma RenameToFree(t: Tree, a: Path, b: Path)
    requires !Exists(t, b)
    ensures Rename(t, a, b) == MoveTree(t, a, b)
  {
    assert RemoveTree(t, b) == t;
  }

  /** The children of a directory, in whatever order the system lists them. */
  predicate IsListing(t: Tree, d: Path, children: seq<Path>) {
    && (d in t ==> t[d].Dir?)
    && (forall i, j :: 0 <= i < j < |children| ==> children[i] != children[j])
    && (forall c :: c in children ==> IsChild(d, c) && Exists(t, c))
    && (forall q :: q in t && Under(d, q) && q != d ==> exists c :: c in children && Under(c, q))
  }

  predicate IsChild(d: Path, c: Path) {
    Under(d, c) && |c| > |d| + 1 && forall i :: |d| < i < |c| ==> c[i] != '/'
  }

  /** `mounts` are the paths that are not on the device of their parent. */
  class FileSystem {
    var nodes: Tree
    const mounts: set<Path>

    constructor (nodes: Tree, mounts: set<Path>)
      ensures this.nodes == nodes && this.mounts == mounts
    {
      this.nodes, this.mounts := nodes, mounts;
    }

    /** Renames a path to its moved-aside name; a failure changes nothing.  Here and below
        `works` says that the system does what it is asked; where it does not, a step may
        fail. */
    method BackupPath(path: Path, stamp: string, works: bool) returns (res: Option<Path>)
      modifies this
      ensures works && Exists(old(nodes), path) && CanRename(old(nodes), path, BackupName(old(nodes), path, stamp)) ==>
        res.Some?
      ensures res == None ==> nodes == old(nodes)
      ensures res.Some? ==> Exists(old(nodes), path) && CanRename(old(nodes), path, res.value)
      ensures res.Some? ==> res.value == BackupName(old(nodes), path, stamp)
      ensures res.Some? ==> nodes == Rename(old(nodes), path, res.value)
    {
      var fails: bool := *;
      var b := BackupName(nodes, path, stamp);
      if (!works && fails) || !Exists(nodes, path) || !CanRename(nodes, path, b) { return None; }
      nodes := Rename(nodes, path, b);
      return Some(b);
    }

    method ReadDir(path: Path) returns (res: Option<seq<Path>>)
      ensures res.Some? ==> IsListing(nodes, path, res.value)
    {
      var children: seq<Path> := *;
      if IsListing(nodes, path, children) { return Some(children); }
      return None;
    }

    /** A failure may leave some of the directories. */
    method CreateDirAll(path: Path, works: bool) returns (ok: bool, ghost made: set<Path>)
      modifies this
      ensures works ==> ok
      ensures made <= Ancestors(path) && (ok ==> made == Ancestors(path)) && nodes == WithDirs(old(nodes), made)
    {
      ok := *;
      ok := ok || works;
      var some: set<Path> := *;
      var made' := if ok then Ancestors(path) else Ancestors(path) * some;
      nodes := WithDirs(nodes, made');
      made := made';
    }

    /** Unpacks a node at a path; a failure may leave the beginning of a file behind. */
    method Unpack(path: Path, node: Node, works: bool) returns (ok: bool)
      modifies this
      ensures works ==> ok
      ensures ok ==> nodes == old(nodes)[path := node]
      ensures forall q :: q != path ==> Get(nodes, q) == Get(old(nodes), q)
    {
      ok := *;
      ok := ok || works;
      if ok {
        nodes := nodes[path := node];
      } else if node.File? {
        var written: int := *;
        if 0 <= written <= |node.data| {
          nodes := nodes[path := File(node.data[..written])];
        }
      }
    }
  }

  class RevertGuard {
    var paths: seq<Saved>
    var isDefused: bool

    constructor ()
      ensures paths == [] && !isDefused
    {
      paths, isDefused := [], false;
    }

    /** Dropping a defused guard deletes the moved-aside copies; dropping a live one
        reverts. */
    method Drop(fs: FileSystem)
      modifies fs
      ensures fs.nodes == if isDefused then Discarded(old(fs.nodes), paths) else Reverted(old(fs.nodes), paths)
    {
      var i := 0;
      if isDefused {
        while i < |paths|
          invariant 0 <= i <= |paths|
          invariant Discarded(fs.nodes, paths[i..]) == Discarded(old(fs.nodes), paths)
        {
          fs.nodes := DiscardOne(fs.nodes, paths[i]);
          i := i + 1;
        }
      } else {
        while i < |paths|
          invariant 0 <= i <= |paths|
          invariant Reverted(fs.nodes, paths[i..]) == Reverted(old(fs.nodes), paths)
        {
          fs.nodes := RevertOne(fs.nodes, paths[i]);
          i := i + 1;
        }
      }
    }
  }

  function DiscardOne(t: Tree, s: Saved): Tree {
    if s.backup.Some? then RemoveTree(t, s.backup.value) else t
  }

  function Discarded(t: Tree, saved: seq<Saved>): Tree
    decreases |saved|
  {
    if saved == [] then t else Discarded(DiscardOne(t, saved[0]), saved[1..])
  }

  lemma {:induction false} DiscardedAt(t: Tree, saved: seq<Saved>, q: Path)
    ensures Get(Discarded(t, saved), q) ==
      if exists i :: 0 <= i < |saved| && saved[i].backup.Some? && Under(saved[i].backup.value, q) then None
        else Get(t, q)
    decreases |saved|
  {
    if saved != [] {
      DiscardedAt(DiscardOne(t, saved[0]), saved[1..], q);
      assert forall i :: 0 < i < |saved| ==> saved[i] == saved[1..][i - 1];
    }
  }

  // ---- moving aside ----

  /** What happens to one path: it is moved aside if it exists, and otherwise the
      directories above it are made. */
  function MoveOne(t: Tree, d: Path, stamp: string): (Tree, Saved) {
    var b := BackupName(t, d, stamp);
    if Exists(t, d) then (Rename(t, d, b), Saved(d, Some(b)))
    else (CreateDirs(t, Parent(d)), Saved(d, None))
  }

  /** Where there is nothing at a destination, every directory above it is there afterwards,
      as it was before if there was something; and nothing else is new. */
  lemma DirectoriesAreMade(t: Tree, d: Path, stamp: string, q: Path)
    requires !Exists(t, d)
    ensures var made := MoveOne(t, d, stamp).0;
      && (forall i :: 1 <= i < |d| && d[i] == '/' ==> d[..i] in made)
      && (q in t ==> q in made && made[q] == t[q])
      && (q in made && q !in t ==> made[q] == Dir && (q == "/" || (Under(q, d) && q != d)))
  {
    var parent, made := Parent(d), MoveOne(t, d, stamp).0;
    forall i | 1 <= i < |d| && d[i] == '/' ensures d[..i] in made {
      assert i <= LastSlash(d);
      assert parent[..i] == d[..i];
      assert d[..i] in Ancestors(parent);
    }
    if q in made && q !in t {
      var i :| 1 <= i <= |parent| && (i == |parent| || parent[i] == '/') && q == parent[..i];
      if q != "/" {
        assert parent == d[..|parent|] && d[i] == '/';
      }
    }
  }

  function Mover(stamp: string): (Tree, Path) -> Tree { (t, d) => MoveOne(t, d, stamp).0 }

  function Recorder(stamp: string): (Tree, Path) -> Saved { (t, d) => MoveOne(t, d, stamp).1 }

  /** The tree after moving paths aside one after the other. */
  function Aside(before: Tree, roots: seq<Path>, stamp: string): Tree {
    Steps.After(Mover(stamp), before, roots, |roots|)
  }

  /** ... and the entries of the guard. */
  function SavedAll(before: Tree, roots: seq<Path>, stamp: string): seq<Saved> {
    Steps.Records(Mover(stamp), Recorder(stamp), before, roots)
  }

  ghost predicate SavedSoFar(t: Tree, saved: seq<Saved>, before: Tree, roots: seq<Path>, stamp: string) {
    t == Aside(before, roots, stamp) && saved == SavedAll(before, roots, stamp)
  }

  lemma OneMore(before: Tree, roots: seq<Path>, d: Path, stamp: string)
    ensures var moved := MoveOne(Aside(before, roots, stamp), d, stamp);
      && Aside(before, roots + [d], stamp) == moved.0
      && SavedAll(before, roots + [d], stamp) == SavedAll(before, roots, stamp) + [moved.1]
  {
    Steps.OneMore(Mover(stamp), Recorder(stamp), before, roots, d);
  }

  /** A destination on its own mount stands for its children, and `/`, which has no parent
      (and no name here), for nothing if it exists. */
  ghost predicate IsPart(t: Tree, d: Path, mounts: set<Path>, part: seq<Path>) {
    if Exists(t, d) && d == "" then part == []
    else if Exists(t, d) && d in mounts then IsListing(t, d, part)
    else part == [d]
  }

  ghost function Parts(mounts: set<Path>): (Tree, Path, seq<Path>) -> bool {
    (t, d, part) => IsPart(t, d, mounts, part)
  }

  /** `roots` are the paths moved aside for these destinations. */
  ghost predicate Unfolds(before: Tree, ds: seq<Path>, mounts: set<Path>, stamp: string, roots: seq<Path>) {
    Steps.Unfolds(Mover(stamp), Parts(mounts), before, ds, roots)
  }

  /** ... for the first of them, the last perhaps in part. */
  ghost predicate Partly(before: Tree, ds: seq<Path>, mounts: set<Path>, stamp: string, roots: seq<Path>) {
    Steps.Partly(Mover(stamp), Parts(mounts), before, ds, roots)
  }

  /** No destination is on its own mount, as `/` is. */
  ghost predicate Unmounted(ds: seq<Path>, mounts: set<Path>) {
    forall d :: d in ds ==> d !in mounts && d != ""
  }

  lemma UnmountedRoots(before: Tree, ds: seq<Path>, mounts: set<Path>, stamp: string, roots: seq<Path>)
    requires Unmounted(ds, mounts) && Unfolds(before, ds, mounts, stamp, roots)
    ensures roots == ds
  {
    Steps.StandForThemselves(Mover(stamp), Parts(mounts), before, ds, roots);
  }

  lemma UnmountedPartly(before: Tree, ds: seq<Path>, mounts: set<Path>, stamp: string, roots: seq<Path>)
    requires Unmounted(ds, mounts) && Partly(before, ds, mounts, stamp, roots)
    ensures |roots| <= |ds| && roots == ds[..|roots|]
  {
    Steps.PartlyThemselves(Mover(stamp), Parts(mounts), before, ds, roots);
  }

  /** Paths that were saved, and then perhaps some directories on the way to the next one. */
  ghost predicate SavedButDirs(t: Tree, saved: seq<Saved>, before: Tree, roots: seq<Path>, stamp: string,
                               dirs: set<Path>) {
    && saved == SavedAll(before, roots, stamp)
    && exists made :: made <= dirs && t == WithDirs(Aside(before, roots, stamp), made)
  }

  lemma SavedNoDirs(t: Tree, saved: seq<Saved>, before: Tree, roots: seq<Path>, stamp: string, dirs: set<Path>)
    requires SavedSoFar(t, saved, before, roots, stamp)
    ensures SavedButDirs(t, saved, before, roots, stamp, dirs)
  {
    assert t == WithDirs(t, {});
  }

  /** One path; a failure leaves the guard as it was, and in the tree at most some of the
      directories on the way. */
  method SaveOne(fs: FileSystem, guard: RevertGuard, d: Path, stamp: string, works: bool)
    returns (ok: bool, ghost made: set<Path>)
    modifies fs, guard`paths
    ensures !ok ==> guard.paths == old(guard.paths)
    ensures !ok ==> made <= Ancestors(Parent(d)) && fs.nodes == WithDirs(old(fs.nodes), made)
    ensures ok ==> fs.nodes == MoveOne(old(fs.nodes), d, stamp).0
    ensures ok ==> guard.paths == old(guard.paths) + [MoveOne(old(fs.nodes), d, stamp).1]
    ensures works && CanMove(old(fs.nodes), d, stamp) ==> ok
  {
    made := {};
    if Exists(fs.nodes, d) {
      var bak := fs.BackupPath(d, stamp, works);
      if bak == None {
        assert fs.nodes == WithDirs(fs.nodes, {});
        return false, {};
      }
      guard.paths := guard.paths + [Saved(d, bak)];
    } else {
      var created;
      created, made := fs.CreateDirAll(Parent(d), works);
      if !created { return false, made; }
      guard.paths := guard.paths + [Saved(d, None)];
    }
    return true, made;
  }

  lemma SavedMore(t: Tree, saved: seq<Saved>, t': Tree, saved': seq<Saved>, before: Tree, roots: seq<Path>, d: Path,
                  stamp: string)
    requires SavedSoFar(t, saved, before, roots, stamp)
    requires t' == MoveOne(t, d, stamp).0 && saved' == saved + [MoveOne(t, d, stamp).1]
    ensures SavedSoFar(t', saved', before, roots + [d], stamp)
  {
    OneMore(before, roots, d, stamp);
  }

  method SaveChild(fs: FileSystem, guard: RevertGuard, child: Path, stamp: string, works: bool) returns (ok: bool)
    modifies fs, guard`paths
    ensures !ok ==> fs.nodes == old(fs.nodes) && guard.paths == old(guard.paths)
    ensures ok ==> fs.nodes == MoveOne(old(fs.nodes), child, stamp).0
    ensures ok ==> guard.paths == old(guard.paths) + [MoveOne(old(fs.nodes), child, stamp).1]
  {
    var bak := fs.BackupPath(child, stamp, works);
    ok := bak.Some?;
    if ok { guard.paths := guard.paths + [Saved(child, bak)]; }
  }

  /** The children of a destination that is on its own mount, one by one. */
  method SaveChildren(fs: FileSystem, guard: RevertGuard, children: seq<Path>, stamp: string, works: bool,
                      ghost before: Tree, ghost roots: seq<Path>)
    returns (ok: bool, ghost n: nat)
    requires SavedSoFar(fs.nodes, guard.paths, before, roots, stamp)
    modifies fs, guard`paths
    ensures n <= |children| && (ok ==> n == |children|)
    ensures SavedSoFar(fs.nodes, guard.paths, before, roots + children[..n], stamp)
  {
    assert roots + children[..0] == roots;
    for k := 0 to |children|
      invariant SavedSoFar(fs.nodes, guard.paths, before, roots + children[..k], stamp)
    {
      ghost var t, saved := fs.nodes, guard.paths;
      ok := SaveChild(fs, guard, children[k], stamp, works);
      if !ok { return false, k; }
      SavedMore(t, saved, fs.nodes, guard.paths, before, roots + children[..k], children[k], stamp);
      assert roots + children[..k] + [children[k]] == roots + children[..k + 1];
    }
    return true, |children|;
  }

  lemma UnfoldsStep(before: Tree, ds: seq<Path>, mounts: set<Path>, stamp: string, roots: seq<Path>, k: nat,
                    part: seq<Path>)
    requires k < |ds| && Unfolds(before, ds[..k], mounts, stamp, roots)
    requires IsPart(Aside(before, roots, stamp), ds[k], mounts, part)
    ensures Unfolds(before, ds[..k + 1], mounts, stamp, roots + part)
  {
    Steps.UnfoldsStep(Mover(stamp), Parts(mounts), before, ds, roots, k, part);
  }

  lemma UnfoldsPartly(before: Tree, ds: seq<Path>, mounts: set<Path>, stamp: string, roots: seq<Path>, k: nat,
                      part: seq<Path>, m: nat)
    requires k < |ds| && Unfolds(before, ds[..k], mounts, stamp, roots) && m <= |part|
    requires m > 0 ==> IsPart(Aside(before, roots, stamp), ds[k], mounts, part)
    ensures Partly(before, ds, mounts, stamp, roots + part[..m])
  {
    Steps.UnfoldsPartly(Mover(stamp), Parts(mounts), before, ds, roots, k, part, m);
  }

  /** The next destination has been dealt with, or the attempt ended somewhere in it. */
  ghost predicate SavedNext(t: Tree, saved: seq<Saved>, before: Tree, ds: seq<Path>, k: nat, mounts: set<Path>,
                            stamp: string, all: seq<Path>, ok: bool)
    requires k < |ds|
  {
    if ok then SavedSoFar(t, saved, before, all, stamp) && Unfolds(before, ds[..k + 1], mounts, stamp, all)
    else SavedButDirs(t, saved, before, all, stamp, ParentDirs(ds)) && Partly(before, ds, mounts, stamp, all)
  }

  lemma NothingMore(before: Tree, ds: seq<Path>, mounts: set<Path>, stamp: string, roots: seq<Path>, k: nat)
    requires k < |ds| && Unfolds(before, ds[..k], mounts, stamp, roots)
    ensures Partly(before, ds, mounts, stamp, roots)
  {
    UnfoldsPartly(before, ds, mounts, stamp, roots, k, [], 0);
    assert roots + [][..0] == roots;
  }

  lemma ChildrenSaved(t: Tree, saved: seq<Saved>, before: Tree, ds: seq<Path>, mounts: set<Path>, stamp: string,
                      roots: seq<Path>, k: nat, children: seq<Path>, n: nat)
    requires k < |ds| && Unfolds(before, ds[..k], mounts, stamp, roots) && n <= |children|
    requires IsPart(Aside(before, roots, stamp), ds[k], mounts, children)
    requires SavedSoFar(t, saved, before, roots + children[..n], stamp)
    ensures SavedNext(t, saved, before, ds, k, mounts, stamp, roots + children[..n], false)
    ensures n == |children| ==> SavedNext(t, saved, before, ds, k, mounts, stamp, roots + children[..n], true)
  {
    SavedNoDirs(t, saved, before, roots + children[..n], stamp, ParentDirs(ds));
    UnfoldsPartly(before, ds, mounts, stamp, roots, k, children, n);
    if n == |children| {
      assert children[..n] == children;
      UnfoldsStep(before, ds, mounts, stamp, roots, k, children);
    }
  }

  method SaveMounted(fs: FileSystem, guard: RevertGuard, ds: seq<Path>, k: nat, stamp: string, works: bool,
                     ghost before: Tree, ghost roots: seq<Path>)
    returns (ok: bool, ghost all: seq<Path>)
    requires k < |ds| && Unfolds(before, ds[..k], fs.mounts, stamp, roots)
    requires SavedSoFar(fs.nodes, guard.paths, before, roots, stamp)
    requires Exists(fs.nodes, ds[k]) && ds[k] in fs.mounts && ds[k] != ""
    modifies fs, guard`paths
    ensures SavedNext(fs.nodes, guard.paths, before, ds, k, fs.mounts, stamp, all, ok)
  {
    var listing := fs.ReadDir(ds[k]);
    if listing == None {
      NothingMore(before, ds, fs.mounts, stamp, roots, k);
      SavedNoDirs(fs.nodes, guard.paths, before, roots, stamp, ParentDirs(ds));
      return false, roots;
    }
    assert IsPart(Aside(before, roots, stamp), ds[k], fs.mounts, listing.value);
    ghost var n;
    ok, n := SaveChildren(fs, guard, listing.value, stamp, works, before, roots);
    ChildrenSaved(fs.nodes, guard.paths, before, ds, fs.mounts, stamp, roots, k, listing.value, n);
    all := roots + listing.value[..n];
  }

  /** `works` and a name that can be taken are enough. */
  method SavePlain(fs: FileSystem, guard: RevertGuard, ds: seq<Path>, k: nat, stamp: string, works: bool,
                   ghost before: Tree, ghost roots: seq<Path>)
    returns (ok: bool, ghost all: seq<Path>)
    requires k < |ds| && Unfolds(before, ds[..k], fs.mounts, stamp, roots)
    requires SavedSoFar(fs.nodes, guard.paths, before, roots, stamp)
    requires !Exists(fs.nodes, ds[k]) || (ds[k] !in fs.mounts && ds[k] != "")
    modifies fs, guard`paths
    ensures SavedNext(fs.nodes, guard.paths, before, ds, k, fs.mounts, stamp, all, ok)
    ensures works && CanMove(old(fs.nodes), ds[k], stamp) ==> ok
  {
    UnfoldsStep(before, ds, fs.mounts, stamp, roots, k, [ds[k]]);
    ghost var t, saved := fs.nodes, guard.paths;
    ghost var made;
    ok, made := SaveOne(fs, guard, ds[k], stamp, works);
    if ok {
      SavedMore(t, saved, fs.nodes, guard.paths, before, roots, ds[k], stamp);
      all := roots + [ds[k]];
    } else {
      NothingMore(before, ds, fs.mounts, stamp, roots, k);
      AncestorsAreParents(ds, k, made);
      all := roots;
    }
  }

  predicate CanMove(t: Tree, d: Path, stamp: string) {
    Exists(t, d) ==> CanRename(t, d, BackupName(t, d, stamp))
  }

  lemma AncestorsAreParents(ds: seq<Path>, k: nat, made: set<Path>)
    requires k < |ds| && made <= Ancestors(Parent(ds[k]))
    ensures made <= ParentDirs(ds)
  {
  }

  /** Moves every existing destination aside and makes the directories above the others; the
      children of a destination on its own mount are moved instead, and `/` is skipped.  On
      failure everything done so far has been reverted, but for directories. */
  method BackupDestinations(fs: FileSystem, ds: seq<Path>, stamp: string, works: bool)
    returns (res: Option<RevertGuard>, ghost roots: seq<Path>)
    modifies fs
    ensures res.Some? ==>
      && fresh(res.value) && !res.value.isDefused && Unfolds(old(fs.nodes), ds, fs.mounts, stamp, roots)
      && SavedSoFar(fs.nodes, res.value.paths, old(fs.nodes), roots, stamp)
    ensures res == None ==> PartlyReverted(old(fs.nodes), fs.nodes, ds, fs.mounts, roots, stamp)
    ensures works && Unmounted(ds, fs.mounts) && ValidDestinations(old(fs.nodes), ds, stamp) ==> res.Some?
  {
    var guard := new RevertGuard();
    ghost var before := fs.nodes;
    roots := [];
    for k := 0 to |ds|
      invariant fresh(guard) && !guard.isDefused && Unfolds(before, ds[..k], fs.mounts, stamp, roots)
      invariant SavedSoFar(fs.nodes, guard.paths, before, roots, stamp)
    {
      var ok;
      if Exists(fs.nodes, ds[k]) && ds[k] == "" {
        UnfoldsStep(before, ds, fs.mounts, stamp, roots, k, []);
        assert roots + [] == roots;
        ok := true;
      } else if Exists(fs.nodes, ds[k]) && ds[k] in fs.mounts {
        ok, roots := SaveMounted(fs, guard, ds, k, stamp, works, before, roots);
      } else {
        if Unmounted(ds, fs.mounts) && ValidDestinations(before, ds, stamp) {
          NextCanMove(before, ds, fs.mounts, stamp, roots, k);
        }
        ok, roots := SavePlain(fs, guard, ds, k, stamp, works, before, roots);
      }
      if !ok {
        ghost var made :| made <= ParentDirs(ds) && fs.nodes == WithDirs(Aside(before, roots, stamp), made);
        guard.Drop(fs);
        return None, roots;
      }
    }
    assert ds[..|ds|] == ds;
    return Some(guard), roots;
  }

  /** The first of the destinations were saved, some directories were made, and everything
      was reverted. */
  ghost predicate PartlyReverted(before: Tree, after: Tree, ds: seq<Path>, mounts: set<Path>, roots: seq<Path>,
                                 stamp: string) {
    && Partly(before, ds, mounts, stamp, roots)
    && exists made :: made <= ParentDirs(ds)
        && after == Reverted(WithDirs(Aside(before, roots, stamp), made), SavedAll(before, roots, stamp))
  }

  lemma NextCanMove(before: Tree, ds: seq<Path>, mounts: set<Path>, stamp: string, roots: seq<Path>, k: nat)
    requires Unmounted(ds, mounts) && ValidDestinations(before, ds, stamp) && k < |ds|
    requires Unfolds(before, ds[..k], mounts, stamp, roots)
    ensures CanMove(Aside(before, roots, stamp), ds[k], stamp)
  {
    UnmountedRoots(before, ds[..k], mounts, stamp, roots);
    AsideKeeps(before, ds, stamp, k);
    BackupNameIsFree(before, Aside(before, roots, stamp), ds, stamp, SavedAll(before, roots, stamp));
  }

  /** Separate destinations stay recoverable while they are moved aside. */
  lemma AsideKeeps(before: Tree, ds: seq<Path>, stamp: string, k: nat)
    requires ValidDestinations(before, ds, stamp) && k <= |ds|
    ensures RecoverableAfter(before, ds, stamp, ds[..k])
  {
    var kept := (roots: seq<Path>) => RecoverableAfter(before, ds, stamp, roots);
    StartsKept(before, ds, stamp);
    forall n | 0 <= n < |ds| && kept(ds[..n]) ensures kept(ds[..n] + [ds[n]]) {
      RecoverableNext(before, ds, stamp, ds[..n], n);
    }
    Steps.KeptAlong(kept, ds, k);
  }

  ghost predicate RecoverableAfter(before: Tree, ds: seq<Path>, stamp: string, roots: seq<Path>) {
    && |SavedAll(before, roots, stamp)| == |roots| && SavedFrom(ds, stamp, SavedAll(before, roots, stamp))
    && MovedAside(before, Aside(before, roots, stamp), SavedAll(before, roots, stamp), ParentDirs(ds))
  }

  lemma StartsKept(before: Tree, ds: seq<Path>, stamp: string)
    ensures RecoverableAfter(before, ds, stamp, [])
  {
    assert SavedAll(before, [], stamp) == [] && Aside(before, [], stamp) == before;
  }

  lemma RecoverableNext(before: Tree, ds: seq<Path>, stamp: string, roots: seq<Path>, n: nat)
    requires ValidDestinations(before, ds, stamp) && |roots| == n < |ds| && RecoverableAfter(before, ds, stamp, roots)
    ensures RecoverableAfter(before, ds, stamp, roots + [ds[n]])
  {
    OneMore(before, roots, ds[n], stamp);
    NextKeeps(before, Aside(before, roots, stamp), ds, stamp, SavedAll(before, roots, stamp));
  }

  lemma NextKeeps(before: Tree, t: Tree, ds: seq<Path>, stamp: string, saved: seq<Saved>)
    requires ValidDestinations(before, ds, stamp) && SavedFrom(ds, stamp, saved) && |saved| < |ds|
    requires MovedAside(before, t, saved, ParentDirs(ds))
    ensures var moved := MoveOne(t, ds[|saved|], stamp);
      SavedFrom(ds, stamp, saved + [moved.1]) && MovedAside(before, moved.0, saved + [moved.1], ParentDirs(ds))
  {
    var k := |saved|;
    var d := ds[k];
    NextIsApart(before, ds, stamp, saved, d);
    forall q | q in ParentDirs(ds) ensures !Under(d, q) { ParentsOutside(before, ds, stamp, k, d, q); }
    if Exists(t, d) {
      BackupNameIsFree(before, t, ds, stamp, saved);
      var b := BackupName(t, d, stamp);
      NextIsApart(before, ds, stamp, saved, b);
      NamesApart(d, stamp, b);
      forall q | q in ParentDirs(ds) ensures !Under(b, q) { ParentsOutside(before, ds, stamp, k, b, q); }
      RenameToFree(t, d, b);
      AsideMoves(before, t, saved, ParentDirs(ds), d, b);
    } else {
      forall q | q in ParentDirs(ds) ensures Untouched(saved, q) { ParentsUntouched(before, ds, stamp, saved, q); }
      assert Ancestors(Parent(d)) <= ParentDirs(ds);
      AsideCreates(before, t, saved, ParentDirs(ds), d, Parent(d));
    }
  }

  /** All of them, or the first of them. */
  lemma AllKept(before: Tree, ds: seq<Path>, stamp: string)
    requires ValidDestinations(before, ds, stamp)
    ensures SavedFrom(ds, stamp, SavedAll(before, ds, stamp))
    ensures MovedAside(before, Aside(before, ds, stamp), SavedAll(before, ds, stamp), ParentDirs(ds))
  {
    AsideKeeps(before, ds, stamp, |ds|);
    assert ds[..|ds|] == ds;
  }

  lemma MadeKeeps(before: Tree, t: Tree, saved: seq<Saved>, dirs: set<Path>, made: set<Path>)
    requires MovedAside(before, t, saved, dirs) && made <= dirs && forall q :: q in dirs ==> Untouched(saved, q)
    ensures MovedAside(before, WithDirs(t, made), saved, dirs)
  {
    var t' := WithDirs(t, made);
    forall i | 0 <= i < |saved| ensures Keeps(before, t', saved[i]) {
      forall q | q in made ensures !Touches(saved[i], q) { assert Untouched(saved, q); }
      KeepsElsewhere(before, t, t', saved[i]);
    }
    forall q | Untouched(saved, q) ensures SameOrDir(before, t', dirs, q) {
      assert SameOrDir(before, t, dirs, q);
    }
  }

  lemma FirstReverted(before: Tree, ds: seq<Path>, stamp: string, k: nat, made: set<Path>, q: Path)
    requires ValidDestinations(before, ds, stamp) && k <= |ds| && made <= ParentDirs(ds)
    ensures SameOrDir(before, Reverted(WithDirs(Aside(before, ds[..k], stamp), made), SavedAll(before, ds[..k], stamp)),
      ParentDirs(ds), q)
  {
    AsideKeeps(before, ds, stamp, k);
    var aside, saved := Aside(before, ds[..k], stamp), SavedAll(before, ds[..k], stamp);
    forall p | p in ParentDirs(ds) ensures Untouched(saved, p) { ParentsUntouched(before, ds, stamp, saved, p); }
    MadeKeeps(before, aside, saved, ParentDirs(ds), made);
    RevertRestores(before, WithDirs(aside, made), WithDirs(aside, made), saved, ParentDirs(ds), q);
  }

  // ---- extraction ----

  ghost predicate Within(mappings: seq<Rule>, q: Path) {
    exists i :: 0 <= i < |mappings| && Under(Trim(mappings[i].to), q)
  }

  lemma LocationWithin(mappings: seq<Rule>, tmp: Path, p: Path)
    requires ValidBlueprint(mappings) && tmp != "" && tmp[|tmp| - 1] != '/'
    ensures Under(tmp, Location(mappings, tmp, p)) || Within(mappings, Location(mappings, tmp, p))
  {
    LocationReplacesName(mappings, tmp, p);
    var i := FirstHit(mappings, p);
    if i < |mappings| {
      assert Under(Trim(mappings[i].to), Location(mappings, tmp, p));
    }
  }

  /** Nothing has changed but what is at an entry's path. */
  ghost predicate ChangedAt(before: Tree, t: Tree, located: seq<Entry>) {
    forall q :: Get(t, q) == Get(before, q) || exists i :: 0 <= i < |located| && located[i].path == q
  }

  /** One turn of the extraction loop. */
  method ExtractOne(fs: FileSystem, e: Entry, migrations: seq<Rule>, mappings: seq<Rule>, tmp: Path, works: bool)
    returns (ok: bool, placed: bool)
    requires ValidBlueprint(mappings) && tmp != "" && tmp[|tmp| - 1] != '/'
    modifies fs
    ensures forall q :: q != Location(mappings, tmp, Pass(migrations, e.path)) ==>
      Get(fs.nodes, q) == Get(old(fs.nodes), q)
    ensures ok ==> fs.nodes == old(fs.nodes)[Location(mappings, tmp, Pass(migrations, e.path)) := e.node]
    ensures (placed <==> Place(mappings, Pass(migrations, e.path)).dst.Some?) && (works ==> ok)
  {
    var entry := new TarEntry(e.path, e.node);
    var dst := MapPath(entry, migrations, mappings);
    placed := dst.Some?;
    ok := fs.Unpack(Join(dst.GetOr(tmp), entry.path), entry.node, works);
  }

  /** Unpacks every entry where its path maps to; entries that map nowhere go to the
      temporary directory and make the restoration partial.  A failure has changed nothing
      but what is at these paths. */
  method Extract(fs: FileSystem, entries: seq<Entry>, migrations: seq<Rule>, mappings: seq<Rule>, tmp: Path,
                 works: bool)
    returns (ok: bool, partial: bool)
    requires ValidBlueprint(mappings) && tmp != "" && tmp[|tmp| - 1] != '/'
    modifies fs
    ensures ChangedAt(old(fs.nodes), fs.nodes, Located(mappings, migrations, tmp, entries))
    ensures ok ==> fs.nodes == Unpacked(Located(mappings, migrations, tmp, entries), old(fs.nodes))
    ensures (ok ==> partial == IsPartial(mappings, migrations, entries)) && (works ==> ok)
  {
    partial := false;
    ghost var located := Located(mappings, migrations, tmp, entries);
    for k := 0 to |entries|
      invariant fs.nodes == Unpacked(located[..k], old(fs.nodes))
      invariant partial == IsPartial(mappings, migrations, entries[..k])
      invariant ChangedAt(old(fs.nodes), fs.nodes, located)
    {
      var unpacked, placed := ExtractOne(fs, entries[k], migrations, mappings, tmp, works);
      partial := partial || !placed;
      assert located[k].path == Location(mappings, tmp, Pass(migrations, entries[k].path));
      if !unpacked {
        return false, partial;
      }
      UnpackedStep(located, k, old(fs.nodes));
      PartialStep(mappings, migrations, entries, k);
    }
    assert located[..|entries|] == located && entries[..|entries|] == entries;
    ok := true;
  }

  lemma UnpackedStep(located: seq<Entry>, k: nat, onto: Tree)
    requires k < |located|
    ensures Unpacked(located[..k + 1], onto) == Unpacked(located[..k], onto)[located[k].path := located[k].node]
  {
    assert located[..k + 1][..k] == located[..k];
  }

  lemma PartialStep(mappings: seq<Rule>, migrations: seq<Rule>, entries: seq<Entry>, k: nat)
    requires k < |entries|
    ensures IsPartial(mappings, migrations, entries[..k + 1]) <==>
      IsPartial(mappings, migrations, entries[..k]) || Place(mappings, Pass(migrations, entries[k].path)).dst.None?
  {
    assert entries[..k + 1] == entries[..k] + [entries[k]];
  }

  // ---- restoration ----

  datatype RestorationError =
    PathBackupFailed | ExtractionFailed | MissingData | UnknownBackupVersion | FoundUnexpectedData

  /** The migrations to apply to a backup of the given version. */
  function MigrationsFor(migrations: seq<Migration>, from: nat, to: nat): seq<Rule> {
    if from < to then Flatten(RulesOf(FilterMigrations(migrations, from, to))) else []
  }

  /** What a caller provides: destinations and their moved-aside names pairwise apart, and
      a fresh temporary directory away from all of them. */
  ghost predicate Restorable(before: Tree, blueprint: Blueprint, tmp: Path, stamp: string) {
    var ds := Destinations(LongestFirst(blueprint.paths));
    && ValidBlueprint(LongestFirst(blueprint.paths))
    && ValidDestinations(before, ds, stamp)
    && tmp != "" && tmp[|tmp| - 1] != '/' && !Exists(before, tmp)
    && (forall i, p :: 0 <= i < |ds| && NameOf(ds[i], stamp, p) ==> Disjoint(p, tmp))
    && (forall q :: q in ParentDirs(ds) ==> !Under(tmp, q))
  }

  /** Nothing has changed, except directories created above destinations. */
  ghost predicate Unchanged(before: Tree, t: Tree, ds: seq<Path>) {
    forall q :: SameOrDir(before, t, ParentDirs(ds), q)
  }

  /** After extraction the tree differs from the moved-aside one only inside destinations
      and the temporary directory. */
  ghost predicate Extending(aside: Tree, t: Tree, ds: seq<Path>, tmp: Path) {
    forall p :: Get(t, p) == Get(aside, p) || Under(tmp, p) || exists i :: 0 <= i < |ds| && Under(ds[i], p)
  }

  lemma TmpUntouched(before: Tree, aside: Tree, blueprint: Blueprint, tmp: Path, stamp: string, saved: seq<Saved>,
                     q: Path)
    requires Restorable(before, blueprint, tmp, stamp) && Under(tmp, q)
    requires SavedFrom(Destinations(LongestFirst(blueprint.paths)), stamp, saved)
    requires MovedAside(before, aside, saved, ParentDirs(Destinations(LongestFirst(blueprint.paths))))
    ensures Untouched(saved, q) && Get(before, q) == None && Get(aside, q) == None
  {
    var ds := Destinations(LongestFirst(blueprint.paths));
    TmpApartFromSaved(before, blueprint, tmp, stamp, saved);
    ApartMeansUntouched(saved, tmp, q);
    assert SameOrDir(before, aside, ParentDirs(ds), q);
  }

  lemma TmpApartFromSaved(before: Tree, blueprint: Blueprint, tmp: Path, stamp: string, saved: seq<Saved>)
    requires Restorable(before, blueprint, tmp, stamp)
    requires SavedFrom(Destinations(LongestFirst(blueprint.paths)), stamp, saved)
    ensures ApartFromAll(saved, tmp)
  {
    var ds := Destinations(LongestFirst(blueprint.paths));
    forall i | 0 <= i < |saved|
      ensures Disjoint(saved[i].path, tmp) && (saved[i].backup.Some? ==> Disjoint(saved[i].backup.value, tmp))
    {
      assert NameOf(ds[i], stamp, saved[i].path);
    }
  }

  /** Undoing a restoration, whatever was extracted. */
  lemma UndoIsComplete(before: Tree, aside: Tree, t: Tree, blueprint: Blueprint, tmp: Path, stamp: string,
                       saved: seq<Saved>)
    requires Restorable(before, blueprint, tmp, stamp)
    requires var ds := Destinations(LongestFirst(blueprint.paths));
      && SavedFrom(ds, stamp, saved) && |saved| == |ds|
      && MovedAside(before, aside, saved, ParentDirs(ds)) && Extending(aside, t, ds, tmp)
    ensures Unchanged(before, Reverted(RemoveTree(t, tmp), saved), Destinations(LongestFirst(blueprint.paths)))
  {
    var ds := Destinations(LongestFirst(blueprint.paths));
    var t' := RemoveTree(t, tmp);
    forall p ensures Get(t', p) == Get(aside, p) || exists i :: 0 <= i < |saved| && Under(saved[i].path, p) {
      if Under(tmp, p) {
        TmpUntouched(before, aside, blueprint, tmp, stamp, saved, p);
      } else if i :| 0 <= i < |ds| && Under(ds[i], p) {
        assert Under(saved[i].path, p);
      }
    }
    forall q ensures SameOrDir(before, Reverted(t', saved), ParentDirs(ds), q) {
      RevertRestores(before, aside, t', saved, ParentDirs(ds), q);
    }
  }

  /** ... and in the other order. */
  lemma UndoFromCaller(before: Tree, aside: Tree, t: Tree, blueprint: Blueprint, tmp: Path, stamp: string,
                       saved: seq<Saved>)
    requires Restorable(before, blueprint, tmp, stamp)
    requires var ds := Destinations(LongestFirst(blueprint.paths));
      && SavedFrom(ds, stamp, saved) && |saved| == |ds|
      && MovedAside(before, aside, saved, ParentDirs(ds)) && Extending(aside, t, ds, tmp)
    ensures Unchanged(before, RemoveTree(Reverted(t, saved), tmp), Destinations(LongestFirst(blueprint.paths)))
  {
    UndoIsComplete(before, aside, t, blueprint, tmp, stamp, saved);
    TmpApartFromSaved(before, blueprint, tmp, stamp, saved);
    var undone := Reverted(RemoveTree(t, tmp), saved);
    var ds := Destinations(LongestFirst(blueprint.paths));
    forall q ensures SameOrDir(before, RemoveTree(Reverted(t, saved), tmp), ParentDirs(ds), q) {
      UndoThenClean(t, saved, tmp, q);
      assert SameOrDir(before, undone, ParentDirs(ds), q);
    }
  }

  lemma {:induction false} UnpackedOnto(located: seq<Entry>, onto: Tree, q: Path)
    requires q !in onto
    ensures Get(Unpacked(located, onto), q) == Get(Unpacked(located, map[]), q)
  {
    if located != [] {
      UnpackedOnto(located[..|located| - 1], onto, q);
    }
  }

  /** Committing: destinations hold exactly what was extracted, and the rest is unchanged. */
  ghost predicate Committed(before: Tree, t: Tree, ds: seq<Path>, extracted: Tree) {
    forall q ::
      if exists i :: 0 <= i < |ds| && Under(ds[i], q) then Get(t, q) == Get(extracted, q)
      else SameOrDir(before, t, ParentDirs(ds), q)
  }

  /** What the lemmas about committing start from. */
  ghost predicate Ready(before: Tree, aside: Tree, t: Tree, blueprint: Blueprint, tmp: Path, stamp: string,
                        saved: seq<Saved>) {
    var ds := Destinations(LongestFirst(blueprint.paths));
    && Restorable(before, blueprint, tmp, stamp) && SavedFrom(ds, stamp, saved) && |saved| == |ds|
    && MovedAside(before, aside, saved, ParentDirs(ds)) && Extending(aside, t, ds, tmp)
  }

  lemma CommittedInside(before: Tree, aside: Tree, located: seq<Entry>, blueprint: Blueprint, tmp: Path, stamp: string,
                        saved: seq<Saved>, i: nat, q: Path)
    requires Ready(before, aside, Unpacked(located, aside), blueprint, tmp, stamp, saved) && i < |saved|
    requires Under(saved[i].path, q)
    ensures Get(Discarded(RemoveTree(Unpacked(located, aside), tmp), saved), q) == Get(Unpacked(located, map[]), q)
  {
    DiscardedAt(RemoveTree(Unpacked(located, aside), tmp), saved, q);
    assert Touches(saved[i], q);
    assert Keeps(before, aside, saved[i]);
    if Under(tmp, q) {
      TmpUntouched(before, aside, blueprint, tmp, stamp, saved, q);
    }
    forall j: nat | j < |saved| && saved[j].backup.Some? ensures !Under(saved[j].backup.value, q) {
      if Under(saved[j].backup.value, q) { BackupsAreNotPaths(saved, j, q); }
    }
    UnpackedOnto(located, aside, q);
  }

  lemma CommittedOutside(before: Tree, aside: Tree, t: Tree, blueprint: Blueprint, tmp: Path, stamp: string,
                         saved: seq<Saved>, q: Path)
    requires Ready(before, aside, t, blueprint, tmp, stamp, saved)
    requires forall i :: 0 <= i < |saved| ==> !Under(saved[i].path, q)
    ensures SameOrDir(before, Discarded(RemoveTree(t, tmp), saved),
      ParentDirs(Destinations(LongestFirst(blueprint.paths))), q)
  {
    var ds := Destinations(LongestFirst(blueprint.paths));
    DiscardedAt(RemoveTree(t, tmp), saved, q);
    if Under(tmp, q) {
      TmpUntouched(before, aside, blueprint, tmp, stamp, saved, q);
    } else if j :| 0 <= j < |saved| && Touches(saved[j], q) {
      assert Keeps(before, aside, saved[j]);
    } else {
      assert Untouched(saved, q);
      assert SameOrDir(before, aside, ParentDirs(ds), q);
    }
  }

  lemma CommitIsComplete(before: Tree, aside: Tree, located: seq<Entry>, blueprint: Blueprint, tmp: Path, stamp: string,
                         saved: seq<Saved>)
    requires Ready(before, aside, Unpacked(located, aside), blueprint, tmp, stamp, saved)
    ensures Committed(before, Discarded(RemoveTree(Unpacked(located, aside), tmp), saved),
                      Destinations(LongestFirst(blueprint.paths)), Unpacked(located, map[]))
  {
    var ds := Destinations(LongestFirst(blueprint.paths));
    var t := Discarded(RemoveTree(Unpacked(located, aside), tmp), saved);
    forall q ensures
      if exists i :: 0 <= i < |ds| && Under(ds[i], q) then Get(t, q) == Get(Unpacked(located, map[]), q)
      else SameOrDir(before, t, ParentDirs(ds), q)
    {
      if i :| 0 <= i < |ds| && Under(ds[i], q) {
        CommittedInside(before, aside, located, blueprint, tmp, stamp, saved, i, q);
      } else {
        CommittedOutside(before, aside, Unpacked(located, aside), blueprint, tmp, stamp, saved, q);
      }
    }
  }

  // ---- the whole restoration ----

  /** Some tree with entries unpacked in part was reverted and the temporary directory
      dropped, in either order. */
  ghost predicate UndoneFrom(before: Tree, after: Tree, roots: seq<Path>, stamp: string, located: seq<Entry>, tmp: Path,
                             t: Tree) {
    && ChangedAt(Aside(before, roots, stamp), t, located)
    && (|| after == Reverted(RemoveTree(t, tmp), SavedAll(before, roots, stamp))
        || after == RemoveTree(Reverted(t, SavedAll(before, roots, stamp)), tmp))
  }

  /** What a failure leaves, for all destinations: those that were moved aside, all of them or
      the first ones, have been reverted. */
  ghost predicate Undone(before: Tree, after: Tree, ds: seq<Path>, mounts: set<Path>, roots: seq<Path>, stamp: string,
                         located: seq<Entry>, tmp: Path) {
    || PartlyReverted(before, after, ds, mounts, roots, stamp)
    || (&& Unfolds(before, ds, mounts, stamp, roots)
        && exists t :: UndoneFrom(before, after, roots, stamp, located, tmp, t))
  }

  /** What a success leaves, for all destinations: the entries were unpacked and the copies
      discarded. */
  ghost predicate Replaced(before: Tree, after: Tree, ds: seq<Path>, mounts: set<Path>, roots: seq<Path>, stamp: string,
                           located: seq<Entry>, tmp: Path) {
    && Unfolds(before, ds, mounts, stamp, roots)
    && after == Discarded(RemoveTree(Unpacked(located, Aside(before, roots, stamp)), tmp),
        SavedAll(before, roots, stamp))
  }

  /** The entries were unpacked and the copies are still there. */
  ghost predicate Extracted(before: Tree, t: Tree, saved: seq<Saved>, ds: seq<Path>, mounts: set<Path>,
                            roots: seq<Path>, stamp: string, located: seq<Entry>) {
    && Unfolds(before, ds, mounts, stamp, roots) && saved == SavedAll(before, roots, stamp)
    && t == Unpacked(located, Aside(before, roots, stamp))
  }

  lemma {:induction false} UnpackedChanges(located: seq<Entry>, onto: Tree)
    ensures ChangedAt(onto, Unpacked(located, onto), located)
  {
    if located != [] {
      var n := |located| - 1;
      UnpackedChanges(located[..n], onto);
      assert ChangedAt(onto, Unpacked(located[..n], onto), located[..n]);
    }
  }

  lemma ChangedIsExtending(aside: Tree, t: Tree, mappings: seq<Rule>, rules: seq<Rule>, tmp: Path, entries: seq<Entry>)
    requires ValidBlueprint(mappings) && tmp != "" && tmp[|tmp| - 1] != '/'
    requires ChangedAt(aside, t, Located(mappings, rules, tmp, entries))
    ensures Extending(aside, t, Destinations(mappings), tmp)
  {
    var ds, located := Destinations(mappings), Located(mappings, rules, tmp, entries);
    forall p ensures Get(t, p) == Get(aside, p) || Under(tmp, p) || exists i :: 0 <= i < |ds| && Under(ds[i], p) {
      if k :| 0 <= k < |located| && located[k].path == p {
        LocationWithin(mappings, tmp, Pass(rules, entries[k].path));
        if Within(mappings, p) {
          var i :| 0 <= i < |mappings| && Under(Trim(mappings[i].to), p);
          assert Under(ds[i], p);
        }
      }
    }
  }

  /** A blueprint, the destinations it gives, and the entries of an archive where they go. */
  ghost predicate Places(blueprint: Blueprint, ds: seq<Path>, rules: seq<Rule>, tmp: Path, entries: seq<Entry>,
                         located: seq<Entry>) {
    && ds == Destinations(LongestFirst(blueprint.paths))
    && located == Located(LongestFirst(blueprint.paths), rules, tmp, entries)
  }

  lemma PartlyUndone(before: Tree, after: Tree, ds: seq<Path>, mounts: set<Path>, stamp: string, roots: seq<Path>)
    requires ValidDestinations(before, ds, stamp) && Unmounted(ds, mounts)
    requires PartlyReverted(before, after, ds, mounts, roots, stamp)
    ensures Unchanged(before, after, ds)
  {
    UnmountedPartly(before, ds, mounts, stamp, roots);
    var made :| made <= ParentDirs(ds)
      && after == Reverted(WithDirs(Aside(before, roots, stamp), made), SavedAll(before, roots, stamp));
    forall q ensures SameOrDir(before, after, ParentDirs(ds), q) {
      FirstReverted(before, ds, stamp, |roots|, made, q);
    }
  }

  lemma WhollyUndone(before: Tree, after: Tree, blueprint: Blueprint, ds: seq<Path>, rules: seq<Rule>,
                     tmp: Path, stamp: string, entries: seq<Entry>, located: seq<Entry>, t: Tree)
    requires Places(blueprint, ds, rules, tmp, entries, located)
    requires Restorable(before, blueprint, tmp, stamp) && UndoneFrom(before, after, ds, stamp, located, tmp, t)
    ensures Unchanged(before, after, ds)
  {
    var aside, saved := Aside(before, ds, stamp), SavedAll(before, ds, stamp);
    AllKept(before, ds, stamp);
    ChangedIsExtending(aside, t, LongestFirst(blueprint.paths), rules, tmp, entries);
    if after == Reverted(RemoveTree(t, tmp), saved) {
      UndoIsComplete(before, aside, t, blueprint, tmp, stamp, saved);
    } else {
      UndoFromCaller(before, aside, t, blueprint, tmp, stamp, saved);
    }
  }

  /** For separate destinations, that is all or nothing. */
  lemma UndoneIsUnchanged(before: Tree, after: Tree, blueprint: Blueprint, ds: seq<Path>, mounts: set<Path>,
                          rules: seq<Rule>,
                          tmp: Path, stamp: string, entries: seq<Entry>, located: seq<Entry>, roots: seq<Path>)
    requires Places(blueprint, ds, rules, tmp, entries, located)
    requires Restorable(before, blueprint, tmp, stamp) && Unmounted(ds, mounts)
    requires Undone(before, after, ds, mounts, roots, stamp, located, tmp)
    ensures Unchanged(before, after, ds)
  {
    if PartlyReverted(before, after, ds, mounts, roots, stamp) {
      PartlyUndone(before, after, ds, mounts, stamp, roots);
    } else {
      UnmountedRoots(before, ds, mounts, stamp, roots);
      var t :| UndoneFrom(before, after, roots, stamp, located, tmp, t);
      WhollyUndone(before, after, blueprint, ds, rules, tmp, stamp, entries, located, t);
    }
  }

  lemma ReplacedIsCommitted(before: Tree, after: Tree, blueprint: Blueprint, ds: seq<Path>, mounts: set<Path>,
                            rules: seq<Rule>,
                            tmp: Path, stamp: string, entries: seq<Entry>, located: seq<Entry>, roots: seq<Path>)
    requires Places(blueprint, ds, rules, tmp, entries, located)
    requires Restorable(before, blueprint, tmp, stamp) && Unmounted(ds, mounts)
    requires Replaced(before, after, ds, mounts, roots, stamp, located, tmp)
    ensures Committed(before, after, ds, Unpacked(located, map[]))
  {
    UnmountedRoots(before, ds, mounts, stamp, roots);
    var aside, saved := Aside(before, ds, stamp), SavedAll(before, ds, stamp);
    AllKept(before, ds, stamp);
    UnpackedChanges(located, aside);
    ChangedIsExtending(aside, Unpacked(located, aside), LongestFirst(blueprint.paths), rules, tmp, entries);
    CommitIsComplete(before, aside, located, blueprint, tmp, stamp, saved);
  }

  /** Dropping the temporary directory, then the guard. */
  method DropOutput(fs: FileSystem, guard: RevertGuard, finished: bool, tmp: Path)
    requires !guard.isDefused
    modifies fs, guard`isDefused
    ensures fs.nodes ==
      if finished then Discarded(RemoveTree(old(fs.nodes), tmp), guard.paths)
        else Reverted(RemoveTree(old(fs.nodes), tmp), guard.paths)
  {
    guard.isDefused := finished;
    fs.nodes := RemoveTree(fs.nodes, tmp);
    guard.Drop(fs);
  }

  /** Every destination has an entry. */
  ghost predicate Complete(ds: seq<Path>, located: seq<Entry>) {
    forall i :: 0 <= i < |ds| ==> exists k :: 0 <= k < |located| && Under(ds[i], located[k].path)
  }

  /** There is nothing at some destination. */
  predicate SomeMissing(t: Tree, ds: seq<Path>) {
    exists i :: 0 <= i < |ds| && !Exists(t, ds[i])
  }

  /** `restore`: nothing is touched for an unknown version; any later failure reverts; when
      every entry was placed the guard is defused and dropped, otherwise it is handed to
      the caller with the temporary directory.  With separate destinations it succeeds
      exactly when the version is known, the system `works` and no destination lacks data. */
  method Restore(fs: FileSystem, archive: Archive, blueprint: Blueprint, blueprints: map<nat, Blueprint>,
                 migrations: seq<Migration>, tmp: Path, stamp: string, works: bool)
    returns (res: Result<Option<RevertGuard>, RestorationError>, ghost roots: seq<Path>)
    requires ValidBlueprint(LongestFirst(blueprint.paths)) && tmp != "" && tmp[|tmp| - 1] != '/'
    modifies fs
    ensures var ds := Destinations(LongestFirst(blueprint.paths));
      var rules := MigrationsFor(migrations, archive.version, blueprint.version);
      var located := Located(LongestFirst(blueprint.paths), rules, tmp, archive.entries);
      var partial := IsPartial(LongestFirst(blueprint.paths), rules, archive.entries);
      && (match res
          case Failure(UnknownBackupVersion) => archive.version !in blueprints && fs.nodes == old(fs.nodes)
          case Failure(_) => Undone(old(fs.nodes), fs.nodes, ds, fs.mounts, roots, stamp, located, tmp)
          case Success(None) => !partial && Replaced(old(fs.nodes), fs.nodes, ds, fs.mounts, roots, stamp, located, tmp)
          case Success(Some(guard)) =>
            && partial && fresh(guard) && !guard.isDefused
            && Extracted(old(fs.nodes), fs.nodes, guard.paths, ds, fs.mounts, roots, stamp, located))
      && (res.Success? ==> archive.version in blueprints && works)
      && (Restorable(old(fs.nodes), blueprint, tmp, stamp) && Unmounted(ds, fs.mounts) ==>
            && (res.Success? <==> archive.version in blueprints && works && Complete(ds, located))
            && (res.Failure? && archive.version in blueprints && works ==> res.error == MissingData))
      && (res == Failure(UnknownBackupVersion) <==> archive.version !in blueprints)
  {
    if archive.version !in blueprints {
      return Failure(UnknownBackupVersion), [];
    }
    var rules := MigrationsFor(migrations, archive.version, blueprint.version);
    var mappings := LongestFirst(blueprint.paths);
    var ds := Destinations(mappings);
    ghost var before := fs.nodes;
    var saved;
    saved, roots := BackupDestinations(fs, ds, stamp, works);
    if saved == None {
      return Failure(PathBackupFailed), roots;
    }
    var guard := saved.value;
    var ok, partial := Extract(fs, archive.entries, rules, mappings, tmp, works);
    ok := ok && works; // reading the archive to its end may fail as well
    ghost var t := fs.nodes;
    ghost var located := Located(mappings, rules, tmp, archive.entries);
    var missing := SomeMissing(fs.nodes, ds);
    MissingFromRoots(before, ds, fs.mounts, stamp, roots, located);
    if !ok || missing {
      DropOutput(fs, guard, false, tmp);
      assert UndoneFrom(before, fs.nodes, roots, stamp, located, tmp, t);
      return Failure(if !ok then ExtractionFailed else MissingData), roots;
    }
    if partial {
      return Success(Some(guard)), roots;
    }
    DropOutput(fs, guard, true, tmp);
    return Success(None), roots;
  }

  /** After extraction a destination exists exactly if some entry went there. */
  lemma MissingExactly(before: Tree, ds: seq<Path>, stamp: string, located: seq<Entry>)
    requires ValidDestinations(before, ds, stamp)
    ensures SomeMissing(Unpacked(located, Aside(before, ds, stamp)), ds) <==> !Complete(ds, located)
  {
    AllKept(before, ds, stamp);
    var aside, saved := Aside(before, ds, stamp), SavedAll(before, ds, stamp);
    forall i | 0 <= i < |ds|
      ensures Exists(Unpacked(located, aside), ds[i]) <==>
        exists k :: 0 <= k < |located| && Under(ds[i], located[k].path)
    {
      assert Keeps(before, aside, saved[i]);
      ExistsAfter(aside, located, ds[i]);
    }
  }

  lemma MissingFromRoots(before: Tree, ds: seq<Path>, mounts: set<Path>, stamp: string, roots: seq<Path>,
                         located: seq<Entry>)
    requires Unfolds(before, ds, mounts, stamp, roots)
    ensures ValidDestinations(before, ds, stamp) && Unmounted(ds, mounts) ==>
      (SomeMissing(Unpacked(located, Aside(before, roots, stamp)), ds) <==> !Complete(ds, located))
  {
    if ValidDestinations(before, ds, stamp) && Unmounted(ds, mounts) {
      UnmountedRoots(before, ds, mounts, stamp, roots);
      MissingExactly(before, ds, stamp, located);
    }
  }

  lemma {:induction false} ExistsAfter(aside: Tree, located: seq<Entry>, d: Path)
    requires forall q :: Under(d, q) ==> Get(aside, q) == None
    ensures Exists(Unpacked(located, aside), d) <==> exists k :: 0 <= k < |located| && Under(d, located[k].path)
  {
    if located != [] {
      var n := |located| - 1;
      ExistsAfter(aside, located[..n], d);
      var t, last := Unpacked(located[..n], aside), located[n];
      assert Exists(t[last.path := last.node], d) <==> Exists(t, d) || Under(d, last.path) by {
        assert last.path in t[last.path := last.node];
        if Exists(t, d) {
          var q :| q in t && Under(d, q);
          assert q in t[last.path := last.node];
        }
      }
      assert forall k :: 0 <= k < n ==> located[..n][k] == located[k];
    }
  }

  lemma NoEmptyDestination(mappings: seq<Rule>)
    requires ValidBlueprint(mappings)
    ensures forall d :: d in Destinations(mappings) ==> d != ""
  {
    var ds := Destinations(mappings);
    forall i | 0 <= i < |ds| ensures ds[i] != "" {
      assert mappings[i] in mappings;
    }
  }

  /** `restore_backup`: all or nothing.  On failure every path is as it was, except for
      directories created above destinations; on success destinations hold exactly the
      extracted data, no moved-aside copy is left and nothing else has changed.  This is so
      for separate destinations; what is left in general is said by `Undone` and
      `Replaced`. */
  method RestoreBackup(fs: FileSystem, archive: Archive, blueprint: Blueprint, blueprints: map<nat, Blueprint>,
                       migrations: seq<Migration>, tmp: Path, stamp: string, works: bool)
    returns (res: Result<(), RestorationError>, ghost roots: seq<Path>)
    requires ValidBlueprint(LongestFirst(blueprint.paths)) && tmp != "" && tmp[|tmp| - 1] != '/'
    modifies fs
    ensures var ds := Destinations(LongestFirst(blueprint.paths));
      var located := Located(LongestFirst(blueprint.paths),
        MigrationsFor(migrations, archive.version, blueprint.version), tmp, archive.entries);
      var partial := IsPartial(LongestFirst(blueprint.paths),
        MigrationsFor(migrations, archive.version, blueprint.version), archive.entries);
      && (Restorable(old(fs.nodes), blueprint, tmp, stamp) && Unmounted(ds, fs.mounts) ==>
            && (res.Success? <==> archive.version in blueprints && works && Complete(ds, located) && !partial)
            && if res.Success? then Committed(old(fs.nodes), fs.nodes, ds, Unpacked(located, map[]))
               else Unchanged(old(fs.nodes), fs.nodes, ds))
      && (if res.Success? then Replaced(old(fs.nodes), fs.nodes, ds, fs.mounts, roots, stamp, located, tmp)
          else fs.nodes == old(fs.nodes) || Undone(old(fs.nodes), fs.nodes, ds, fs.mounts, roots, stamp, located, tmp))
    ensures res.Success? ==>
      !IsPartial(LongestFirst(blueprint.paths), MigrationsFor(migrations, archive.version, blueprint.version),
        archive.entries)
  {
    ghost var before := fs.nodes;
    ghost var rules := MigrationsFor(migrations, archive.version, blueprint.version);
    ghost var ds := Destinations(LongestFirst(blueprint.paths));
    ghost var located := Located(LongestFirst(blueprint.paths), rules, tmp, archive.entries);
    var r;
    r, roots := Restore(fs, archive, blueprint, blueprints, migrations, tmp, stamp, works);
    match r {
      case Failure(error) =>
        res := Failure(error);
      case Success(None) =>
        res := Success(());
      case Success(Some(guard)) =>
        ghost var t := fs.nodes;
        UnpackedChanges(located, Aside(before, roots, stamp));
        guard.Drop(fs);
        fs.nodes := RemoveTree(fs.nodes, tmp);
        assert UndoneFrom(before, fs.nodes, roots, stamp, located, tmp, t);
        res := Failure(FoundUnexpectedData);
    }
    if Restorable(before, blueprint, tmp, stamp) && Unmounted(ds, fs.mounts) {
      if res.Success? {
        ReplacedIsCommitted(before, fs.nodes, blueprint, ds, fs.mounts, rules, tmp, stamp, archive.entries, located,
          roots);
      } else if fs.nodes != before {
        UndoneIsUnchanged(before, fs.nodes, blueprint, ds, fs.mounts, rules, tmp, stamp, archive.entries, located,
          roots);
      }
    }
  }

  // ---- the restoration route ----

  datatype RouteError = BackupRestoreFailed | InvalidBackup

  const API_DATA := "prose-pod-api-data"

  /** `put_backup_restore_inner`: the additional data is handed to another service, and only
      then is the guard defused.  `accepts` says whether that service gets what it is given
      and restores it, and `cleans` whether what was given to it can be removed from the
      temporary directory.  A failure leaves the files as they were, except that a backup
      without any additional data is reported as invalid after its restoration has been
      committed, so no such backup ever succeeds; and it is exactly when `accepts` holds and
      not `cleans` that the service has the backup's data while the files are reverted. */
  method PutBackupRestore(fs: FileSystem, archive: Archive, blueprint: Blueprint, blueprints: map<nat, Blueprint>,
                          migrations: seq<Migration>, tmp: Path, stamp: string, works: bool, accepts: bool,
                            cleans: bool)
    returns (res: Result<(), RouteError>, handedOver: bool, apiRestored: bool, ghost roots: seq<Path>)
    requires ValidBlueprint(LongestFirst(blueprint.paths)) && tmp != "" && tmp[|tmp| - 1] != '/'
    modifies fs
    ensures var mappings, rules := LongestFirst(blueprint.paths),
      MigrationsFor(migrations, archive.version, blueprint.version);
      var ds, located := Destinations(mappings), Located(mappings, rules, tmp, archive.entries);
      var partial := IsPartial(mappings, rules, archive.entries);
      var committed := res.Success? || (res.error.InvalidBackup? && !partial);
      && (!partial ==> res.Failure? && !apiRestored)
      && (if committed then Replaced(old(fs.nodes), fs.nodes, ds, fs.mounts, roots, stamp, located, tmp)
          else fs.nodes == old(fs.nodes) || Undone(old(fs.nodes), fs.nodes, ds, fs.mounts, roots, stamp, located, tmp))
      && (Restorable(old(fs.nodes), blueprint, tmp, stamp) && Unmounted(ds, fs.mounts) ==>
            var extracts := archive.version in blueprints && works && Complete(ds, located);
            && (handedOver <==> extracts && partial && Get(Unpacked(located, map[]), tmp + "/" + API_DATA) == Some(Dir))
            && (committed && res.Failure? <==> extracts && !partial)
            && if committed then Committed(old(fs.nodes), fs.nodes, ds, Unpacked(located, map[]))
               else Unchanged(old(fs.nodes), fs.nodes, ds))
    ensures apiRestored <==> handedOver && accepts
    ensures res.Success? <==> handedOver && accepts && cleans
    ensures apiRestored && res.Failure? <==> handedOver && accepts && !cleans
  {
    ghost var before := fs.nodes;
    ghost var rules := MigrationsFor(migrations, archive.version, blueprint.version);
    ghost var ds := Destinations(LongestFirst(blueprint.paths));
    ghost var located := Located(LongestFirst(blueprint.paths), rules, tmp, archive.entries);
    handedOver, apiRestored := false, false;
    var r;
    r, roots := Restore(fs, archive, blueprint, blueprints, migrations, tmp, stamp, works);
    match r {
      case Failure(error) =>
        res := Failure(BackupRestoreFailed);
      case Success(None) =>
        res := Failure(InvalidBackup);
      case Success(Some(guard)) =>
        ghost var t := fs.nodes;
        UnpackedChanges(located, Aside(before, roots, stamp));
        res, handedOver, apiRestored := HandOver(fs, guard, tmp, accepts, cleans);
        assert res.Failure? ==> UndoneFrom(before, fs.nodes, roots, stamp, located, tmp, t);
        if Restorable(before, blueprint, tmp, stamp) && Unmounted(ds, fs.mounts) {
          UnmountedRoots(before, ds, fs.mounts, stamp, roots);
          InTmp(before, blueprint, tmp, stamp, located, tmp + "/" + API_DATA);
        }
    }
    if Restorable(before, blueprint, tmp, stamp) && Unmounted(ds, fs.mounts) {
      if res.Success? || (res.error.InvalidBackup?
        && !IsPartial(LongestFirst(blueprint.paths), rules, archive.entries)) {
        ReplacedIsCommitted(before, fs.nodes, blueprint, ds, fs.mounts, rules, tmp, stamp, archive.entries, located,
          roots);
      } else if fs.nodes != before {
        UndoneIsUnchanged(before, fs.nodes, blueprint, ds, fs.mounts, rules, tmp, stamp, archive.entries, located,
          roots);
      }
    }
  }

  /** The temporary directory holds what was extracted there. */
  lemma InTmp(before: Tree, blueprint: Blueprint, tmp: Path, stamp: string, located: seq<Entry>, q: Path)
    requires Restorable(before, blueprint, tmp, stamp) && Under(tmp, q)
    ensures var ds := Destinations(LongestFirst(blueprint.paths));
      Get(Unpacked(located, Aside(before, ds, stamp)), q) == Get(Unpacked(located, map[]), q)
  {
    var ds := Destinations(LongestFirst(blueprint.paths));
    AllKept(before, ds, stamp);
    TmpUntouched(before, Aside(before, ds, stamp), blueprint, tmp, stamp, SavedAll(before, ds, stamp), q);
    UnpackedOnto(located, Aside(before, ds, stamp), q);
  }

  /** Hands the additional data over, then finishes. */
  method HandOver(fs: FileSystem, guard: RevertGuard, tmp: Path, accepts: bool, cleans: bool)
    returns (res: Result<(), RouteError>, handedOver: bool, apiRestored: bool)
    requires !guard.isDefused
    modifies fs, guard`isDefused
    ensures handedOver <==> Get(old(fs.nodes), tmp + "/" + API_DATA) == Some(Dir)
    ensures apiRestored <==> handedOver && accepts
    ensures res.Success? <==> handedOver && accepts && cleans
    ensures fs.nodes ==
      if res.Success? then Discarded(RemoveTree(old(fs.nodes), tmp), guard.paths)
        else Reverted(RemoveTree(old(fs.nodes), tmp), guard.paths)
  {
    handedOver, apiRestored := false, false;
    res := Failure(InvalidBackup);
    if Get(fs.nodes, tmp + "/" + API_DATA) == Some(Dir) {
      handedOver, apiRestored := true, accepts;
      res := if apiRestored && cleans then Success(()) else Failure(BackupRestoreFailed);
    }
    DropOutput(fs, guard, res.Success?, tmp);
  }

  /** A backup made with a blueprint, whatever additional data it was given, and restored
      with the same blueprint brings back, under every destination, exactly the tree that
      was archived. */
  lemma BackupThenRestore(archived: Tree, walk: Walk, paths: seq<Rule>, additional: seq<Entry>, before: Tree, t: Tree,
                          tmp: Path, i: nat, q: Path)
    requires Archivable(archived, walk, paths) && TmpApart(paths, tmp) && Unclaimed(paths, additional)
    requires Committed(before, t, Destinations(LongestFirst(paths)),
                       Unpacked(Located(LongestFirst(paths), [], tmp, additional + EntriesOfAll(archived, walk, paths)),
                         map[]))
    requires i < |paths| && Under(Trim(paths[i].to), q)
    ensures Get(t, q) == Get(archived, q)
  {
    var sorted := LongestFirst(paths);
    var ds := Destinations(sorted);
    LongestFirstKeepsRules(paths);
    assert paths[i] in sorted;
    var j :| 0 <= j < |sorted| && sorted[j] == paths[i];
    assert Under(ds[j], q);
    RestoresTheTree(archived, walk, paths, tmp, additional, map[], i, q);
  }

  // ---- keeping backups out of the way ----

  /** Configuration validation: refuses a storage directory that is, or lies in, a path of
      the blueprint. */
  method EnsureNotInBackedUpPath(dir: Path, paths: seq<Rule>) returns (ok: bool)
    ensures ok <==> forall i :: 0 <= i < |paths| ==> !AtOrUnder(paths[i].to, dir)
  {
    for i := 0 to |paths|
      invariant forall k :: 0 <= k < i ==> !AtOrUnder(paths[k].to, dir)
    {
      match Classify(paths[i].to, dir) {
        case Exact => return false;
        case Below(_) => return false;
        case Apart =>
      }
    }
    return true;
  }

  /** A backup stored in an accepted directory survives every restoration, successful or
      not: its file is neither moved aside, nor overwritten, nor removed. */
  lemma StoredBackupsSurvive(before: Tree, t: Tree, paths: seq<Rule>, extracted: Tree, dir: Path, name: Path)
    requires forall i :: 0 <= i < |paths| ==> !AtOrUnder(paths[i].to, dir)
    requires var ds := Destinations(LongestFirst(paths));
      Unchanged(before, t, ds) || Committed(before, t, ds, extracted)
    requires name != "" && forall i :: 0 <= i < |name| ==> name[i] != '/'
    requires forall i :: 0 <= i < |paths| ==> Trim(paths[i].to) != Trim(dir) + "/" + name
    ensures var q := Trim(dir) + "/" + name; q in before ==> q in t && t[q] == before[q]
  {
    var q := Trim(dir) + "/" + name;
    var ds := Destinations(LongestFirst(paths));
    forall i: nat | i < |ds| ensures !Under(ds[i], q) {
      OutsideDestination(paths, dir, name, i);
    }
    assert SameOrDir(before, t, ParentDirs(ds), q);
  }

  lemma OutsideDestination(paths: seq<Rule>, dir: Path, name: Path, i: nat)
    requires forall i :: 0 <= i < |paths| ==> !AtOrUnder(paths[i].to, dir)
    requires forall i :: 0 <= i < |name| ==> name[i] != '/'
    requires forall i :: 0 <= i < |paths| ==> Trim(paths[i].to) != Trim(dir) + "/" + name
    requires i < |Destinations(LongestFirst(paths))|
    ensures !Under(Destinations(LongestFirst(paths))[i], Trim(dir) + "/" + name)
  {
    LongestFirstKeepsRules(paths);
    assert LongestFirst(paths)[i] in paths;
    var k :| 0 <= k < |paths| && paths[k] == LongestFirst(paths)[i];
    FileOutside(Trim(paths[k].to), dir, name);
  }

  lemma FileOutside(d: Path, dir: Path, name: Path)
    requires !Under(d, dir) && d != Trim(dir) + "/" + name
    requires forall i :: 0 <= i < |name| ==> name[i] != '/'
    ensures !Under(d, Trim(dir) + "/" + name)
  {
    var q := Trim(dir) + "/" + name;
    if |d| <= |Trim(dir)| {
      assert q[..|d|] == Trim(dir)[..|d|] == dir[..|d|];
      assert |d| < |Trim(dir)| ==> q[|d|] == dir[|d|];
      assert |d| == |Trim(dir)| ==> dir == d || dir == d + "/" || dir[..|d|] != d;
    } else if |d| < |q| {
      assert q[|d|] == name[|d| - |Trim(dir)| - 1];
    }
  }
}
