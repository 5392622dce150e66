/** The file-system operations that restoration uses, on trees of nodes, and how moving
    destinations aside and reverting act on every path. */
module FileTrees {
  import opened Paths
  import opened Wrappers
  import opened Archiving

  /** A path exists when something is at or under it. */
  predicate Exists(t: Tree, p: Path) {
    exists q :: q in t && Under(p, q)
  }

  /** Neither path is at or under the other. */
  predicate Disjoint(p: Path, q: Path) {
    !Under(p, q) && !Under(q, p)
  }

  function RemoveTree(t: Tree, p: Path): Tree {
    map q | q in t && !Under(p, q) :: t[q]
  }

  /** Renaming `a` to `b`; refused when `b` exists or one contains the other. */
  function MoveTree(t: Tree, a: Path, b: Path): (moved: Tree)
    ensures Exists(t, b) || !Disjoint(a, b) ==> moved == t
  {
    if Exists(t, b) || !Disjoint(a, b) then t
    else
      var stay := set q | q in t && !Under(a, q);
      var go := set q | q in t && Under(a, q) :: b + q[|a|..];
      map r | r in stay + go :: if Under(b, r) then MovedFrom(t, a, b, r) else t[r]
  }

  function MovedFrom(t: Tree, a: Path, b: Path, r: Path): Node
    requires Under(b, r)
  {
    Get(t, a + r[|b|..]).GetOr(Dir)
  }

  lemma MoveTreeAt(t: Tree, a: Path, b: Path, r: Path)
    requires !Exists(t, b) && Disjoint(a, b)
    ensures Get(MoveTree(t, a, b), r) ==
      if Under(b, r) then Get(t, a + r[|b|..]) else if Under(a, r) then None else Get(t, r)
  {
    var stay := set q | q in t && !Under(a, q);
    var go := set q | q in t && Under(a, q) :: b + q[|a|..];
    if Under(b, r) {
      var source := a + r[|b|..];
      assert r !in t;
      assert r == b + r[|b|..];
      if source in t {
        assert source[|a|..] == r[|b|..];
        assert r in go;
      } else {
        assert forall q :: q in t && Under(a, q) ==> q == a + q[|a|..];
        assert r !in go;
      }
    } else {
      assert forall q :: Under(a, q) ==> Under(b, b + q[|a|..]);
      assert r !in go;
    }
  }

  /** The directories `create_dir_all` makes sure of. */
  function Ancestors(p: Path): set<Path> {
    set i | 1 <= i <= |p| && (i == |p| || p[i] == '/') :: p[..i]
  }

  /** Directories where there is nothing. */
  function WithDirs(t: Tree, dirs: set<Path>): Tree {
    map q | q in t.Keys + dirs :: if q in t then t[q] else Dir
  }

  function CreateDirs(t: Tree, p: Path): Tree { WithDirs(t, Ancestors(p)) }

  /** `.bak` if that name is free, else a time-stamped one. */
  function BackupName(t: Tree, p: Path, stamp: string): Path {
    if Exists(t, p + ".bak") then p + "." + stamp + ".bak" else p + ".bak"
  }

  // ---- reverting ----

  /** A destination and, if it existed, where its old contents were moved to. */
  datatype Saved = Saved(path: Path, backup: Option<Path>)

  function RevertOne(t: Tree, s: Saved): Tree {
    var cleared := RemoveTree(t, s.path);
    match s.backup
    case None => cleared
    case Some(b) => MoveTree(cleared, b, s.path)
  }

  /** `revert` walks the list forwards. */
  function Reverted(t: Tree, saved: seq<Saved>): Tree
    decreases |saved|
  {
    if saved == [] then t else Reverted(RevertOne(t, saved[0]), saved[1..])
  }

  ghost predicate SavedApart(s: Saved) {
    s.backup.Some? ==> Disjoint(s.path, s.backup.value)
  }

  /** No path of one entry contains or lies in a path of the other. */
  ghost predicate EntriesApart(s: Saved, s': Saved) {
    && Disjoint(s.path, s'.path)
    && (s.backup.Some? ==> Disjoint(s.backup.value, s'.path))
    && (s'.backup.Some? ==> Disjoint(s.path, s'.backup.value))
    && (s.backup.Some? && s'.backup.Some? ==> Disjoint(s.backup.value, s'.backup.value))
  }

  ghost predicate AllApart(saved: seq<Saved>) {
    && (forall i :: 0 <= i < |saved| ==> SavedApart(saved[i]))
    && (forall i, j :: 0 <= i < j < |saved| ==> EntriesApart(saved[i], saved[j]))
  }

  /** The entry says something about `q`. */
  predicate Touches(s: Saved, q: Path) {
    Under(s.path, q) || (s.backup.Some? && Under(s.backup.value, q))
  }

  /** What reverting one entry leaves at `q`. */
  function RevertOneGet(t: Tree, s: Saved, q: Path): Option<Node> {
    if Under(s.path, q) then
      (match s.backup case None => None case Some(b) => Get(t, b + q[|s.path|..]))
    else if s.backup.Some? && Under(s.backup.value, q) then None
    else Get(t, q)
  }

  lemma RevertOneAt(t: Tree, s: Saved, q: Path)
    requires SavedApart(s)
    ensures Get(RevertOne(t, s), q) == RevertOneGet(t, s, q)
  {
    var cleared := RemoveTree(t, s.path);
    if s.backup.Some? {
      var b := s.backup.value;
      MoveTreeAt(cleared, b, s.path, q);
      if Under(s.path, q) {
        var source := b + q[|s.path|..];
        assert Under(b, source);
        if Under(s.path, source) { CommonPathNests(b, s.path, source); }
      }
    }
  }

  /** Reverting brings back the saved contents under every saved path, removes every
      moved-aside copy, and leaves the rest alone. */
  lemma {:induction false} RevertedAt(t: Tree, saved: seq<Saved>, q: Path)
    requires AllApart(saved)
    ensures forall i :: 0 <= i < |saved| && Touches(saved[i], q) ==>
      Get(Reverted(t, saved), q) == RevertOneGet(t, saved[i], q)
    ensures (forall i :: 0 <= i < |saved| ==> !Touches(saved[i], q)) ==> Get(Reverted(t, saved), q) == Get(t, q)
    decreases |saved|
  {
    if saved != [] {
      var s, rest := saved[0], saved[1..];
      var t' := RevertOne(t, s);
      RevertedAt(t', rest, q);
      RevertOneAt(t, s, q);
      forall i | 0 <= i < |saved| && Touches(saved[i], q)
        ensures Get(Reverted(t, saved), q) == RevertOneGet(t, saved[i], q)
      {
        if i == 0 {
          forall j | 0 <= j < |rest| ensures !Touches(rest[j], q) {
            assert EntriesApart(saved[0], saved[j + 1]);
            TouchedOnce(s, rest[j], q);
          }
        } else {
          assert EntriesApart(saved[0], saved[i]);
          assert rest[i - 1] == saved[i];
          OthersStay(t, s, saved[i], q);
        }
      }
      if forall i :: 0 <= i < |saved| ==> !Touches(saved[i], q) {
        assert forall j :: 0 <= j < |rest| ==> rest[j] == saved[j + 1];
      }
    }
  }

  lemma TouchedOnce(s: Saved, s': Saved, q: Path)
    requires EntriesApart(s, s') && Touches(s, q)
    ensures !Touches(s', q)
  {
    forall a, b | Disjoint(a, b) && Under(a, q) ensures !Under(b, q) {
      if Under(b, q) { CommonPathNests(a, b, q); }
    }
  }

  /** Reverting one entry does not disturb what another one reads. */
  lemma OthersStay(t: Tree, s: Saved, s': Saved, q: Path)
    requires SavedApart(s) && EntriesApart(s, s') && Touches(s', q)
    ensures RevertOneGet(RevertOne(t, s), s', q) == RevertOneGet(t, s', q)
  {
    if Under(s'.path, q) && s'.backup.Some? {
      var source := s'.backup.value + q[|s'.path|..];
      assert Under(s'.backup.value, source);
      RevertOneAt(t, s, source);
      EntriesApartSymmetric(s, s');
      TouchedOnce(s', s, source);
    }
  }

  lemma EntriesApartSymmetric(s: Saved, s': Saved)
    requires EntriesApart(s, s')
    ensures EntriesApart(s', s)
  {
  }

  // ---- moving aside ----

  /** The same node as before, or a directory created on the way to a destination. */
  ghost predicate SameOrDir(before: Tree, t: Tree, dirs: set<Path>, q: Path) {
    Get(t, q) == Get(before, q) || (q in dirs && Get(before, q) == None && Get(t, q) == Some(Dir))
  }

  /** The old contents of the entry's path are at its backup, and nothing is left at the path. */
  ghost predicate Keeps(before: Tree, t: Tree, s: Saved) {
    && (forall q :: Under(s.path, q) ==> Get(t, q) == None && RevertOneGet(t, s, q) == Get(before, q))
    && (s.backup.Some? ==> forall q :: Under(s.backup.value, q) ==> Get(before, q) == None)
  }

  ghost predicate Untouched(saved: seq<Saved>, q: Path) {
    forall i :: 0 <= i < |saved| ==> !Touches(saved[i], q)
  }

  ghost predicate MovedAside(before: Tree, t: Tree, saved: seq<Saved>, dirs: set<Path>) {
    && AllApart(saved)
    && (forall i :: 0 <= i < |saved| ==> Keeps(before, t, saved[i]))
    && (forall q :: Untouched(saved, q) ==> SameOrDir(before, t, dirs, q))
  }

  ghost predicate ApartFromAll(saved: seq<Saved>, p: Path) {
    forall i :: 0 <= i < |saved| ==>
      Disjoint(saved[i].path, p) && (saved[i].backup.Some? ==> Disjoint(saved[i].backup.value, p))
  }

  lemma ApartMeansUntouched(saved: seq<Saved>, p: Path, q: Path)
    requires ApartFromAll(saved, p) && Under(p, q)
    ensures Untouched(saved, q)
  {
    forall i | 0 <= i < |saved| ensures !Touches(saved[i], q) {
      var s := saved[i];
      if Under(s.path, q) { CommonPathNests(s.path, p, q); }
      if s.backup.Some? && Under(s.backup.value, q) { CommonPathNests(s.backup.value, p, q); }
    }
  }

  lemma AllApartExtend(saved: seq<Saved>, s: Saved)
    requires AllApart(saved) && SavedApart(s)
    requires ApartFromAll(saved, s.path) && (s.backup.Some? ==> ApartFromAll(saved, s.backup.value))
    ensures AllApart(saved + [s])
  {
  }

  /** Entries already saved are not disturbed by a change elsewhere. */
  lemma KeepsElsewhere(before: Tree, t: Tree, t': Tree, s: Saved)
    requires SavedApart(s) && Keeps(before, t, s)
    requires forall q :: Touches(s, q) ==> Get(t', q) == Get(t, q)
    ensures Keeps(before, t', s)
  {
    forall q | Under(s.path, q) ensures Get(t', q) == None && RevertOneGet(t', s, q) == Get(before, q) {
      assert Touches(s, q);
      if s.backup.Some? {
        var source := s.backup.value + q[|s.path|..];
        assert Under(s.backup.value, source);
        assert Touches(s, source);
      }
    }
  }

  /** Moving an existing destination to a free name. */
  lemma AsideMoves(before: Tree, t: Tree, saved: seq<Saved>, dirs: set<Path>, d: Path, b: Path)
    requires MovedAside(before, t, saved, dirs)
    requires ApartFromAll(saved, d) && ApartFromAll(saved, b) && Disjoint(d, b) && !Exists(t, b)
    requires forall q :: q in dirs ==> !Under(d, q) && !Under(b, q)
    ensures MovedAside(before, MoveTree(t, d, b), saved + [Saved(d, Some(b))], dirs)
  {
    var t', s := MoveTree(t, d, b), Saved(d, Some(b));
    AllApartExtend(saved, s);
    forall i | 0 <= i < |saved| ensures Keeps(before, t', saved[i]) {
      forall q | Touches(saved[i], q) ensures Get(t', q) == Get(t, q) {
        MoveTreeAt(t, d, b, q);
        if Under(d, q) { ApartMeansUntouched(saved, d, q); }
        if Under(b, q) { ApartMeansUntouched(saved, b, q); }
      }
      KeepsElsewhere(before, t, t', saved[i]);
    }
    NewlyKept(before, t, saved, dirs, d, b);
    forall q | Untouched(saved + [s], q) ensures SameOrDir(before, t', dirs, q) {
      assert (saved + [s])[|saved|] == s;
      assert forall i :: 0 <= i < |saved| ==> (saved + [s])[i] == saved[i];
      assert !Touches(s, q);
      assert Untouched(saved, q);
      MoveTreeAt(t, d, b, q);
    }
  }

  lemma NewlyKept(before: Tree, t: Tree, saved: seq<Saved>, dirs: set<Path>, d: Path, b: Path)
    requires MovedAside(before, t, saved, dirs)
    requires ApartFromAll(saved, d) && ApartFromAll(saved, b) && Disjoint(d, b) && !Exists(t, b)
    requires forall q :: q in dirs ==> !Under(d, q) && !Under(b, q)
    ensures Keeps(before, MoveTree(t, d, b), Saved(d, Some(b)))
  {
    var t', s := MoveTree(t, d, b), Saved(d, Some(b));
    forall q | Under(d, q) ensures Get(t', q) == None && RevertOneGet(t', s, q) == Get(before, q) {
      ApartMeansUntouched(saved, d, q);
      assert SameOrDir(before, t, dirs, q);
      MoveTreeAt(t, d, b, q);
      if Under(b, q) { CommonPathNests(d, b, q); }
      var source := b + q[|d|..];
      assert Under(b, source);
      MoveTreeAt(t, d, b, source);
      assert source[|b|..] == q[|d|..] && d + q[|d|..] == q;
    }
    forall q | Under(b, q) ensures Get(before, q) == None {
      ApartMeansUntouched(saved, b, q);
      assert SameOrDir(before, t, dirs, q);
    }
  }

  /** Making the directories above a destination that does not exist. */
  lemma AsideCreates(before: Tree, t: Tree, saved: seq<Saved>, dirs: set<Path>, d: Path, parent: Path)
    requires MovedAside(before, t, saved, dirs)
    requires ApartFromAll(saved, d) && !Exists(t, d)
    requires Ancestors(parent) <= dirs
    requires forall q :: q in dirs ==> !Under(d, q) && Untouched(saved, q)
    ensures MovedAside(before, CreateDirs(t, parent), saved + [Saved(d, None)], dirs)
  {
    var t', s := CreateDirs(t, parent), Saved(d, None);
    AllApartExtend(saved, s);
    forall i | 0 <= i < |saved| ensures Keeps(before, t', saved[i]) {
      KeepsElsewhere(before, t, t', saved[i]);
    }
    forall q | Under(d, q) ensures Get(t', q) == None && Get(before, q) == None {
      ApartMeansUntouched(saved, d, q);
      assert SameOrDir(before, t, dirs, q);
    }
    forall q | Untouched(saved + [s], q) ensures SameOrDir(before, t', dirs, q) {
      assert forall i :: 0 <= i < |saved| ==> (saved + [s])[i] == saved[i];
      assert Untouched(saved, q);
      assert SameOrDir(before, t, dirs, q);
    }
  }

  /** Reverting after any change confined to the saved paths and to `scratch` restores
      everything outside `scratch`. */
  lemma RevertRestores(before: Tree, aside: Tree, t: Tree, saved: seq<Saved>, dirs: set<Path>, q: Path)
    requires MovedAside(before, aside, saved, dirs)
    requires forall p :: Get(t, p) == Get(aside, p) || exists i :: 0 <= i < |saved| && Under(saved[i].path, p)
    ensures SameOrDir(before, Reverted(t, saved), dirs, q)
  {
    RevertedAt(t, saved, q);
    if i :| 0 <= i < |saved| && Touches(saved[i], q) {
      var s := saved[i];
      assert Keeps(before, aside, s);
      if Under(s.path, q) && s.backup.Some? {
        var source := s.backup.value + q[|s.path|..];
        assert Under(s.backup.value, source);
        BackupsAreNotPaths(saved, i, source);
      }
    } else {
      assert Untouched(saved, q);
      assert SameOrDir(before, aside, dirs, q);
    }
  }

  lemma BackupsAreNotPaths(saved: seq<Saved>, i: nat, q: Path)
    requires AllApart(saved) && i < |saved| && saved[i].backup.Some? && Under(saved[i].backup.value, q)
    ensures forall j :: 0 <= j < |saved| ==> !Under(saved[j].path, q)
  {
    var b := saved[i].backup.value;
    forall j | 0 <= j < |saved| ensures !Under(saved[j].path, q) {
      assert i < j ==> EntriesApart(saved[i], saved[j]);
      assert j < i ==> EntriesApart(saved[j], saved[i]);
      assert SavedApart(saved[i]);
      if Under(saved[j].path, q) { CommonPathNests(b, saved[j].path, q); }
    }
  }

  /** Deleting an unrelated directory before or after reverting comes to the same. */
  lemma UndoThenClean(t: Tree, saved: seq<Saved>, tmp: Path, q: Path)
    requires AllApart(saved) && ApartFromAll(saved, tmp)
    ensures Get(RemoveTree(Reverted(t, saved), tmp), q) == Get(Reverted(RemoveTree(t, tmp), saved), q)
  {
    RevertedAt(t, saved, q);
    RevertedAt(RemoveTree(t, tmp), saved, q);
    if Under(tmp, q) {
      ApartMeansUntouched(saved, tmp, q);
    } else if i :| 0 <= i < |saved| && Touches(saved[i], q) {
      CleanKeepsBackup(t, saved, i, tmp, q);
    } else {
      assert Untouched(saved, q);
    }
  }

  lemma CleanKeepsBackup(t: Tree, saved: seq<Saved>, i: nat, tmp: Path, q: Path)
    requires ApartFromAll(saved, tmp) && i < |saved| && !Under(tmp, q)
    ensures RevertOneGet(RemoveTree(t, tmp), saved[i], q) == RevertOneGet(t, saved[i], q)
  {
    var s := saved[i];
    if s.backup.Some? && Under(s.path, q) {
      var source := s.backup.value + q[|s.path|..];
      assert Under(s.backup.value, source);
      if Under(tmp, source) { CommonPathNests(tmp, s.backup.value, source); }
    }
  }
}
