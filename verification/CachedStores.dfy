/** An object store fronted by a size-bounded, first-in-first-out cache of local files.

    A cached object lives in one file per key; a guard deletes that file when the last
    holder of the guard (a cache entry or an open reader) lets go of it. */
module CachedStores {
  import opened Wrappers

  type Key = string
  type Bytes = string

  datatype CacheEntry = CacheEntry(key: Key, guard: nat, size: nat)

  /** An open reader: copying the object to its cache file as it is read, reading the cache
      file, or only keeping the file alive. */
  datatype Reader =
    | Caching(key: Key, guard: nat, source: Bytes, pos: nat)
    | Cached(key: Key, guard: nat, pos: nat)
    | Path(key: Key, guard: nat)

  datatype ReadError = ObjectNotFound | Other

  function Advance(r: Reader, n: nat): Reader {
    match r
    case Caching(key, guard, source, pos) => Caching(key, guard, source, pos + n)
    case Cached(key, guard, pos) => Cached(key, guard, pos + n)
    case Path(_, _) => r
  }

  // ---- accounting ----

  function Total(entries: seq<CacheEntry>): nat {
    if entries == [] then 0 else entries[0].size + Total(entries[1..])
  }

  lemma {:induction false} TotalAppend(entries: seq<CacheEntry>, e: CacheEntry)
    ensures Total(entries + [e]) == Total(entries) + e.size
  {
    if entries == [] {
      assert [e][1..] == [];
    } else {
      TotalAppend(entries[1..], e);
      assert (entries + [e])[1..] == entries[1..] + [e];
    }
  }

  predicate UniqueKeys(entries: seq<CacheEntry>) {
    forall i, j :: 0 <= i < j < |entries| ==> entries[i].key != entries[j].key
  }

  predicate HasKey(entries: seq<CacheEntry>, key: Key) {
    exists i :: 0 <= i < |entries| && entries[i].key == key
  }

  /** How many of the oldest entries must go: the fewest that leave room for `size`. */
  function Evictions(entries: seq<CacheEntry>, size: nat, max: nat): (k: nat)
    requires size <= max
    ensures k <= |entries|
    ensures Total(entries[k..]) + size <= max
    ensures forall i :: 0 <= i < k ==> Total(entries[i..]) + size > max
  {
    if Total(entries) + size <= max then 0
    else
      var k := Evictions(entries[1..], size, max);
      assert entries[1..][k..] == entries[1 + k..];
      assert forall i :: 1 <= i < 1 + k ==> entries[i..] == entries[1..][i - 1..];
      1 + k
  }

  lemma MoreToEvict(entries: seq<CacheEntry>, size: nat, max: nat, k: nat)
    requires size <= max && k <= Evictions(entries, size, max) && Total(entries[k..]) + size > max
    ensures k < Evictions(entries, size, max) && entries[k..] != [] && entries[k..][1..] == entries[k + 1..]
  {
  }

  lemma EnoughEvicted(entries: seq<CacheEntry>, size: nat, max: nat, k: nat)
    requires size <= max && k <= Evictions(entries, size, max) && Total(entries[k..]) + size <= max
    ensures k == Evictions(entries, size, max)
  {
  }

  /** The cache after an insertion. */
  function Inserted(entries: seq<CacheEntry>, maxSize: Option<nat>, e: CacheEntry): seq<CacheEntry> {
    if HasKey(entries, e.key) then entries
    else
      match maxSize
      case None => entries + [e]
      case Some(max) => if e.size > max then entries else entries[Evictions(entries, e.size, max)..] + [e]
  }

  /** Without the entries of one key. */
  function Without(entries: seq<CacheEntry>, key: Key): seq<CacheEntry> {
    if entries == [] then []
    else (if entries[0].key == key then [] else [entries[0]]) + Without(entries[1..], key)
  }

  /** With unique keys, removing a key takes out one entry and gives back its size. */
  lemma {:induction false} WithoutOne(entries: seq<CacheEntry>, i: nat)
    requires UniqueKeys(entries) && i < |entries|
    ensures Without(entries, entries[i].key) == entries[..i] + entries[i + 1..]
    ensures Total(entries) == Total(entries[..i] + entries[i + 1..]) + entries[i].size
  {
    if i == 0 {
      WithoutAbsent(entries[1..], entries[0].key);
      assert entries[..0] + entries[1..] == entries[1..];
    } else {
      WithoutOne(entries[1..], i - 1);
      var rest := entries[1..];
      assert [entries[0]] + (rest[..i - 1] + rest[i..]) == entries[..i] + entries[i + 1..];
      assert (entries[..i] + entries[i + 1..])[1..] == rest[..i - 1] + rest[i..];
    }
  }

  lemma {:induction false} WithoutAbsent(entries: seq<CacheEntry>, key: Key)
    requires !HasKey(entries, key)
    ensures Without(entries, key) == entries
  {
    if entries != [] {
      assert entries[0].key != key;
      forall i | 0 <= i < |entries[1..]| ensures entries[1..][i].key != key {
        assert entries[i + 1].key != key;
      }
      WithoutAbsent(entries[1..], key);
      assert entries == [entries[0]] + entries[1..];
    }
  }

  // ---- what ties entries, readers and files together ----

  /** The live guard of a cache file, and the reader still writing the file, if any. */
  datatype FileInfo = FileInfo(guard: nat, writer: Option<nat>)

  ghost predicate EntryOk(files: map<Key, Bytes>, live: map<Key, FileInfo>, e: CacheEntry) {
    && e.key in files && e.size == |files[e.key]|
    && e.key in live && live[e.key] == FileInfo(e.guard, None)
  }

  /** `whole` is what the reader yields when it is read to its end: for a caching reader what
      the inner store held when it was opened, for the others what their file holds. */
  ghost predicate ReaderOk(files: map<Key, Bytes>, live: map<Key, FileInfo>, id: nat, r: Reader, whole: Bytes) {
    && r.key in files && r.key in live && live[r.key].guard == r.guard
    && match r
       case Caching(key, _, source, pos) =>
         live[key].writer == Some(id) && source == whole && pos <= |source| && files[key] == source[..pos]
       case Cached(key, _, pos) => live[key].writer == None && files[key] == whole && pos <= |whole|
       case Path(key, _) => live[key].writer == None && files[key] == whole
  }

  ghost predicate EntriesOk(files: map<Key, Bytes>, live: map<Key, FileInfo>, entries: seq<CacheEntry>) {
    UniqueKeys(entries) && forall i {:trigger EntryOk(files, live, entries[i])} :: 0 <= i < |entries| ==>
      EntryOk(files, live, entries[i])
  }

  ghost predicate ReadersOk(files: map<Key, Bytes>, live: map<Key, FileInfo>, readers: map<nat, Reader>,
                            wholes: map<nat, Bytes>) {
    readers.Keys == wholes.Keys
      && forall id {:trigger ReaderOk(files, live, id, readers[id], wholes[id])} :: id in readers ==>
          ReaderOk(files, live, id, readers[id], wholes[id])
  }

  /** A cache path has one live guard at most, and no guard serves two paths. */
  ghost predicate LiveOk(files: map<Key, Bytes>, live: map<Key, FileInfo>, nextId: nat) {
    && live.Keys <= files.Keys
    && (forall k :: k in live ==> live[k].guard < nextId)
    && (forall k, k' :: k in live && k' in live && live[k].guard == live[k'].guard ==> k == k')
  }

  predicate Holds(readers: map<nat, Reader>, key: Key) {
    exists id :: id in readers && readers[id].key == key
  }

  /** The whole state, as a value. */
  datatype State = State(
    inner: map<Key, Bytes>, entries: seq<CacheEntry>, totalSize: int, files: map<Key, Bytes>,
    readers: map<nat, Reader>, nextId: nat, live: map<Key, FileInfo>, wholes: map<nat, Bytes>)

  /** What every operation keeps, whatever was done before. */
  ghost predicate Inv(s: State, maxSize: Option<nat>) {
    && EntriesOk(s.files, s.live, s.entries)
    && ReadersOk(s.files, s.live, s.readers, s.wholes)
    && LiveOk(s.files, s.live, s.nextId)
    && (forall id :: id in s.readers ==> id < s.nextId)
    && s.totalSize == Total(s.entries)
    && (maxSize.Some? ==> s.totalSize <= maxSize.value)
  }

  /** The cache agrees with the store behind it: every cached object is there, with the
      same contents, and so is every object that is being copied. */
  ghost predicate Agrees(s: State) {
    && (forall i {:trigger Faithful(s, s.entries[i].key)} :: 0 <= i < |s.entries| ==> Faithful(s, s.entries[i].key))
    && (forall id {:trigger CopiesObject(s, id)} :: id in s.readers && s.readers[id].Caching? ==> CopiesObject(s, id))
  }

  ghost predicate Faithful(s: State, key: Key) {
    key in s.inner && key in s.files && s.files[key] == s.inner[key]
  }

  ghost predicate CopiesObject(s: State, id: nat)
    requires id in s.readers && s.readers[id].Caching?
  {
    s.readers[id].key in s.inner && s.inner[s.readers[id].key] == s.readers[id].source
  }

  /** A file nobody holds any more is deleted with its guard. */
  ghost function Release(s: State, key: Key): State {
    if HasKey(s.entries, key) || Holds(s.readers, key) then s
    else s.(files := s.files - {key}, live := s.live - {key})
  }

  /** Files that neither an entry nor a reader holds. */
  ghost function Strays(s: State): set<Key> {
    set k | k in s.files && !HasKey(s.entries, k) && !Holds(s.readers, k)
  }

  /** A released file is not left astray. */
  lemma ReleaseLeavesNone(s: State, key: Key)
    ensures Strays(Release(s, key)) == Strays(s) - {key}
  {
  }

  /** A key that stops being held is released at once, so nothing goes astray. */
  lemma LetGo(s: State, mid: State, key: Key)
    requires mid.files == s.files && (HasKey(s.entries, key) || Holds(s.readers, key))
    requires forall k :: k != key ==> (HasKey(s.entries, k) <==> HasKey(mid.entries, k))
    requires forall k :: k != key ==> (Holds(s.readers, k) <==> Holds(mid.readers, k))
    ensures Strays(Release(mid, key)) == Strays(s)
  {
    ReleaseLeavesNone(mid, key);
    assert forall k :: k in Strays(s) <==> k in Strays(mid) - {key};
  }

  /** Readers that change without changing keys, on the same files, leave none astray. */
  lemma SameStrays(s: State, t: State)
    requires t.files.Keys == s.files.Keys && t.entries == s.entries && t.readers.Keys == s.readers.Keys
    requires forall id :: id in s.readers ==> t.readers[id].key == s.readers[id].key
    ensures Strays(t) == Strays(s)
  {
    forall k ensures Holds(t.readers, k) <==> Holds(s.readers, k) {
      if Holds(s.readers, k) {
        var id :| id in s.readers && s.readers[id].key == k;
        assert t.readers[id].key == k;
      }
    }
  }

  /** A new reader of a key that is cached, or of a new file, leaves none astray. */
  lemma OneMoreReader(s: State, t: State, id: nat)
    requires t.entries == s.entries && id in t.readers && id !in s.readers
    requires t.readers == s.readers[id := t.readers[id]]
    requires t.files.Keys == s.files.Keys + {t.readers[id].key}
    requires t.readers[id].key in s.files ==> HasKey(s.entries, t.readers[id].key)
    ensures Strays(t) == Strays(s)
  {
    var key := t.readers[id].key;
    assert Holds(t.readers, key);
    forall k | k != key ensures Holds(t.readers, k) <==> Holds(s.readers, k) {
      if Holds(s.readers, k) {
        var o :| o in s.readers && s.readers[o].key == k;
        assert t.readers[o].key == k;
      }
    }
  }

  lemma NewFileIsHeld(s: State, maxSize: Option<nat>, key: Key)
    requires Inv(s, maxSize) && key !in s.files && key in s.inner
    ensures Strays(OpenCaching(s, key)) == Strays(s)
  {
    AbsentFileIsNotCached(s, maxSize, key);
    OneMoreReader(s, OpenCaching(s, key), s.nextId);
  }

  lemma OthersStayCached(entries: seq<CacheEntry>, i: nat, key: Key)
    requires i < |entries| && key != entries[i].key
    ensures HasKey(entries, key) <==> HasKey(entries[..i] + entries[i + 1..], key)
  {
    var rest := entries[..i] + entries[i + 1..];
    if HasKey(entries, key) {
      var k :| 0 <= k < |entries| && entries[k].key == key;
      assert rest[if k < i then k else k - 1].key == key;
    }
    if HasKey(rest, key) {
      var k :| 0 <= k < |rest| && rest[k].key == key;
      assert entries[if k < i then k else k + 1].key == key;
    }
  }

  lemma OthersStayHeld(readers: map<nat, Reader>, id: nat, key: Key)
    requires id in readers && key != readers[id].key
    ensures Holds(readers, key) <==> Holds(readers - {id}, key)
  {
    if Holds(readers, key) {
      var o :| o in readers && readers[o].key == key;
      assert o in readers - {id} && (readers - {id})[o].key == key;
    }
  }

  lemma AppendedHasKey(entries: seq<CacheEntry>, e: CacheEntry, key: Key)
    ensures HasKey(entries + [e], key) <==> HasKey(entries, key) || e.key == key
  {
    if HasKey(entries, key) {
      var k :| 0 <= k < |entries| && entries[k].key == key;
      assert (entries + [e])[k].key == key;
    }
    assert (entries + [e])[|entries|] == e;
  }

  lemma ReleaseKeeps(s: State, maxSize: Option<nat>, key: Key)
    requires Inv(s, maxSize)
    ensures Inv(Release(s, key), maxSize)
  {
    SmallerKeeps(s, Release(s, key), maxSize);
  }

  /** Readers and files may go, and files may come, as long as what is held stays. */
  lemma SmallerKeeps(s: State, t: State, maxSize: Option<nat>)
    requires Inv(s, maxSize) && t.entries == s.entries && t.totalSize == s.totalSize && t.nextId == s.nextId
    requires t.readers.Keys <= s.readers.Keys && t.readers.Keys == t.wholes.Keys
    requires forall id :: id in t.readers ==> t.readers[id] == s.readers[id] && t.wholes[id] == s.wholes[id]
    requires forall k :: HasKey(t.entries, k) || Holds(t.readers, k) ==>
      (k in s.files ==> k in t.files && t.files[k] == s.files[k])
        && (k in s.live ==> k in t.live && t.live[k] == s.live[k])
    requires t.live.Keys <= s.live.Keys && t.live.Keys <= t.files.Keys
    requires forall k :: k in t.live ==> t.live[k] == s.live[k]
    ensures Inv(t, maxSize)
  {
    forall i | 0 <= i < |t.entries| ensures EntryOk(t.files, t.live, t.entries[i]) {
      assert EntryOk(s.files, s.live, s.entries[i]);
      assert HasKey(t.entries, t.entries[i].key);
    }
    forall id | id in t.readers ensures ReaderOk(t.files, t.live, id, t.readers[id], t.wholes[id]) {
      assert ReaderOk(s.files, s.live, id, s.readers[id], s.wholes[id]);
      assert Holds(t.readers, t.readers[id].key);
    }
  }

  lemma TakenOut(entries: seq<CacheEntry>, i: nat)
    requires UniqueKeys(entries) && i < |entries|
    ensures var rest := entries[..i] + entries[i + 1..];
      && UniqueKeys(rest) && !HasKey(rest, entries[i].key)
      && forall k :: 0 <= k < |rest| ==> rest[k] in entries
  {
    var rest := entries[..i] + entries[i + 1..];
    forall k | 0 <= k < |rest| ensures rest[k] == entries[if k < i then k else k + 1] {}
  }

  /** Taking out the entry at an index. */
  lemma TakeOutKeeps(s: State, maxSize: Option<nat>, i: nat)
    requires Inv(s, maxSize) && i < |s.entries|
    ensures Inv(s.(entries := s.entries[..i] + s.entries[i + 1..], totalSize := s.totalSize - s.entries[i].size),
      maxSize)
  {
    WithoutOne(s.entries, i);
    TakenOut(s.entries, i);
    assert forall e :: e in s.entries ==> EntryOk(s.files, s.live, e);
  }

  lemma AppendKeeps(s: State, maxSize: Option<nat>, e: CacheEntry)
    requires Inv(s, maxSize) && EntryOk(s.files, s.live, e) && !HasKey(s.entries, e.key)
    requires maxSize.Some? ==> s.totalSize + e.size <= maxSize.value
    ensures Inv(s.(entries := s.entries + [e], totalSize := s.totalSize + e.size), maxSize)
  {
    TotalAppend(s.entries, e);
  }

  ghost function OpenCached(s: State, i: nat): State
    requires i < |s.entries| && s.entries[i].key in s.files
  {
    var e := s.entries[i];
    s.(nextId := s.nextId + 1, readers := s.readers[s.nextId := Cached(e.key, e.guard, 0)],
       wholes := s.wholes[s.nextId := s.files[e.key]])
  }

  lemma OpenCachedKeeps(s: State, maxSize: Option<nat>, i: nat)
    requires Inv(s, maxSize) && i < |s.entries|
    ensures s.entries[i].key in s.files && s.nextId !in s.readers && Inv(OpenCached(s, i), maxSize)
  {
    assert EntryOk(s.files, s.live, s.entries[i]);
  }

  lemma NewFileKeeps(s: State, maxSize: Option<nat>, key: Key)
    requires Inv(s, maxSize) && key !in s.files
    ensures Inv(s.(files := s.files[key := ""]), maxSize)
  {
    SmallerKeeps(s, s.(files := s.files[key := ""]), maxSize);
  }

  ghost function OpenCaching(s: State, key: Key): State
    requires key in s.inner
  {
    var id := s.nextId;
    s.(files := s.files[key := ""], nextId := id + 1, live := s.live[key := FileInfo(id, Some(id))],
       readers := s.readers[id := Caching(key, id, s.inner[key], 0)],
       wholes := s.wholes[id := s.inner[key]])
  }

  lemma OpenCachingKeeps(s: State, maxSize: Option<nat>, key: Key)
    requires Inv(s, maxSize) && key !in s.files && key in s.inner
    ensures s.nextId !in s.readers && Inv(OpenCaching(s, key), maxSize)
  {
    var t := OpenCaching(s, key);
    forall i | 0 <= i < |t.entries| ensures EntryOk(t.files, t.live, t.entries[i]) {
      assert EntryOk(s.files, s.live, s.entries[i]);
    }
    forall id | id in t.readers ensures ReaderOk(t.files, t.live, id, t.readers[id], t.wholes[id]) {
      if id != s.nextId {
        assert ReaderOk(s.files, s.live, id, s.readers[id], s.wholes[id]);
      }
    }
  }

  /** A reader may change as long as it still fits its file. */
  lemma MoveReaderKeeps(s: State, maxSize: Option<nat>, id: nat, r: Reader)
    requires Inv(s, maxSize) && id in s.readers && ReaderOk(s.files, s.live, id, r, s.wholes[id])
    ensures Inv(s.(readers := s.readers[id := r]), maxSize)
  {
    var t := s.(readers := s.readers[id := r]);
    forall o | o in t.readers ensures ReaderOk(t.files, t.live, o, t.readers[o], t.wholes[o]) {
      assert o != id ==> ReaderOk(s.files, s.live, o, s.readers[o], s.wholes[o]);
    }
  }

  /** Nothing else holds the file a caching reader is writing. */
  lemma OnlyWriter(s: State, maxSize: Option<nat>, id: nat)
    requires Inv(s, maxSize) && id in s.readers && s.readers[id].Caching?
    ensures !HasKey(s.entries, s.readers[id].key)
    ensures forall o :: o in s.readers && o != id ==> s.readers[o].key != s.readers[id].key
  {
    assert ReaderOk(s.files, s.live, id, s.readers[id], s.wholes[id]);
    forall o | o in s.readers && o != id ensures s.readers[o].key != s.readers[id].key {
      assert ReaderOk(s.files, s.live, o, s.readers[o], s.wholes[o]);
    }
    forall i | 0 <= i < |s.entries| ensures s.entries[i].key != s.readers[id].key {
      assert EntryOk(s.files, s.live, s.entries[i]);
    }
  }

  /** The state after a writer has written its file, or stopped writing it. */
  ghost function Written(s: State, id: nat, r: Reader, content: Bytes, info: FileInfo, whole: Bytes): State {
    s.(files := s.files[r.key := content], live := s.live[r.key := info],
       readers := s.readers[id := r], wholes := s.wholes[id := whole])
  }

  lemma WriterKeeps(s: State, maxSize: Option<nat>, id: nat, r: Reader, content: Bytes, info: FileInfo, whole: Bytes)
    requires Inv(s, maxSize) && id in s.readers && s.readers[id].Caching?
    requires r.key == s.readers[id].key && r.guard == s.readers[id].guard == info.guard
    requires ReaderOk(s.files[r.key := content], s.live[r.key := info], id, r, whole)
    ensures Inv(Written(s, id, r, content, info, whole), maxSize)
  {
    var t := Written(s, id, r, content, info, whole);
    OnlyWriter(s, maxSize, id);
    assert ReaderOk(s.files, s.live, id, s.readers[id], s.wholes[id]);
    WriterEntries(s, r.key, content, info);
    WriterReaders(s, id, r, content, info, whole);
    assert LiveOk(t.files, t.live, t.nextId);
  }

  /** `n` more bytes of the object are in the file. */
  ghost function Copied(s: State, id: nat, n: nat): State
    requires id in s.readers && s.readers[id].Caching? && s.readers[id].key in s.files
    requires s.readers[id].pos + n <= |s.readers[id].source|
  {
    var r := s.readers[id];
    s.(files := s.files[r.key := s.files[r.key] + r.source[r.pos..r.pos + n]],
      readers := s.readers[id := Advance(r, n)])
  }

  lemma SameEntry<K, V>(m: map<K, V>, key: K)
    requires key in m
    ensures m[key := m[key]] == m
  {
  }

  lemma CopyKeeps(s: State, maxSize: Option<nat>, id: nat, n: nat)
    requires Inv(s, maxSize) && id in s.readers && s.readers[id].Caching?
    requires s.readers[id].pos + n <= |s.readers[id].source|
    ensures s.readers[id].key in s.files && Inv(Copied(s, id, n), maxSize)
  {
    var r := s.readers[id];
    assert ReaderOk(s.files, s.live, id, r, s.wholes[id]);
    PrefixGrows(r.source, r.pos, n);
    SameEntry(s.live, r.key);
    SameEntry(s.wholes, id);
    WriterKeeps(s, maxSize, id, Advance(r, n), s.files[r.key] + r.source[r.pos..r.pos + n], s.live[r.key],
      s.wholes[id]);
  }

  lemma CopyAgrees(s: State, maxSize: Option<nat>, id: nat, n: nat)
    requires Inv(s, maxSize) && id in s.readers && s.readers[id].Caching? && s.readers[id].key in s.files
    requires s.readers[id].pos + n <= |s.readers[id].source|
    ensures Agrees(s) ==> Agrees(Copied(s, id, n))
  {
    if Agrees(s) {
      OnlyWriter(s, maxSize, id);
      CopyKeeps(s, maxSize, id, n);
      FewerEntriesAgree(s, Copied(s, id, n), maxSize);
    }
  }

  lemma WriterEntries(s: State, key: Key, content: Bytes, info: FileInfo)
    requires EntriesOk(s.files, s.live, s.entries) && !HasKey(s.entries, key)
    ensures EntriesOk(s.files[key := content], s.live[key := info], s.entries)
  {
    forall i | 0 <= i < |s.entries| ensures EntryOk(s.files[key := content], s.live[key := info], s.entries[i]) {
      assert EntryOk(s.files, s.live, s.entries[i]);
    }
  }

  lemma WriterReaders(s: State, id: nat, r: Reader, content: Bytes, info: FileInfo, whole: Bytes)
    requires ReadersOk(s.files, s.live, s.readers, s.wholes) && id in s.readers
    requires forall o :: o in s.readers && o != id ==> s.readers[o].key != r.key
    requires ReaderOk(s.files[r.key := content], s.live[r.key := info], id, r, whole)
    ensures ReadersOk(s.files[r.key := content], s.live[r.key := info], s.readers[id := r], s.wholes[id := whole])
  {
    forall o | o in s.readers && o != id
      ensures ReaderOk(s.files[r.key := content], s.live[r.key := info], o, s.readers[o], s.wholes[o])
    {
      assert ReaderOk(s.files, s.live, o, s.readers[o], s.wholes[o]);
    }
  }

  lemma DropKeeps(s: State, maxSize: Option<nat>, id: nat)
    requires Inv(s, maxSize) && id in s.readers
    ensures Inv(s.(readers := s.readers - {id}, wholes := s.wholes - {id}), maxSize)
  {
    SmallerKeeps(s, s.(readers := s.readers - {id}, wholes := s.wholes - {id}), maxSize);
  }

  // ---- keeping the agreement ----

  lemma FilesOfEntries(s: State, maxSize: Option<nat>, i: nat)
    requires Inv(s, maxSize) && i < |s.entries|
    ensures s.entries[i].key in s.files && HasKey(s.entries, s.entries[i].key)
  {
    assert EntryOk(s.files, s.live, s.entries[i]);
  }

  /** Entries may go, and files that no entry needs. */
  lemma FewerEntriesAgree(s: State, t: State, maxSize: Option<nat>)
    requires Inv(s, maxSize) && Inv(t, maxSize) && Agrees(s) && t.inner == s.inner
    requires forall e :: e in t.entries ==> e in s.entries
    requires forall k :: k in t.files && HasKey(s.entries, k) ==> k in s.files && t.files[k] == s.files[k]
    requires forall id :: id in t.readers && t.readers[id].Caching? ==>
      id in s.readers && s.readers[id].Caching? && t.readers[id].key == s.readers[id].key
        && t.readers[id].source == s.readers[id].source
    ensures Agrees(t)
  {
    forall i | 0 <= i < |t.entries| ensures Faithful(t, t.entries[i].key) {
      FilesOfEntries(t, maxSize, i);
      var e := t.entries[i];
      assert e in s.entries;
      var k :| 0 <= k < |s.entries| && s.entries[k] == e;
      assert Faithful(s, s.entries[k].key);
    }
    forall id | id in t.readers && t.readers[id].Caching? ensures CopiesObject(t, id) {
      assert CopiesObject(s, id);
    }
  }

  lemma WriteAgrees(s: State, key: Key, data: Bytes)
    requires key !in s.inner && Agrees(s)
    ensures Agrees(s.(inner := s.inner[key := data]))
  {
    var t := s.(inner := s.inner[key := data]);
    forall i | 0 <= i < |t.entries| ensures Faithful(t, t.entries[i].key) {
      assert Faithful(s, s.entries[i].key);
    }
    forall id | id in t.readers && t.readers[id].Caching? ensures CopiesObject(t, id) {
      assert CopiesObject(s, id);
    }
  }

  lemma OpenCachingAgrees(s: State, maxSize: Option<nat>, key: Key)
    requires Inv(s, maxSize) && Agrees(s) && key !in s.files && key in s.inner
    ensures Agrees(OpenCaching(s, key))
  {
    var t := OpenCaching(s, key);
    forall i | 0 <= i < |t.entries| ensures Faithful(t, t.entries[i].key) {
      assert Faithful(s, s.entries[i].key);
    }
    forall id | id in t.readers && t.readers[id].Caching? ensures CopiesObject(t, id) {
      if id != s.nextId { assert CopiesObject(s, id); }
    }
  }

  lemma OpenedMiss(s: State, maxSize: Option<nat>, key: Key)
    requires Inv(s, maxSize) && key !in s.files && key in s.inner
    ensures s.nextId !in s.readers && Inv(OpenCaching(s, key), maxSize)
    ensures Strays(OpenCaching(s, key)) == Strays(s) && (Agrees(s) ==> Agrees(OpenCaching(s, key)))
  {
    OpenCachingKeeps(s, maxSize, key);
    NewFileIsHeld(s, maxSize, key);
    if Agrees(s) { OpenCachingAgrees(s, maxSize, key); }
  }

  /** Agreement after deleting an object and its cached copy: only readers still copying the
      object are in the way. */
  lemma DeleteAgrees(s: State, key: Key)
    requires Agrees(s) && !HasKey(s.entries, key)
    ensures Agrees(s.(inner := s.inner - {key})) <==>
      forall id :: id in s.readers && s.readers[id].Caching? ==> s.readers[id].key != key
  {
    var t := s.(inner := s.inner - {key});
    forall i | 0 <= i < |t.entries| ensures Faithful(t, t.entries[i].key) {
      assert Faithful(s, s.entries[i].key);
      assert s.entries[i].key != key;
    }
    forall id | id in t.readers && t.readers[id].Caching? ensures CopiesObject(t, id) <==> t.readers[id].key != key {
      assert CopiesObject(s, id);
    }
  }

  /** Every cached key still exists in the inner store. */
  lemma AbsentIsNotCached(s: State, key: Key)
    requires Agrees(s) && key !in s.inner
    ensures !HasKey(s.entries, key)
  {
    forall i | 0 <= i < |s.entries| ensures s.entries[i].key != key {
      assert Faithful(s, s.entries[i].key);
    }
  }

  // ---- the store ----

  class CachedStore {
    /** The store behind the cache. */
    var inner: map<Key, Bytes>
    var entries: seq<CacheEntry>
    var totalSize: int
    const maxSize: Option<nat>
    /** The cache directory. */
    var files: map<Key, Bytes>
    var readers: map<nat, Reader>
    var nextId: nat
    ghost var live: map<Key, FileInfo>
    ghost var wholes: map<nat, Bytes>

    ghost function Now(): State
      reads this
    {
      State(inner, entries, totalSize, files, readers, nextId, live, wholes)
    }

    ghost predicate Valid()
      reads this
    {
      Inv(Now(), maxSize)
    }

    ghost predicate Agreeing()
      reads this
    {
      Agrees(Now())
    }

    predicate Fits(size: nat) {
      maxSize.Some? ==> size <= maxSize.value
    }

    constructor (maxSize: Option<nat>)
      ensures Valid() && Agreeing() && this.maxSize == maxSize
      ensures Now() == State(map[], [], 0, map[], map[], 0, map[], map[])
    {
      this.maxSize := maxSize;
      inner, entries, totalSize, files, readers, nextId := map[], [], 0, map[], map[], 0;
      live, wholes := map[], map[];
    }

    /** Objects are written once: an existing key is refused. */
    method Write(key: Key, data: Bytes) returns (ok: bool)
      requires Valid()
      modifies this
      ensures Valid() && (old(Agreeing()) ==> Agreeing())
      ensures ok <==> key !in old(inner)
      ensures Now() == if ok then old(Now()).(inner := old(inner)[key := data]) else old(Now())
    {
      if key in inner { return false; }
      if Agreeing() { WriteAgrees(Now(), key, data); }
      inner := inner[key := data];
      return true;
    }

    /** Lets go of a key's file. */
    method ReleaseFile(key: Key)
      requires Valid()
      modifies this
      ensures Valid() && Now() == Release(old(Now()), key)
    {
      ReleaseKeeps(Now(), maxSize, key);
      if !HasKey(entries, key) && !Holds(readers, key) {
        files := files - {key};
        live := live - {key};
      }
    }

    /** Removes the entry at an index, as `pop_front` and `remove` do. */
    method TakeOut(i: nat)
      requires Valid() && i < |entries|
      modifies this
      ensures Valid()
      ensures var s := old(Now());
        Now() == Release(s.(entries := s.entries[..i] + s.entries[i + 1..],
          totalSize := s.totalSize - s.entries[i].size), s.entries[i].key)
      ensures Strays(Now()) == Strays(old(Now()))
    {
      ghost var s := Now();
      TakeOutKeeps(s, maxSize, i);
      var e := entries[i];
      entries := entries[..i] + entries[i + 1..];
      totalSize := totalSize - e.size;
      forall k | k != e.key ensures HasKey(s.entries, k) <==> HasKey(entries, k) { OthersStayCached(s.entries, i, k); }
      LetGo(s, Now(), e.key);
      ReleaseFile(e.key);
    }

    /** Nothing but the cache has changed, files have only gone, and not the one of `key`. */
    twostate predicate OnlyCacheChanged(key: Key)
      reads this
    {
      && inner == old(inner) && readers == old(readers) && wholes == old(wholes) && nextId == old(nextId)
      && (key in old(live) ==> key in live && live[key] == old(live)[key])
      && (key in old(files) ==> key in files && files[key] == old(files)[key])
      && (forall k :: k in files ==> k in old(files) && files[k] == old(files)[k])
      && Strays(Now()) == Strays(old(Now()))
    }

    method EvictOldest(ghost key: Key)
      requires Valid() && entries != [] && Holds(readers, key)
      modifies this
      ensures Valid() && entries == old(entries)[1..] && OnlyCacheChanged(key)
    {
      assert entries[..0] + entries[1..] == entries[1..];
      TakeOut(0);
    }

    /** Pops the oldest entries until `size` more bytes fit. */
    method MakeRoom(size: nat, max: nat, ghost key: Key)
      requires Valid() && maxSize == Some(max) && size <= max && Holds(readers, key)
      modifies this
      ensures Valid() && OnlyCacheChanged(key)
      ensures entries == old(entries)[Evictions(old(entries), size, max)..]
      ensures totalSize + size <= max
    {
      ghost var k, before := 0, entries;
      while totalSize + size > max
        invariant 0 <= k <= Evictions(before, size, max)
        invariant Valid() && OnlyCacheChanged(key)
        invariant entries == before[k..]
        decreases |entries|
      {
        MoreToEvict(before, size, max, k);
        if entries == [] {
          // the "desynchronized" branch: sizes always add up, so it is never taken
          assert false;
          break;
        }
        EvictOldest(key);
        k := k + 1;
      }
      EnoughEvicted(before, size, max, k);
    }

    /** Records a cache file, evicting the oldest entries to make room; an object that is
        already cached or larger than the whole cache is not recorded. */
    method Cache(key: Key, guard: nat)
      requires Valid() && Holds(readers, key)
      requires key in files && key in live && live[key] == FileInfo(guard, None)
      modifies this
      ensures Valid() && OnlyCacheChanged(key) && key in files
      ensures entries == Inserted(old(entries), maxSize, CacheEntry(key, guard, |files[key]|))
    {
      var e := CacheEntry(key, guard, |files[key]|);
      if HasKey(entries, key) { return; }
      if maxSize.Some? {
        if e.size > maxSize.value { return; }
        MakeRoom(e.size, maxSize.value, key);
      }
      Append(e);
    }

    method Append(e: CacheEntry)
      requires Valid() && EntryOk(files, live, e) && !HasKey(entries, e.key)
      requires maxSize.Some? ==> totalSize + e.size <= maxSize.value
      requires Holds(readers, e.key)
      modifies this`entries, this`totalSize
      ensures Valid() && entries == old(entries) + [e] && Strays(Now()) == Strays(old(Now()))
    {
      AppendKeeps(Now(), maxSize, e);
      forall k ensures HasKey(entries + [e], k) <==> HasKey(entries, k) || e.key == k { AppendedHasKey(entries, e, k); }
      entries := entries + [e];
      totalSize := totalSize + e.size;
    }

    /** `key` was opened: a reader at the beginning, and nothing else has changed. */
    twostate predicate Opened(key: Key, id: nat)
      reads this
    {
      && id !in old(readers) && id in readers && id in wholes
      && readers == old(readers)[id := readers[id]] && wholes == old(wholes)[id := wholes[id]]
      && readers[id].key == key && !readers[id].Path? && readers[id].pos == 0
      && inner == old(inner) && entries == old(entries) && Strays(Now()) == Strays(old(Now()))
    }

    method OpenHit(i: nat) returns (id: nat)
      requires Valid() && i < |entries|
      modifies this
      ensures Valid() && (old(Agreeing()) ==> Agreeing()) && files == old(files)
      ensures Opened(old(entries)[i].key, id) && readers[id].Cached? && readers[id].key in files
      ensures wholes[id] == files[readers[id].key]
    {
      ghost var s := Now();
      OpenCachedKeeps(s, maxSize, i);
      var e := entries[i];
      id := nextId;
      nextId := nextId + 1;
      readers := readers[id := Cached(e.key, e.guard, 0)];
      wholes := wholes[id := files[e.key]];
      OneMoreReader(s, Now(), id);
      if Agrees(s) { FewerEntriesAgree(s, Now(), maxSize); }
    }

    method OpenMiss(key: Key) returns (id: nat)
      requires Valid() && key !in files && key in inner
      modifies this
      ensures Valid() && (old(Agreeing()) ==> Agreeing()) && files == old(files)[key := ""]
      ensures Opened(key, id) && readers[id].Caching? && key in inner && wholes[id] == inner[key]
    {
      ghost var s := Now();
      OpenedMiss(s, maxSize, key);
      id := nextId;
      files := files[key := ""];
      nextId := nextId + 1;
      live := live[key := FileInfo(id, Some(id))];
      readers := readers[id := Caching(key, id, inner[key], 0)];
      wholes := wholes[id := inner[key]];
      assert Now() == OpenCaching(s, key);
    }

    /** Opens an object.  A cached one is read from its file; otherwise a new cache file is
        created first, and only then is the inner store asked for the object: when it is
        missing there, the empty file stays behind and the key can no longer be opened. */
    method CachedReader(key: Key) returns (res: Result<nat, ReadError>)
      requires Valid()
      modifies this
      ensures Valid() && (old(Agreeing()) ==> Agreeing())
      ensures res.Success? <==> HasKey(old(entries), key) || (key !in old(files) && key in old(inner))
      ensures res.Success? ==> Opened(key, res.value) && (readers[res.value].Caching? <==> !HasKey(old(entries), key))
      ensures res.Success? && !HasKey(old(entries), key) ==> key in inner && wholes[res.value] == inner[key]
      ensures res.Success? && HasKey(old(entries), key) ==> key in old(files) && wholes[res.value] == old(files)[key]
      ensures res.Success? && old(Agreeing()) ==> key in inner && wholes[res.value] == inner[key]
      ensures res.Failure? ==> key in files && !HasKey(entries, key) && Now() == old(Now()).(files := files)
      ensures res == Failure(ObjectNotFound) <==>
        key !in old(inner) && key !in old(files) && !HasKey(old(entries), key)
      ensures Strays(Now()) == Strays(old(Now())) + if res == Failure(ObjectNotFound) then {key} else {}
      ensures forall k :: k != key && k in old(files) ==> k in files && files[k] == old(files)[k]
    {
      var i := 0;
      while i < |entries|
        invariant 0 <= i <= |entries|
        invariant forall k :: 0 <= k < i ==> entries[k].key != key
      {
        if entries[i].key == key {
          assert Agreeing() ==> Faithful(Now(), entries[i].key);
          var id := OpenHit(i);
          return Success(id);
        }
        i := i + 1;
      }
      if key in files {
        return Failure(Other);
      }
      if key !in inner {
        ghost var s := Now();
        NewFileKeeps(s, maxSize, key);
        files := files[key := ""];
        if Agrees(s) { FewerEntriesAgree(s, Now(), maxSize); }
        UnheldWithoutFile(s, maxSize, key);
        return Failure(ObjectNotFound);
      }
      var id := OpenMiss(key);
      return Success(id);
    }

    method ReadCaching(id: nat, n: nat) returns (chunk: Bytes)
      requires Valid() && id in readers && readers[id].Caching? && id in wholes && readers[id].pos + n <= |wholes[id]|
      modifies this
      ensures Valid() && (old(Agreeing()) ==> Agreeing())
      ensures var r := old(readers)[id];
        chunk == old(wholes)[id][r.pos..r.pos + n] && readers == old(readers)[id := Advance(r, n)]
      ensures inner == old(inner) && entries == old(entries) && wholes == old(wholes)
      ensures Strays(Now()) == Strays(old(Now()))
    {
      var r := readers[id];
      assert ReaderOk(files, live, id, r, wholes[id]);
      chunk := r.source[r.pos..r.pos + n];
      ghost var s := Now();
      CopyKeeps(s, maxSize, id, n);
      CopyAgrees(s, maxSize, id, n);
      files := files[r.key := files[r.key] + chunk];
      readers := readers[id := Advance(r, n)];
      assert Now() == Copied(s, id, n);
      SameStrays(s, Now());
    }

    /** Reads the next `n` bytes of what the reader was opened on; a caching reader copies
        them to its file. */
    method Read(id: nat, n: nat) returns (chunk: Bytes)
      requires Valid() && id in readers && !readers[id].Path? && id in wholes && readers[id].pos + n <= |wholes[id]|
      modifies this
      ensures Valid() && (old(Agreeing()) ==> Agreeing())
      ensures var r := old(readers)[id];
        chunk == old(wholes)[id][r.pos..r.pos + n] && readers == old(readers)[id := Advance(r, n)]
      ensures inner == old(inner) && entries == old(entries) && wholes == old(wholes)
      ensures Strays(Now()) == Strays(old(Now()))
      ensures old(readers)[id].Cached? ==> files == old(files)
    {
      var r := readers[id];
      if r.Caching? {
        chunk := ReadCaching(id, n);
      } else {
        assert ReaderOk(files, live, id, r, wholes[id]);
        chunk := files[r.key][r.pos..r.pos + n];
        ghost var s := Now();
        MoveReaderKeeps(s, maxSize, id, Advance(r, n));
        readers := readers[id := Advance(r, n)];
        SameStrays(s, Now());
        if Agrees(s) { FewerEntriesAgree(s, Now(), maxSize); }
      }
    }

    /** The writer of a copy, complete or not, only keeps the file alive from now on. */
    method StopCopy(id: nat)
      requires Valid() && id in readers && readers[id].Caching?
      modifies this
      ensures Valid() && (old(Agreeing()) ==> Agreeing())
      ensures var r := old(readers)[id];
        && readers == old(readers)[id := Path(r.key, r.guard)] && r.pos <= |r.source|
        && r.key in live && live[r.key] == FileInfo(r.guard, None)
        && r.key in files && files[r.key] == r.source[..r.pos] && wholes == old(wholes)[id := r.source[..r.pos]]
        && !HasKey(entries, r.key)
      ensures inner == old(inner) && entries == old(entries) && Strays(Now()) == Strays(old(Now()))
    {
      var r := readers[id];
      ghost var s := Now();
      assert ReaderOk(files, live, id, r, wholes[id]);
      assert files[r.key := files[r.key]] == files;
      OnlyWriter(s, maxSize, id);
      WriterKeeps(s, maxSize, id, Path(r.key, r.guard), files[r.key], FileInfo(r.guard, None), files[r.key]);
      live := live[r.key := FileInfo(r.guard, None)];
      readers := readers[id := Path(r.key, r.guard)];
      wholes := wholes[id := files[r.key]];
      assert Now() == Written(s, id, Path(r.key, r.guard), s.files[r.key], FileInfo(r.guard, None), s.files[r.key]);
      SameStrays(s, Now());
      if Agrees(s) { FewerEntriesAgree(s, Now(), maxSize); }
    }

    /** The copy was given up before its end, and yet is small enough to be recorded. */
    predicate RecordsTooEarly(r: Reader) {
      TooEarly(r, maxSize)
    }

    /** Gives up reading; a copy enters the cache, whether it is complete or not.  The cache
        goes on agreeing with the store exactly when no incomplete copy was recorded. */
    method PersistCache(id: nat)
      requires Valid() && id in readers
      modifies this
      ensures Valid()
      ensures readers == old(readers)[id := Path(old(readers)[id].key, old(readers)[id].guard)]
      ensures id in old(wholes) && wholes == old(wholes)[id := wholes[id]]
      ensures var r := old(readers)[id]; r.Caching? ==> r.source == old(wholes)[id] && r.pos <= |r.source|
      ensures var r := old(readers)[id]; wholes[id] == if r.Caching? then r.source[..r.pos] else old(wholes)[id]
      ensures readers[id].key in files && files[readers[id].key] == wholes[id]
      ensures entries ==
        if old(readers)[id].Caching?
        then Inserted(old(entries), maxSize, CacheEntry(readers[id].key, readers[id].guard, |wholes[id]|))
        else old(entries)
      ensures inner == old(inner) && (!old(readers)[id].Caching? ==> files == old(files))
      ensures Strays(Now()) == Strays(old(Now()))
      ensures old(Agreeing()) ==> (Agreeing() <==> !RecordsTooEarly(old(readers)[id]))
    {
      var r := readers[id];
      ghost var s := Now();
      assert ReaderOk(files, live, id, r, wholes[id]);
      if r.Caching? {
        StopCopy(id);
        ghost var stopped := Now();
        assert Holds(readers, r.key) by { assert readers[id].key == r.key; }
        Cache(r.key, r.guard);
        if Agrees(s) { RecordedAgrees(s, stopped, Now(), maxSize, id); }
      } else {
        SameEntry(wholes, id);
        MoveReaderKeeps(s, maxSize, id, Path(r.key, r.guard));
        readers := readers[id := Path(r.key, r.guard)];
        SameStrays(s, Now());
        if Agrees(s) { FewerEntriesAgree(s, Now(), maxSize); }
      }
    }

    method Rewind(id: nat)
      requires Valid() && id in readers && !readers[id].Caching?
      modifies this
      ensures Valid() && (old(Agreeing()) <==> Agreeing())
      ensures readers == old(readers)[id := Cached(old(readers)[id].key, old(readers)[id].guard, 0)]
      ensures inner == old(inner) && wholes == old(wholes) && entries == old(entries) && files == old(files)
      ensures Strays(Now()) == Strays(old(Now()))
    {
      var r := readers[id];
      ghost var s := Now();
      assert ReaderOk(files, live, id, r, wholes[id]);
      MoveReaderKeeps(s, maxSize, id, Cached(r.key, r.guard, 0));
      readers := readers[id := Cached(r.key, r.guard, 0)];
      SameStrays(s, Now());
      if Agrees(s) { FewerEntriesAgree(s, Now(), maxSize); }
      if Agrees(Now()) { FewerEntriesAgree(Now(), s, maxSize); }
    }

    /** Persists, then reads from the beginning what is in the file: the same bytes again,
        unless the copy was incomplete. */
    method PersistCacheAndRewind(id: nat)
      requires Valid() && id in readers && !readers[id].Path?
      modifies this
      ensures Valid()
      ensures readers == old(readers)[id := Cached(old(readers)[id].key, old(readers)[id].guard, 0)]
      ensures id in old(wholes) && wholes == old(wholes)[id := wholes[id]]
      ensures var r := old(readers)[id]; r.Caching? ==> r.source == old(wholes)[id] && r.pos <= |r.source|
      ensures var r := old(readers)[id]; wholes[id] == if r.Caching? then r.source[..r.pos] else old(wholes)[id]
      ensures readers[id].key in files && files[readers[id].key] == wholes[id]
      ensures entries ==
        if old(readers)[id].Caching?
        then Inserted(old(entries), maxSize, CacheEntry(readers[id].key, readers[id].guard, |wholes[id]|))
        else old(entries)
      ensures inner == old(inner) && Strays(Now()) == Strays(old(Now()))
      ensures old(Agreeing()) ==> (Agreeing() <==> !RecordsTooEarly(old(readers)[id]))
    {
      ObjectSize(Now(), maxSize, id);
      if readers[id].Caching? {
        PersistCopyAndRewind(id);
      } else {
        SameEntry(wholes, id);
        Rewind(id);
      }
    }

    method PersistCopyAndRewind(id: nat)
      requires Valid() && id in readers && readers[id].Caching?
      modifies this
      ensures Valid() && id in old(wholes)
      ensures var r := old(readers)[id];
        && r.source == old(wholes)[id] && r.pos <= |r.source|
        && readers == old(readers)[id := Cached(r.key, r.guard, 0)]
        && wholes == old(wholes)[id := r.source[..r.pos]]
        && r.key in files && files[r.key] == r.source[..r.pos]
        && entries == Inserted(old(entries), maxSize, CacheEntry(r.key, r.guard, |r.source[..r.pos]|))
      ensures inner == old(inner) && Strays(Now()) == Strays(old(Now()))
      ensures old(Agreeing()) ==> (Agreeing() <==> !RecordsTooEarly(old(readers)[id]))
    {
      ghost var r := readers[id];
      PersistCache(id);
      Rewind(id);
      assert readers == old(readers)[id := Cached(r.key, r.guard, 0)];
    }

    /** Closing a reader deletes its file when nothing else holds it. */
    method DropReader(id: nat)
      requires Valid() && id in readers
      modifies this
      ensures Valid() && (old(Agreeing()) ==> Agreeing())
      ensures var s := old(Now());
        Now() == Release(s.(readers := s.readers - {id}, wholes := s.wholes - {id}), s.readers[id].key)
      ensures Strays(Now()) == Strays(old(Now()))
    {
      ghost var s := Now();
      DropKeeps(s, maxSize, id);
      var key := readers[id].key;
      readers := readers - {id};
      wholes := wholes - {id};
      forall k | k != key ensures Holds(s.readers, k) <==> Holds(readers, k) { OthersStayHeld(s.readers, id, k); }
      LetGo(s, Now(), key);
      ReleaseFile(key);
      if Agrees(s) { FewerEntriesAgree(s, Now(), maxSize); }
    }

    /** Removes the entry of a key, if any. */
    method Remove(key: Key)
      requires Valid()
      modifies this
      ensures Valid() && (old(Agreeing()) ==> Agreeing())
      ensures entries == Without(old(entries), key) && !HasKey(entries, key)
      ensures inner == old(inner) && readers == old(readers) && wholes == old(wholes)
      ensures Strays(Now()) == Strays(old(Now()))
      ensures key in files ==> Holds(readers, key) || !HasKey(old(entries), key)
      ensures !HasKey(old(entries), key) ==> Now() == old(Now())
    {
      var i := 0;
      while i < |entries| && entries[i].key != key
        invariant 0 <= i <= |entries|
        invariant forall k :: 0 <= k < i ==> entries[k].key != key
      {
        i := i + 1;
      }
      if i == |entries| {
        WithoutAbsent(entries, key);
      } else {
        ghost var s := Now();
        WithoutOne(entries, i);
        TakenOut(entries, i);
        TakeOut(i);
        if Agrees(s) { FewerEntriesAgree(s, Now(), maxSize); }
      }
    }

    /** Some reader is still copying this object. */
    predicate BeingCopied(key: Key)
      reads this
    {
      exists id :: id in readers && readers[id].Caching? && readers[id].key == key
    }

    /** Deletes an object, then its cached copy.  A missing object is an error and nothing
        changes.  The cache goes on agreeing with the store exactly when nobody was copying
        the object. */
    method Delete(key: Key) returns (ok: bool)
      requires Valid()
      modifies this
      ensures Valid()
      ensures ok <==> key in old(inner)
      ensures !ok ==> Now() == old(Now())
      ensures ok ==> entries == Without(old(entries), key) && !HasKey(entries, key)
      ensures inner == old(inner) - {key} && readers == old(readers) && wholes == old(wholes)
      ensures Strays(Now()) == Strays(old(Now()))
      ensures old(Agreeing()) ==> (Agreeing() <==> !ok || !BeingCopied(key))
    {
      if key !in inner {
        return false;
      }
      Remove(key);
      if Agreeing() { DeleteAgrees(Now(), key); }
      inner := inner - {key};
      return true;
    }

    /** One turn of the copying loop. */
    method CopyMore(id: nat, data: Bytes, n: nat, ghost first: Reader) returns (more: Bytes)
      requires Valid() && id in readers && id in wholes && !first.Path? && first.pos == 0
      requires readers[id] == Advance(first, |data|) && |data| + n <= |wholes[id]| && data == wholes[id][..|data|]
      modifies this
      ensures Valid() && (old(Agreeing()) ==> Agreeing())
      ensures inner == old(inner) && entries == old(entries) && wholes == old(wholes)
      ensures |more| == |data| + n && more == old(wholes)[id][..|more|]
      ensures first.Cached? ==> files == old(files)
      ensures id in readers && readers[id] == Advance(first, |more|)
    {
      var chunk := Read(id, n);
      PrefixGrows(wholes[id], |data|, n);
      more := data + chunk;
    }

    /** Copies what a freshly opened reader yields, in chunks of any size, to its end or to
        the byte at which reading fails. */
    method ReadToEnd(id: nat, chunkSize: nat, failsAt: Option<nat>) returns (ok: bool, data: Bytes)
      requires Valid() && id in readers && !readers[id].Path? && readers[id].pos == 0 && chunkSize > 0
      modifies this
      ensures Valid() && (old(Agreeing()) ==> Agreeing())
      ensures inner == old(inner) && entries == old(entries) && wholes == old(wholes)
      ensures id in wholes && (ok <==> !(failsAt.Some? && failsAt.value <= |wholes[id]|))
      ensures data == if ok then wholes[id] else wholes[id][..failsAt.value]
      ensures old(readers)[id].Cached? ==> files == old(files)
      ensures id in readers && readers[id] == Advance(old(readers)[id], |data|)
    {
      ObjectSize(Now(), maxSize, id);
      var size := if readers[id].Caching? then |readers[id].source| else |files[readers[id].key]|;
      ok := !(failsAt.Some? && failsAt.value <= size);
      var stop := if ok then size else failsAt.value;
      data := ReadUpTo(id, chunkSize, stop);
      assert wholes[id][..|wholes[id]|] == wholes[id];
    }

    method ReadUpTo(id: nat, chunkSize: nat, stop: nat) returns (data: Bytes)
      requires Valid() && id in readers && !readers[id].Path? && readers[id].pos == 0 && chunkSize > 0
      requires id in wholes && stop <= |wholes[id]|
      modifies this
      ensures Valid() && (old(Agreeing()) ==> Agreeing())
      ensures inner == old(inner) && entries == old(entries) && wholes == old(wholes)
      ensures |data| == stop && data == wholes[id][..stop]
      ensures old(readers)[id].Cached? ==> files == old(files)
      ensures id in readers && readers[id] == Advance(old(readers)[id], |data|)
    {
      ghost var first, whole, agreed := readers[id], wholes[id], Agreeing();
      data := "";
      while |data| < stop
        invariant Valid() && (agreed ==> Agreeing())
        invariant inner == old(inner) && entries == old(entries) && wholes == old(wholes)
        invariant |data| <= stop && data == whole[..|data|] && (first.Cached? ==> files == old(files))
        invariant id in readers && readers[id] == Advance(first, |data|)
      {
        var n := if |data| + chunkSize <= stop then chunkSize else stop - |data|;
        data := CopyMore(id, data, n, first);
      }
    }

    method CachePersists(id: nat, key: Key)
      requires Valid() && id in readers && !readers[id].Path? && readers[id].key == key && id in wholes
      requires readers[id].pos == |wholes[id]|
      requires readers[id].Cached? ==> HasKey(entries, key)
      modifies this
      ensures Valid() && (old(Agreeing()) ==> Agreeing()) && inner == old(inner)
      ensures Fits(|old(wholes)[id]|) ==> HasKey(entries, key)
    {
      ObjectSize(Now(), maxSize, id);
      ghost var before, e := entries, CacheEntry(key, readers[id].guard, |wholes[id]|);
      ghost var r := readers[id];
      PersistCache(id);
      assert r.Caching? ==> r.source[..r.pos] == r.source;
      if Fits(e.size) {
        InsertedHasKey(before, maxSize, e);
      }
    }

    /** A whole read through the cache: open, copy to the end, persist.  Where the cache
        agrees with the store, whatever succeeds yields exactly the object of the inner store;
        it stays in the cache unless it is larger than the whole cache. */
    method Fetch(key: Key, chunkSize: nat) returns (res: Result<Bytes, ReadError>)
      requires Valid() && chunkSize > 0
      modifies this
      ensures Valid() && (old(Agreeing()) ==> Agreeing()) && inner == old(inner)
      ensures res.Success? <==> HasKey(old(entries), key) || (key !in old(files) && key in old(inner))
      ensures res.Success? && old(Agreeing()) ==> key in inner && res.value == inner[key]
      ensures res.Success? && HasKey(old(entries), key) ==> key in old(files) && res.value == old(files)[key]
      ensures res.Success? && !HasKey(old(entries), key) ==> key in inner && res.value == inner[key]
      ensures res.Success? && Fits(|res.value|) ==> HasKey(entries, key)
    {
      var opened' := CachedReader(key);
      if opened'.Failure? { return Failure(opened'.error); }
      var id := opened'.value;
      var _, data := ReadToEnd(id, chunkSize, None);
      CachePersists(id, key);
      return Success(data);
    }

    /** A failed open poisons its key: once the object is written, the plain store can read
        it and the cached store cannot. */
    method OpenBeforeWrite(key: Key, data: Bytes) returns (res: Result<nat, ReadError>)
      requires Valid() && Agreeing() && key !in inner && key !in files
      modifies this
      ensures Valid() && key in inner && inner[key] == data && res.Failure?
    {
      AbsentIsNotCached(Now(), key);
      var missed := CachedReader(key);
      var ok := Write(key, data);
      res := CachedReader(key);
    }

    /** The run that leaves a truncated object: reading fails after `n` bytes, and the reader
        is persisted all the same.  From then on every read of the key yields those `n` bytes
        and not the object. */
    method ServesTruncated(key: Key, n: nat) returns (res: Result<Bytes, ReadError>)
      requires Valid() && Agreeing() && key in inner && key !in files && n < |inner[key]| && Fits(n)
      modifies this
      ensures Valid() && !Agreeing() && inner == old(inner)
      ensures res == Success(inner[key][..n]) && res.value != inner[key]
    {
      ghost var stored := inner[key];
      AbsentFileIsNotCached(Now(), maxSize, key);
      var opening := CachedReader(key);
      var id := opening.value;
      var ok, part := ReadToEnd(id, 8192, Some(n));
      GiveUp(key, id, n);
      assert |stored[..n]| == n;
      res := Refetched(key, stored[..n]);
    }

    /** Giving up reading after `n` bytes leaves them in the cache, if they fit. */
    method GiveUp(key: Key, id: nat, n: nat)
      requires Valid() && id in readers && readers[id].Caching? && readers[id].key == key && readers[id].pos == n
      requires Fits(n)
      modifies this
      ensures Valid() && inner == old(inner) && HasKey(entries, key) && key in files
      ensures id in old(wholes) && n <= |old(wholes)[id]| && files[key] == old(wholes)[id][..n]
    {
      ObjectSize(Now(), maxSize, id);
      ghost var before, e := entries, CacheEntry(key, readers[id].guard, n);
      PersistCache(id);
      InsertedHasKey(before, maxSize, e);
    }

    /** The run that serves a deleted object: it is deleted while being copied, and the copy
        is completed and persisted afterwards. */
    method ServesDeleted(key: Key) returns (res: Result<Bytes, ReadError>)
      requires Valid() && Agreeing() && key in inner && key !in files && Fits(|inner[key]|)
      modifies this
      ensures Valid() && !Agreeing() && inner == old(inner) - {key}
      ensures res == Success(old(inner)[key]) && key !in inner
    {
      ghost var stored := inner[key];
      AbsentFileIsNotCached(Now(), maxSize, key);
      var opening := CachedReader(key);
      var id := opening.value;
      var deleted := Delete(key);
      var ok, data := ReadToEnd(id, 8192, None);
      ObjectSize(Now(), maxSize, id);
      ghost var before, e := entries, CacheEntry(key, readers[id].guard, |stored|);
      PersistCache(id);
      InsertedHasKey(before, maxSize, e);
      assert stored[..|stored|] == stored;
      res := Refetched(key, stored);
    }

    /** A cached key is served from its file, whatever the inner store holds. */
    method Refetched(key: Key, ghost content: Bytes) returns (res: Result<Bytes, ReadError>)
      requires Valid() && HasKey(entries, key) && key in files && files[key] == content
      requires key in inner ==> inner[key] != content
      modifies this
      ensures Valid() && !Agreeing() && inner == old(inner) && res == Success(content)
    {
      var opening := CachedReader(key);
      var id := opening.value;
      var ok, data := ReadToEnd(id, 8192, None);
      ghost var s := Now();
      ObjectSize(s, maxSize, id);
      UnfaithfulEntry(s, key);
      return Success(data);
    }

    /** One operation: what it does to the store, the cache and the readers, and whether it
        leaves the cache in agreement with the store. */
    method Step(op: Operation)
      requires Valid()
      modifies this
      ensures Valid() && Follows(old(Now()), Now(), maxSize, op)
      ensures old(Agreeing()) ==> (Agreeing() <==> CleanOp(old(Now()), maxSize, op))
    {
      match op {
        case Write(key, data) => var ok := Write(key, data);
        case Open(key) => var res := CachedReader(key);
        case Read(id, n) =>
          if id in readers && !readers[id].Path? { ReadAtMost(id, n); }
        case Persist(id) =>
          if id in readers { PersistCache(id); }
        case PersistAndRewind(id) =>
          if id in readers && !readers[id].Path? { PersistCacheAndRewind(id); }
        case Close(id) =>
          if id in readers { DropReader(id); }
        case Delete(key) => var ok := Delete(key);
      }
    }

    method ReadAtMost(id: nat, n: nat)
      requires Valid() && id in readers && !readers[id].Path?
      modifies this
      ensures Valid() && (old(Agreeing()) ==> Agreeing()) && Follows(old(Now()), Now(), maxSize, Operation.Read(id, n))
    {
      ObjectSize(Now(), maxSize, id);
      var size := if readers[id].Caching? then |readers[id].source| else |files[readers[id].key]|;
      var chunk := Read(id, if readers[id].pos + n <= size then n else size - readers[id].pos);
    }

    /** Any serial run.  Accounting and guards hold throughout; the inner store is what the
        writes and deletions make it, whatever was opened, read and cached in between; and
        each operation leaves the cache in agreement with the store exactly when it neither
        records an incomplete copy nor deletes an object being copied. */
    method Run(ops: seq<Operation>) returns (ghost trace: seq<State>)
      requires Valid()
      modifies this
      ensures Valid() && |trace| == |ops| + 1 && trace[0] == old(Now()) && trace[|ops|] == Now()
      ensures forall i :: 0 <= i < |ops| ==> Stepped(trace[i], trace[i + 1], maxSize, ops[i])
      ensures old(Agreeing()) && (forall i :: 0 <= i < |ops| ==> CleanOp(trace[i], maxSize, ops[i])) ==> Agreeing()
      ensures inner == StoreAfter(old(inner), ops)
    {
      trace := [Now()];
      for k := 0 to |ops|
        invariant Valid() && |trace| == k + 1 && trace[0] == old(Now()) && trace[k] == Now()
        invariant forall i :: 0 <= i < k ==> Stepped(trace[i], trace[i + 1], maxSize, ops[i])
      {
        ghost var s := Now();
        Step(ops[k]);
        trace := trace + [Now()];
        assert Stepped(s, Now(), maxSize, ops[k]);
      }
      RunStores(trace, maxSize, ops, |ops|);
      if old(Agreeing()) && forall i :: 0 <= i < |ops| ==> CleanOp(trace[i], maxSize, ops[i]) {
        CleanRunAgrees(trace, maxSize, ops, |ops|);
      }
    }
  }

  datatype Operation =
    | Write(key: Key, data: Bytes)
    | Open(key: Key)
    | Read(id: nat, n: nat)
    | Persist(id: nat)
    | PersistAndRewind(id: nat)
    | Close(id: nat)
    | Delete(key: Key)

  // ---- what operations do, on states ----

  /** The operation records no incomplete copy and deletes no object that is being copied. */
  predicate CleanOp(s: State, maxSize: Option<nat>, op: Operation) {
    match op
    case Persist(id) => id in s.readers ==> !TooEarly(s.readers[id], maxSize)
    case PersistAndRewind(id) => id in s.readers ==> !TooEarly(s.readers[id], maxSize)
    case Delete(key) =>
      key in s.inner ==> forall id :: id in s.readers && s.readers[id].Caching? ==> s.readers[id].key != key
    case _ => true
  }

  /** An incomplete copy that is small enough to be recorded. */
  predicate TooEarly(r: Reader, maxSize: Option<nat>) {
    r.Caching? && r.pos < |r.source| && (maxSize.Some? ==> r.pos <= maxSize.value)
  }

  function Operated(inner: map<Key, Bytes>, op: Operation): map<Key, Bytes> {
    match op
    case Write(key, data) => if key in inner then inner else inner[key := data]
    case Delete(key) => inner - {key}
    case _ => inner
  }

  /** A plain store after some operations: written once, deleted, otherwise left alone. */
  function StoreAfter(inner: map<Key, Bytes>, ops: seq<Operation>): map<Key, Bytes> {
    if ops == [] then inner
    else Operated(StoreAfter(inner, ops[..|ops| - 1]), ops[|ops| - 1])
  }

  /** What an operation does to the store, to the cache's entries and to the readers; an
      operation on a reader that is not open does nothing. */
  ghost predicate Follows(s: State, t: State, maxSize: Option<nat>, op: Operation) {
    && t.inner == Operated(s.inner, op) && Strays(t) == Strays(s) + LeftAstray(s, op)
    && (match op
        case Write(_, _) => t.entries == s.entries && t.readers == s.readers
        case Open(key) =>
          t.entries == s.entries &&
          if HasKey(s.entries, key) || (key !in s.files && key in s.inner) then OpensOne(s, t, key)
            else t.readers == s.readers
        case Read(id, n) =>
          t.entries == s.entries && t.wholes == s.wholes &&
          if id in s.readers && !s.readers[id].Path? && id in s.wholes && s.readers[id].pos <= |s.wholes[id]|
          then t.readers == s.readers[id := Advance(s.readers[id], Min(n, |s.wholes[id]| - s.readers[id].pos))]
          else t.readers == s.readers
        case Persist(id) =>
          if id in s.readers then
            t.entries == Recorded(s, maxSize, id)
              && t.readers == s.readers[id := Path(s.readers[id].key, s.readers[id].guard)]
          else t == s
        case PersistAndRewind(id) =>
          if id in s.readers && !s.readers[id].Path? then
            t.entries == Recorded(s, maxSize, id)
              && t.readers == s.readers[id := Cached(s.readers[id].key, s.readers[id].guard, 0)]
          else t == s
        case Close(id) => t.entries == s.entries && t.readers == s.readers - {id}
        case Delete(key) =>
          t.readers == s.readers && t.entries == if key in s.inner then Without(s.entries, key) else s.entries)
  }

  /** Opening a missing object leaves the file that was made for it. */
  function LeftAstray(s: State, op: Operation): set<Key> {
    match op
    case Open(key) => if key !in s.files && key !in s.inner && !HasKey(s.entries, key) then {key} else {}
    case _ => {}
  }

  /** Over a run, a file is there exactly when an entry or a reader holds it, or it was left
      by opening a missing object, or nobody held it to begin with. */
  lemma FilesOfRun(trace: seq<State>, maxSize: Option<nat>, ops: seq<Operation>, n: nat, k: Key)
    requires |trace| == |ops| + 1 && n <= |ops| && Inv(trace[n], maxSize)
    requires forall i :: 0 <= i < |ops| ==> Stepped(trace[i], trace[i + 1], maxSize, ops[i])
    ensures k in trace[n].files <==>
      || HasKey(trace[n].entries, k) || Holds(trace[n].readers, k)
      || k in Strays(trace[0]) || exists i :: 0 <= i < n && k in LeftAstray(trace[i], ops[i])
  {
    StraysOfRun(trace, maxSize, ops, n, k);
    if HasKey(trace[n].entries, k) || Holds(trace[n].readers, k) {
      if k !in trace[n].files { UnheldWithoutFile(trace[n], maxSize, k); }
    }
  }

  lemma StraysOfStep(s: State, t: State, maxSize: Option<nat>, op: Operation)
    requires Stepped(s, t, maxSize, op)
    ensures Strays(t) == Strays(s) + LeftAstray(s, op)
  {
  }

  /** Sets that only grow by what each step adds. */
  lemma {:induction false} Accumulated(sets: seq<set<Key>>, added: seq<set<Key>>, n: nat, k: Key)
    requires |sets| == |added| + 1 && n <= |added|
    requires forall i :: 0 <= i < |added| ==> sets[i + 1] == sets[i] + added[i]
    ensures k in sets[n] <==> k in sets[0] || exists i :: 0 <= i < n && k in added[i]
  {
    if n > 0 {
      Accumulated(sets, added, n - 1, k);
    }
  }

  lemma StraysOfRun(trace: seq<State>, maxSize: Option<nat>, ops: seq<Operation>, n: nat, k: Key)
    requires |trace| == |ops| + 1 && n <= |ops|
    requires forall i :: 0 <= i < |ops| ==> Stepped(trace[i], trace[i + 1], maxSize, ops[i])
    ensures k in Strays(trace[n]) <==>
      k in Strays(trace[0]) || exists i :: 0 <= i < n && k in LeftAstray(trace[i], ops[i])
  {
    var sets := seq(|trace|, i requires 0 <= i < |trace| => Strays(trace[i]));
    var added := seq(|ops|, i requires 0 <= i < |ops| => LeftAstray(trace[i], ops[i]));
    forall i | 0 <= i < |ops| ensures sets[i + 1] == sets[i] + added[i] {
      StraysOfStep(trace[i], trace[i + 1], maxSize, ops[i]);
    }
    Accumulated(sets, added, n, k);
    assert forall i :: 0 <= i < |ops| ==> added[i] == LeftAstray(trace[i], ops[i]);
  }

  /** One operation from a valid state: what it does, and when it keeps agreement. */
  ghost predicate Stepped(s: State, t: State, maxSize: Option<nat>, op: Operation) {
    Inv(s, maxSize) && Follows(s, t, maxSize, op) && (Agrees(s) ==> (Agrees(t) <==> CleanOp(s, maxSize, op)))
  }

  lemma {:induction false} RunStores(trace: seq<State>, maxSize: Option<nat>, ops: seq<Operation>, n: nat)
    requires |trace| == |ops| + 1 && n <= |ops|
    requires forall i :: 0 <= i < |ops| ==> Stepped(trace[i], trace[i + 1], maxSize, ops[i])
    ensures trace[n].inner == StoreAfter(trace[0].inner, ops[..n])
    ensures n == |ops| ==> trace[n].inner == StoreAfter(trace[0].inner, ops)
  {
    if n > 0 {
      RunStores(trace, maxSize, ops, n - 1);
      assert ops[..n][..n - 1] == ops[..n - 1];
      assert Stepped(trace[n - 1], trace[n], maxSize, ops[n - 1]);
    }
    assert n == |ops| ==> ops[..n] == ops;
  }

  lemma {:induction false} CleanRunAgrees(trace: seq<State>, maxSize: Option<nat>, ops: seq<Operation>, n: nat)
    requires |trace| == |ops| + 1 && n <= |ops| && Agrees(trace[0])
    requires forall i :: 0 <= i < |ops| ==>
      Stepped(trace[i], trace[i + 1], maxSize, ops[i]) && CleanOp(trace[i], maxSize, ops[i])
    ensures Agrees(trace[n])
  {
    if n > 0 {
      CleanRunAgrees(trace, maxSize, ops, n - 1);
      assert Stepped(trace[n - 1], trace[n], maxSize, ops[n - 1]);
    }
  }

  function Min(a: nat, b: nat): nat { if a <= b then a else b }

  /** A copy that is stopped enters the cache as far as it has come. */
  function Recorded(s: State, maxSize: Option<nat>, id: nat): seq<CacheEntry>
    requires id in s.readers
  {
    match s.readers[id]
    case Caching(key, guard, _, pos) => Inserted(s.entries, maxSize, CacheEntry(key, guard, pos))
    case _ => s.entries
  }

  /** One more reader, of the cached file or of the object, at its beginning. */
  ghost predicate OpensOne(s: State, t: State, key: Key) {
    exists id :: id !in s.readers && id in t.readers && t.readers == s.readers[id := t.readers[id]]
      && id in t.wholes && t.wholes == s.wholes[id := t.wholes[id]]
      && t.readers[id].key == key && !t.readers[id].Path? && t.readers[id].pos == 0
      && (t.readers[id].Caching? <==> !HasKey(s.entries, key))
      && (if HasKey(s.entries, key) then key in s.files && t.wholes[id] == s.files[key]
          else key in s.inner && t.wholes[id] == s.inner[key])
  }

  lemma UnheldWithoutFile(s: State, maxSize: Option<nat>, key: Key)
    requires Inv(s, maxSize) && key !in s.files
    ensures !HasKey(s.entries, key) && !Holds(s.readers, key)
  {
    AbsentFileIsNotCached(s, maxSize, key);
    forall id | id in s.readers ensures s.readers[id].key != key {
      assert ReaderOk(s.files, s.live, id, s.readers[id], s.wholes[id]);
    }
  }

  lemma AbsentFileIsNotCached(s: State, maxSize: Option<nat>, key: Key)
    requires Inv(s, maxSize) && key !in s.files
    ensures !HasKey(s.entries, key)
  {
    forall i | 0 <= i < |s.entries| ensures s.entries[i].key != key {
      assert EntryOk(s.files, s.live, s.entries[i]);
    }
  }

  lemma ObjectSize(s: State, maxSize: Option<nat>, id: nat)
    requires Inv(s, maxSize) && id in s.readers
    ensures id in s.wholes && s.readers[id].key in s.files
    ensures s.wholes[id] == if s.readers[id].Caching? then s.readers[id].source else s.files[s.readers[id].key]
    ensures !s.readers[id].Path? ==> s.readers[id].pos <= |s.wholes[id]|
  {
    assert ReaderOk(s.files, s.live, id, s.readers[id], s.wholes[id]);
  }

  lemma PrefixGrows(whole: Bytes, m: nat, n: nat)
    requires m + n <= |whole|
    ensures whole[..m] + whole[m..m + n] == whole[..m + n]
  {
  }

  lemma InsertedHasKey(entries: seq<CacheEntry>, maxSize: Option<nat>, e: CacheEntry)
    requires maxSize.Some? ==> e.size <= maxSize.value
    ensures HasKey(Inserted(entries, maxSize, e), e.key)
  {
    var entries' := Inserted(entries, maxSize, e);
    if !HasKey(entries, e.key) {
      assert entries'[|entries'| - 1] == e;
    }
  }

  /** A cached copy that is not what the store holds. */
  lemma UnfaithfulEntry(s: State, key: Key)
    requires HasKey(s.entries, key) && key in s.files && !(key in s.inner && s.inner[key] == s.files[key])
    ensures !Agrees(s)
  {
    var i :| 0 <= i < |s.entries| && s.entries[i].key == key;
    assert !Faithful(s, s.entries[i].key);
  }

  /** Agreement after a copy was stopped and, if it fits, recorded. */
  lemma RecordedAgrees(s: State, stopped: State, t: State, maxSize: Option<nat>, id: nat)
    requires Inv(s, maxSize) && Inv(stopped, maxSize) && Inv(t, maxSize) && Agrees(s) && Agrees(stopped)
    requires id in s.readers && s.readers[id].Caching? && s.readers[id].pos <= |s.readers[id].source|
    requires stopped.inner == s.inner && t.inner == s.inner && stopped.entries == s.entries
    requires t.readers == stopped.readers
    requires var r := s.readers[id];
      && r.key in t.files && t.files[r.key] == r.source[..r.pos] && !HasKey(stopped.entries, r.key)
      && t.entries == Inserted(stopped.entries, maxSize, CacheEntry(r.key, r.guard, r.pos))
    requires forall k :: k in t.files ==> k in stopped.files && t.files[k] == stopped.files[k]
    ensures Agrees(t) <==> !TooEarly(s.readers[id], maxSize)
  {
    var r := s.readers[id];
    var e := CacheEntry(r.key, r.guard, r.pos);
    assert CopiesObject(s, id);
    if maxSize.Some? && r.pos > maxSize.value {
      FewerEntriesAgree(stopped, t, maxSize);
    } else if r.pos < |r.source| {
      InsertedHasKey(stopped.entries, maxSize, e);
      assert |t.files[r.key]| < |t.inner[r.key]|;
      UnfaithfulEntry(t, r.key);
    } else {
      assert r.source[..r.pos] == r.source;
      InsertedAreOld(stopped.entries, maxSize, e);
      OneMoreAgrees(stopped, t, maxSize, e);
    }
  }

  lemma InsertedAreOld(entries: seq<CacheEntry>, maxSize: Option<nat>, e: CacheEntry)
    ensures forall x :: x in Inserted(entries, maxSize, e) ==> x == e || x in entries
  {
  }

  /** One more faithful entry. */
  lemma OneMoreAgrees(s: State, t: State, maxSize: Option<nat>, e: CacheEntry)
    requires Inv(t, maxSize) && Agrees(s) && t.inner == s.inner && t.readers == s.readers
    requires Faithful(t, e.key) && forall x :: x in t.entries ==> x == e || x in s.entries
    requires forall k :: k in t.files ==> k in s.files && t.files[k] == s.files[k]
    ensures Agrees(t)
  {
    forall i | 0 <= i < |t.entries| ensures Faithful(t, t.entries[i].key) {
      FilesOfEntries(t, maxSize, i);
      if t.entries[i] != e {
        assert t.entries[i] in s.entries;
        var k :| 0 <= k < |s.entries| && s.entries[k] == t.entries[i];
        assert Faithful(s, s.entries[k].key);
      }
    }
    forall o | o in t.readers && t.readers[o].Caching? ensures CopiesObject(t, o) {
      assert CopiesObject(s, o);
    }
  }
}
