/** The directory-backed object store, the list of backups and the details of one backup. */
module BackupListing {
  import opened Wrappers
  import opened BackupIds
  import opened CachedStores
  import opened Verification

  // ---- sorted names ----

  ghost predicate Ascending(names: seq<Text>) {
    forall i, j :: 0 <= i < j < |names| ==> Before(names[i], names[j])
  }

  lemma {:induction false} BeforeIsTotal(a: Text, b: Text)
    ensures a == b || Before(a, b) || Before(b, a)
  {
    if a != "" && b != "" && a[0] == b[0] {
      BeforeIsTotal(a[1..], b[1..]);
      assert a == [a[0]] + a[1..] && b == [b[0]] + b[1..];
    }
  }

  function InsertName(n: Text, names: seq<Text>): seq<Text> {
    if names == [] || Before(n, names[0]) then [n] + names else [names[0]] + InsertName(n, names[1..])
  }

  lemma {:induction false} InsertKeepsAscending(n: Text, names: seq<Text>)
    requires Ascending(names) && n !in names
    ensures Ascending(InsertName(n, names))
    ensures forall x :: x in InsertName(n, names) <==> x == n || x in names
  {
    if names == [] {
    } else if Before(n, names[0]) {
      forall j | 0 <= j < |names| ensures Before(n, names[j]) {
        if j > 0 { BeforeTransitive(n, names[0], names[j]); }
      }
    } else {
      InsertKeepsAscending(n, names[1..]);
      BeforeIsTotal(n, names[0]);
      var tail := InsertName(n, names[1..]);
      forall j | 0 <= j < |tail| ensures Before(names[0], tail[j]) {
        assert tail[j] in tail;
        if tail[j] != n {
          var k :| 0 <= k < |names[1..]| && names[1..][k] == tail[j];
          assert names[k + 1] == tail[j];
        }
      }
    }
  }

  // ---- the store ----

  /** One file per object, in one directory.  A directory is read in no particular order. */
  class FsStore {
    var objects: map<Key, Bytes>

    constructor ()
      ensures objects == map[]
    {
      objects := map[];
    }

    ghost predicate Reads(dir: seq<Text>)
      reads this
    {
      (forall n :: n in dir <==> n in objects) && forall i, j :: 0 <= i < j < |dir| ==> dir[i] != dir[j]
    }

    /** The objects whose name comes after `prefix` in byte order, sorted. */
    method ListAllAfter(dir: seq<Text>, prefix: Text) returns (names: seq<Text>)
      requires Reads(dir)
      ensures Ascending(names)
      ensures forall n :: n in names <==> n in objects && Before(prefix, n)
    {
      names := [];
      for i := 0 to |dir|
        invariant Ascending(names)
        invariant forall n :: n in names <==> n in dir[..i] && Before(prefix, n)
      {
        if Before(prefix, dir[i]) {
          assert dir[i] !in dir[..i];
          InsertKeepsAscending(dir[i], names);
          names := InsertName(dir[i], names);
        }
        assert dir[..i + 1] == dir[..i] + [dir[i]];
      }
      assert dir[..|dir|] == dir;
    }

    /** Deletes every object whose name comes after `prefix`. */
    method DeleteAll(dir: seq<Text>, prefix: Text) returns (deleted: seq<Text>)
      requires Reads(dir)
      modifies this
      ensures objects == map n | n in old(objects) && !Before(prefix, n) :: old(objects)[n]
      ensures forall n :: n in deleted <==> n in old(objects) && Before(prefix, n)
    {
      deleted := [];
      ghost var before := objects;
      for i := 0 to |dir|
        invariant forall n :: n in objects <==> n in before && !(n in dir[..i] && Before(prefix, n))
        invariant forall n :: n in objects ==> objects[n] == before[n]
        invariant forall n :: n in deleted <==> n in dir[..i] && Before(prefix, n)
      {
        if Before(prefix, dir[i]) {
          objects := objects - {dir[i]};
          deleted := deleted + [dir[i]];
        }
        assert dir[..i + 1] == dir[..i] + [dir[i]];
      }
      assert dir[..|dir|] == dir;
    }
  }

  // ---- classification by name ----

  /** What follows the last dot, or the whole name. */
  function LastPart(name: Text): Text {
    if name == "" then ""
    else if name[|name| - 1] == '.' then ""
    else LastPart(name[..|name| - 1]) + [name[|name| - 1]]
  }

  predicate IsBackup(name: Text) {
    LastPart(name) != "sha256" && LastPart(name) != "blake3" && LastPart(name) != "sig"
  }

  lemma {:induction false} LastPartOfExtended(name: Text, ext: Text)
    requires Lacks(ext, '.')
    ensures LastPart(name + "." + ext) == ext
  {
    if ext == "" {
      assert name + "." + ext == name + ".";
    } else {
      var n := |ext| - 1;
      LastPartOfExtended(name, ext[..n]);
      var full := name + "." + ext;
      assert full[..|full| - 1] == name + "." + ext[..n];
      assert ext == ext[..n] + [ext[n]];
    }
  }

  lemma SignatureIsNoBackup(name: Text)
    ensures !IsBackup(name + ".sig")
  {
    LastPartOfExtended(name, "sig");
    assert name + "." + "sig" == name + ".sig";
  }

  /** With a dot in its name, an object is a check exactly when what follows the last one
      says so. */
  lemma ClassifiedByExtension(name: Text, ext: Text)
    requires Lacks(ext, '.')
    ensures IsBackup(name + "." + ext) <==> ext != "sha256" && ext != "blake3" && ext != "sig"
  {
    LastPartOfExtended(name, ext);
  }

  lemma {:induction false} DotlessIsWhole(name: Text)
    requires Lacks(name, '.')
    ensures LastPart(name) == name
  {
    if name != "" {
      DotlessIsWhole(name[..|name| - 1]);
      assert name == name[..|name| - 1] + [name[|name| - 1]];
    }
  }

  /** Without one, exactly when the whole name does. */
  lemma ClassifiedByName(name: Text)
    requires Lacks(name, '.')
    ensures IsBackup(name) <==> name != "sha256" && name != "blake3" && name != "sig"
  {
    DotlessIsWhole(name);
  }

  // ---- listing ----

  /** One line of the list; `name` is the object the line is about. */
  datatype BackupDto = BackupDto(name: Text, id: BackupId, size: nat, isSigned: bool, isEncrypted: bool,
                                 canBeRestored: bool)

  predicate EndsWith(s: Text, suffix: Text) {
    |suffix| <= |s| && s[|s| - |suffix|..] == suffix
  }

  lemma EndsWithExactly(s: Text, suffix: Text)
    ensures EndsWith(s, suffix) <==> exists stem :: s == stem + suffix
  {
    if EndsWith(s, suffix) { assert s == s[..|s| - |suffix|] + suffix; }
  }

  /** What the list says of one backup. */
  ghost predicate Describes(dto: BackupDto, backups: map<Key, Bytes>, checks: map<Key, Bytes>, mandatory: bool,
                            utf8: Text -> bool) {
    && dto.name in backups && IsBackup(dto.name) && Parse(dto.name, utf8) == Success(dto.id)
    && dto.size == |backups[dto.name]|
    && (dto.isEncrypted <==> exists stem :: dto.name == stem + ".pgp")
    && dto.isSigned == (dto.name + ".sig" in checks)
    && dto.canBeRestored == (!mandatory || dto.name + ".sig" in checks)
  }

  function FilterBackups(names: seq<Text>, kind: bool): (filtered: seq<Text>) {
    if names == [] then []
    else
      var last := names[|names| - 1];
      FilterBackups(names[..|names| - 1], kind) + if IsBackup(last) == kind then [last] else []
  }

  lemma {:induction false} FilterKeepsOrder(names: seq<Text>, kind: bool)
    requires Ascending(names)
    ensures Ascending(FilterBackups(names, kind))
    ensures forall n :: n in FilterBackups(names, kind) <==> n in names && IsBackup(n) == kind
  {
    if names != [] {
      var init, last := names[..|names| - 1], names[|names| - 1];
      FilterKeepsOrder(init, kind);
      assert names == init + [last];
      var f := FilterBackups(init, kind);
      forall i | 0 <= i < |f| ensures Before(f[i], last) {
        assert f[i] in init;
        var k :| 0 <= k < |init| && init[k] == f[i];
        assert names[k] == f[i];
      }
    }
  }

  /** Looking for a signature only among the checks that sort after the oldest backup misses
      none. */
  lemma SignaturesAreListed(backupNames: seq<Text>, i: nat)
    requires Ascending(backupNames) && i < |backupNames|
    ensures Before(backupNames[0], backupNames[i] + ".sig")
  {
    BeforeExtension(backupNames[i], ".sig");
    if i > 0 {
      BeforeTransitive(backupNames[0], backupNames[i], backupNames[i] + ".sig");
    }
  }

  lemma SignatureFound(backupNames: seq<Text>, i: nat, after: seq<Text>, checks: map<Key, Bytes>)
    requires Ascending(backupNames) && i < |backupNames|
    requires Ascending(after) && forall n :: n in after <==> n in checks && Before(backupNames[0], n)
    ensures backupNames[i] + ".sig" in FilterBackups(after, false) <==> backupNames[i] + ".sig" in checks
  {
    FilterKeepsOrder(after, false);
    SignaturesAreListed(backupNames, i);
    SignatureIsNoBackup(backupNames[i]);
  }

  ghost predicate AllDescribed(dtos: seq<BackupDto>, backups: map<Key, Bytes>, checks: map<Key, Bytes>, mandatory: bool,
                               utf8: Text -> bool) {
    forall k :: 0 <= k < |dtos| ==> Describes(dtos[k], backups, checks, mandatory, utf8)
  }

  ghost predicate Descending(dtos: seq<BackupDto>) {
    forall k, m :: 0 <= k < m < |dtos| ==> Before(dtos[m].name, dtos[k].name)
  }

  /** The list holds names from the `i`th on, and all of those that parse. */
  ghost predicate ListedFrom(dtos: seq<BackupDto>, names: seq<Text>, i: nat, utf8: Text -> bool)
    requires i <= |names|
  {
    && (forall k :: 0 <= k < |dtos| ==> dtos[k].name in names[i..])
    && (forall n :: n in names[i..] && Parse(n, utf8).Success? ==> Listed(dtos, n))
  }

  lemma ListedFromSkips(dtos: seq<BackupDto>, names: seq<Text>, i: nat, utf8: Text -> bool)
    requires i < |names| && ListedFrom(dtos, names, i + 1, utf8) && Parse(names[i], utf8).Failure?
    ensures ListedFrom(dtos, names, i, utf8)
  {
    assert names[i..] == [names[i]] + names[i + 1..];
  }

  lemma ListedFromAdds(dtos: seq<BackupDto>, dto: BackupDto, names: seq<Text>, i: nat, utf8: Text -> bool)
    requires i < |names| && dto.name == names[i] && ListedFrom(dtos, names, i + 1, utf8)
    ensures ListedFrom(dtos + [dto], names, i, utf8)
  {
    assert names[i..] == [names[i]] + names[i + 1..];
    ListedMore(dtos, dto);
  }

  lemma DescendingAdds(dtos: seq<BackupDto>, dto: BackupDto, names: seq<Text>, i: nat)
    requires Ascending(names) && i < |names| && dto.name == names[i] && Descending(dtos)
    requires forall k :: 0 <= k < |dtos| ==> dtos[k].name in names[i + 1..]
    ensures Descending(dtos + [dto])
  {
    forall k | 0 <= k < |dtos| ensures Before(dto.name, dtos[k].name) {
      NextIsBefore(names, i, dtos[k].name);
    }
  }

  lemma NextIsBefore(names: seq<Text>, i: nat, n: Text)
    requires Ascending(names) && i < |names| && n in names[i + 1..]
    ensures Before(names[i], n)
  {
    var m :| 0 <= m < |names[i + 1..]| && names[i + 1..][m] == n;
    assert names[i + 1 + m] == n;
  }

  lemma LineDescribes(dto: BackupDto, backups: map<Key, Bytes>, checks: map<Key, Bytes>, mandatory: bool,
                      utf8: Text -> bool)
    requires dto.name in backups && IsBackup(dto.name) && Parse(dto.name, utf8) == Success(dto.id)
    requires dto == BackupDto(dto.name, dto.id, |backups[dto.name]|, dto.name + ".sig" in checks,
      EndsWith(dto.name, ".pgp"), !mandatory || dto.name + ".sig" in checks)
    ensures Describes(dto, backups, checks, mandatory, utf8)
  {
    EndsWithExactly(dto.name, ".pgp");
  }

  /** The newest backup comes first; objects whose name is not an identifier are left out. */
  method ListBackups(backups: FsStore, checks: FsStore, backupDir: seq<Text>, checkDir: seq<Text>, mandatory: bool,
                     utf8: Text -> bool)
    returns (dtos: seq<BackupDto>)
    requires backups.Reads(backupDir) && checks.Reads(checkDir)
    ensures AllDescribed(dtos, backups.objects, checks.objects, mandatory, utf8) && Descending(dtos)
    ensures forall n :: n in backups.objects && IsBackup(n) && Parse(n, utf8).Success? ==> Listed(dtos, n)
  {
    dtos := [];
    var objects := backups.ListAllAfter(backupDir, "");
    var names := FilterBackups(objects, true);
    FilterKeepsOrder(objects, true);
    if names == [] { return; }
    var after := checks.ListAllAfter(checkDir, names[0]);
    dtos := DescribeAll(backups, checks.objects, names, after, mandatory, utf8);
  }

  method DescribeAll(backups: FsStore, ghost checks: map<Key, Bytes>, names: seq<Text>, after: seq<Text>,
                     mandatory: bool, utf8: Text -> bool)
    returns (dtos: seq<BackupDto>)
    requires Ascending(names) && names != [] && forall n :: n in names ==> n in backups.objects && IsBackup(n)
    requires Ascending(after) && forall n :: n in after <==> n in checks && Before(names[0], n)
    ensures AllDescribed(dtos, backups.objects, checks, mandatory, utf8) && Descending(dtos)
    ensures ListedFrom(dtos, names, 0, utf8) && names[0..] == names
  {
    dtos := [];
    var signatures := FilterBackups(after, false);
    var i := |names|;
    while i > 0
      invariant 0 <= i <= |names| && ListedFrom(dtos, names, i, utf8)
      invariant AllDescribed(dtos, backups.objects, checks, mandatory, utf8) && Descending(dtos)
    {
      i := i - 1;
      var name := names[i];
      SignatureFound(names, i, after, checks);
      match Parse(name, utf8) {
        case Failure(_) =>
          ListedFromSkips(dtos, names, i, utf8);
        case Success(id) =>
          var isSigned := name + ".sig" in signatures;
          var dto := BackupDto(name, id, |backups.objects[name]|, isSigned, EndsWith(name, ".pgp"),
                               !mandatory || isSigned);
          LineDescribes(dto, backups.objects, checks, mandatory, utf8);
          ListedFromAdds(dtos, dto, names, i, utf8);
          DescendingAdds(dtos, dto, names, i);
          dtos := dtos + [dto];
      }
    }
  }

  ghost predicate Listed(dtos: seq<BackupDto>, name: Text) {
    exists i :: 0 <= i < |dtos| && dtos[i].name == name
  }

  lemma ListedMore(dtos: seq<BackupDto>, dto: BackupDto)
    ensures Listed(dtos + [dto], dto.name) && forall n :: Listed(dtos, n) ==> Listed(dtos + [dto], n)
  {
    assert (dtos + [dto])[|dtos|] == dto;
    forall n | Listed(dtos, n) ensures Listed(dtos + [dto], n) {
      var i :| 0 <= i < |dtos| && dtos[i].name == n;
      assert (dtos + [dto])[i].name == n;
    }
  }

  /** The name is the printed form of the identifier it parses to. */
  predicate Canonical(name: Text, id: BackupId) {
    Printable(id) && Print(id) == name
  }

  /** In a list whose names descend, creation times never increase. */
  lemma NewestFirst(dtos: seq<BackupDto>, i: nat, j: nat)
    requires Descending(dtos)
    requires i < j < |dtos| && dtos[i].id.prefix == dtos[j].id.prefix
    requires Canonical(dtos[i].name, dtos[i].id) && Canonical(dtos[j].name, dtos[j].id)
    requires dtos[i].id.createdAt >= 0 && dtos[j].id.createdAt >= 0
    ensures dtos[i].id.createdAt >= dtos[j].id.createdAt
  {
    BeforeIsAsymmetric(dtos[j].name, dtos[i].name);
    if dtos[i].id.createdAt < dtos[j].id.createdAt {
      OlderSortsBefore(dtos[i].id, dtos[j].id);
    }
  }

  // ---- details ----

  datatype Details = Details(size: nat, isSigned: bool, isEncrypted: bool, canBeRestored: bool, isIntact: bool)

  /** Full details: the backup is downloaded and checked, then read as an archive, which is
      foreign code given by `extracts`. */
  method GetDetails(store: CachedStore, checks: CheckStore, id: BackupId, config: Config, lib: Library,
                    extracts: Bytes -> bool, faults: Faults)
    returns (res: Option<Details>)
    requires store.Valid() && Printable(id)
    modifies store
    ensures store.Valid() && store.inner == old(store.inner)
    ensures res.Some? <==> Print(id) in store.inner
    ensures res.Some? ==>
      var key := Print(id);
      var copying := !HasKey(old(store.entries), key);
      && res.value.size == |store.inner[key]| && (res.value.isEncrypted <==> "pgp" in id.extensions)
      && if copying && key in old(store.files) then
          !res.value.isSigned && !res.value.isIntact && !res.value.canBeRestored
         else
           && (copying || key in old(store.files))
           && var data := if copying then store.inner[key] else old(store.files)[key];
              var passes := Verdict(config, checks, key, lib, data, copying, faults).Pass?;
              && res.value.isIntact == passes
              && res.value.canBeRestored ==
                  (passes && extracts(Checked(config, checks, key, lib, data, copying, faults)))
              && (res.value.isSigned <==> config.pgp && Opens(SignatureOf(checks, key)))
  {
    var key := Print(id);
    var report := new Report();
    var verified := DownloadAndCheckIntegrity(store, key, checks, config, lib, report, faults);
    var canBeRestored := false;
    if verified.Success? {
      canBeRestored := extracts(store.files[key]);
    }
    if key !in store.inner { return None; }
    return Some(Details(|store.inner[key]|, report.isSigned, "pgp" in id.extensions, canBeRestored, report.isIntact));
  }

  /** The list is one-sided: what it calls impossible to restore never passes verification,
      whatever the backup holds and whatever fails to be read. */
  lemma ListingIsOneSided(dto: BackupDto, backups: map<Key, Bytes>, checks: CheckStore, config: Config,
                          utf8: Text -> bool,
                          lib: Library, data: Bytes, copying: bool, faults: Faults)
    requires Describes(dto, backups, checks.objects, config.signingMandatory, utf8) && Canonical(dto.name, dto.id)
    requires Verdict(config, checks, Print(dto.id), lib, data, copying, faults).Pass?
    ensures dto.canBeRestored && (config.signingMandatory ==> dto.isSigned)
  {
    VerificationExact(config, checks, Print(dto.id), lib, data, copying, faults);
  }

  // ---- deletion ----

  /** What remains of the checks after `delete_all`. */
  function Remaining(objects: map<Key, Bytes>, prefix: Text): map<Key, Bytes> {
    map n | n in objects && !Before(prefix, n) :: objects[n]
  }

  /** Deletes a backup, then its checks. */
  method DeleteBackup(store: CachedStore, checks: FsStore, checkDir: seq<Text>, id: BackupId) returns (ok: bool)
    requires store.Valid() && checks.Reads(checkDir) && Printable(id)
    modifies store, checks
    ensures store.Valid() && (ok <==> Print(id) in old(store.inner))
    ensures store.inner == old(store.inner) - {Print(id)} && (ok ==> !HasKey(store.entries, Print(id)))
    ensures old(store.Agreeing()) ==> (store.Agreeing() <==> !ok || !store.BeingCopied(Print(id)))
    ensures checks.objects == if ok then Remaining(old(checks.objects), Print(id)) else old(checks.objects)
  {
    ok := store.Delete(Print(id));
    if ok {
      var deleted := checks.DeleteAll(checkDir, Print(id));
    }
  }

  /** What an identifier ends with, after its timestamp. */
  function Tail(id: BackupId): Text
    requires Printable(id)
  {
    EncodeComponent(id.description) + "." + Join(id.extensions, '.')
  }

  lemma SameInstant(a: BackupId, b: BackupId, x: Text, y: Text)
    requires Printable(a) && Printable(b) && a.prefix == b.prefix && a.createdAt == b.createdAt
    ensures Before(Print(a) + x, Print(b) + y) <==> Before(Tail(a) + x, Tail(b) + y)
  {
    var head := EncodeComponent(a.prefix) + "-" + FormatTimestamp(a.createdAt) + "-";
    assert Print(a) + x == head + (Tail(a) + x);
    assert Print(b) + y == head + (Tail(b) + y);
    BeforeSamePrefix(head, Tail(a) + x, Tail(b) + y);
  }

  /** Among backups that share a prefix, deleting one removes its own checks and those of
      every newer backup, and keeps those of every older one; within the same second it
      removes those whose name ends later in byte order. */
  lemma ChecksAfterDeletion(objects: map<Key, Bytes>, id: BackupId, other: BackupId, ext: Text)
    requires Printable(id) && Printable(other) && id.prefix == other.prefix && ext != ""
    requires id.createdAt >= 0 && other.createdAt >= 0
    ensures other == id || other.createdAt > id.createdAt ==> Print(other) + ext !in Remaining(objects, Print(id))
    ensures other.createdAt < id.createdAt ==>
      (Print(other) + ext in Remaining(objects, Print(id)) <==> Print(other) + ext in objects)
    ensures other.createdAt == id.createdAt ==>
      (Print(other) + ext in Remaining(objects, Print(id)) <==>
        Print(other) + ext in objects && !Before(Tail(id), Tail(other) + ext))
  {
    assert Print(id) + "" == Print(id) && Tail(id) + "" == Tail(id);
    if other == id {
      BeforeExtension(Print(id), ext);
    } else if other.createdAt > id.createdAt {
      OlderDecides(id, other, "", ext);
    } else if other.createdAt < id.createdAt {
      OlderDecides(other, id, ext, "");
      BeforeIsAsymmetric(Print(other) + ext, Print(id));
    }
    if other.createdAt == id.createdAt {
      SameInstant(id, other, "", ext);
    }
  }

  /** So after deleting a backup, no newer one that shares its prefix can be restored. */
  lemma DeletionStrandsNewer(objects: map<Key, Bytes>, id: BackupId, newer: BackupId, config: Config, lib: Library,
                             data: Bytes, copying: bool, faults: Faults)
    requires Printable(id) && Printable(newer) && id.prefix == newer.prefix
    requires 0 <= id.createdAt < newer.createdAt
    ensures Verdict(config, CheckStore(Remaining(objects, Print(id)), {}, {}), Print(newer), lib, data, copying,
      faults) ==
      Reject(if config.signingMandatory then BackupNotSigned else OtherFailure)
  {
    ChecksAfterDeletion(objects, id, newer, ".sig");
    ChecksAfterDeletion(objects, id, newer, ".blake3");
    ChecksAfterDeletion(objects, id, newer, ".sha256");
  }

  /** Backups and checks may share one directory.  Then deleting a backup deletes whatever
      sorts after it there. */
  method DeleteShared(shared: FsStore, dir: seq<Text>, id: BackupId) returns (ok: bool)
    requires shared.Reads(dir) && Printable(id)
    modifies shared
    ensures ok <==> Print(id) in old(shared.objects)
    ensures shared.objects == if ok then Remaining(old(shared.objects) - {Print(id)}, Print(id))
      else old(shared.objects)
  {
    var key := Print(id);
    if key !in shared.objects { return false; }
    var i :| 0 <= i < |dir| && dir[i] == key;
    var rest := dir[..i] + dir[i + 1..];
    Unlisted(dir, i);
    shared.objects := shared.objects - {key};
    var deleted := shared.DeleteAll(rest, key);
    return true;
  }

  lemma Unlisted(dir: seq<Text>, i: nat)
    requires i < |dir| && forall j, k :: 0 <= j < k < |dir| ==> dir[j] != dir[k]
    ensures var rest := dir[..i] + dir[i + 1..];
      && (forall j, k :: 0 <= j < k < |rest| ==> rest[j] != rest[k])
      && (forall n :: n in rest <==> n in dir && n != dir[i])
  {
    var rest := dir[..i] + dir[i + 1..];
    assert forall k :: 0 <= k < |rest| ==> rest[k] == dir[if k < i then k else k + 1];
    forall n | n in dir && n != dir[i] ensures n in rest {
      var k :| 0 <= k < |dir| && dir[k] == n;
      assert rest[if k < i then k else k - 1] == n;
    }
  }

  /** In particular every newer backup of that prefix is gone, and every older one stays. */
  lemma SharedDeletion(objects: map<Key, Bytes>, id: BackupId, other: BackupId)
    requires Printable(id) && Printable(other) && id.prefix == other.prefix
    requires id.createdAt >= 0 && other.createdAt >= 0
    ensures var rest := Remaining(objects - {Print(id)}, Print(id));
      && (other.createdAt > id.createdAt ==> Print(other) !in rest)
      && (other.createdAt < id.createdAt ==> (Print(other) in rest <==> Print(other) in objects))
  {
    if other.createdAt > id.createdAt {
      OlderSortsBefore(id, other);
    } else if other.createdAt < id.createdAt {
      OlderSortsBefore(other, id);
      BeforeIsAsymmetric(Print(other), Print(id));
    }
  }
}
