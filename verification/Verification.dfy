/** Integrity checking of a downloaded backup: a signature, else a BLAKE3 digest, else a
    SHA-256 digest, over one stateful reader. */
module Verification {
  import opened Wrappers
  import opened CachedStores

  const MAX_PGP_SIGNATURE_LENGTH := 2048
  const DIGEST_LENGTH := 32

  datatype VerificationError = BackupNotFound | InvalidSignature | BackupNotSigned | InvalidChecksum | OtherFailure

  // ---- foreign code ----

  /** What the OpenPGP library says of one signature; a fingerprint stands for a certificate
      that the configuration knows. */
  datatype SignatureResult =
    | GoodChecksum(cert: string)
    | MissingKey
    | UnboundKey(cert: string)
    | BadKey(cert: string)
    | BadSignature(cert: string)
    | MalformedSignature
    | UnknownError

  datatype Layer = SignatureGroup(results: seq<SignatureResult>) | OtherLayer

  /** The library calls: whether a signature file parses, the message structure it yields
      over some data, and the two digests. */
  datatype Library = Library(
    parses: Bytes -> bool,
    structure: (Bytes, Bytes) -> seq<Layer>,
    blake3: Bytes -> Bytes,
    sha256: Bytes -> Bytes)

  // ---- the signature helper ----

  datatype KeyReport = KeyReport(cert: string, isValid: bool)

  /** A result that names a known certificate is reported. */
  function ReportOf(r: SignatureResult): seq<KeyReport> {
    match r
    case GoodChecksum(cert) => [KeyReport(cert, true)]
    case UnboundKey(cert) => [KeyReport(cert, false)]
    case BadKey(cert) => [KeyReport(cert, false)]
    case BadSignature(cert) => [KeyReport(cert, false)]
    case _ => []
  }

  function ReportsOf(results: seq<SignatureResult>): seq<KeyReport> {
    if results == [] then [] else ReportsOf(results[..|results| - 1]) + ReportOf(results[|results| - 1])
  }

  /** Known keys seen before the helper returns. */
  function KnownKeys(structure: seq<Layer>): seq<KeyReport> {
    if structure != [] && structure[0].SignatureGroup? then ReportsOf(structure[0].results) else []
  }

  predicate AllGood(results: seq<SignatureResult>) {
    forall i :: 0 <= i < |results| ==> results[i].GoodChecksum?
  }

  /** At most one layer, a group of signatures, every one of them good. */
  predicate Acceptable(structure: seq<Layer>) {
    structure == [] || (|structure| == 1 && structure[0].SignatureGroup? && AllGood(structure[0].results))
  }

  /** Walks the layers, collecting key reports and errors. */
  method Check(structure: seq<Layer>) returns (ok: bool, knownKeys: seq<KeyReport>)
    ensures ok <==> Acceptable(structure)
    ensures knownKeys == KnownKeys(structure)
  {
    knownKeys := [];
    for i := 0 to |structure|
      invariant i <= 1
      invariant knownKeys == if i == 0 then [] else KnownKeys(structure)
      invariant i == 1 ==> structure[0].SignatureGroup? && AllGood(structure[0].results)
    {
      if i == 0 && structure[0].SignatureGroup? {
        var errors: nat;
        errors, knownKeys := CheckGroup(structure[0].results);
        if errors != 0 {
          return false, knownKeys;
        }
      } else {
        return false, knownKeys;
      }
    }
    ok := true;
  }

  method CheckGroup(results: seq<SignatureResult>) returns (errors: nat, knownKeys: seq<KeyReport>)
    ensures errors == 0 <==> AllGood(results)
    ensures knownKeys == ReportsOf(results)
  {
    errors, knownKeys := 0, [];
    for i := 0 to |results|
      invariant knownKeys == ReportsOf(results[..i])
      invariant errors == 0 <==> forall k :: 0 <= k < i ==> results[k].GoodChecksum?
    {
      assert results[..i + 1][..i] == results[..i];
      knownKeys := knownKeys + ReportOf(results[i]);
      if !results[i].GoodChecksum? {
        errors := errors + 1;
      }
    }
    assert results[..|results|] == results;
  }

  /** The report is empty exactly when no signature names a known certificate. */
  lemma {:induction false} ReportsEmpty(results: seq<SignatureResult>)
    ensures ReportsOf(results) == [] <==> forall i :: 0 <= i < |results| ==> ReportOf(results[i]) == []
  {
    if results != [] {
      var init := results[..|results| - 1];
      ReportsEmpty(init);
      assert forall i :: 0 <= i < |init| ==> init[i] == results[i];
    }
  }

  /** A report is valid exactly if the signature is good, and names a certificate that made
      one signature or another. */
  lemma {:induction false} ReportsMean(results: seq<SignatureResult>, cert: string)
    ensures KeyReport(cert, true) in ReportsOf(results) <==> GoodChecksum(cert) in results
    ensures KeyReport(cert, false) in ReportsOf(results) <==>
      UnboundKey(cert) in results || BadKey(cert) in results || BadSignature(cert) in results
  {
    if results != [] {
      var init, last := results[..|results| - 1], results[|results| - 1];
      ReportsMean(init, cert);
      assert results == init + [last];
    }
  }

  /** An accepted signature file with at least one signature was made by a known key, and
      every known key that was reported is valid. */
  lemma {:induction false} AcceptedKeysAreValid(results: seq<SignatureResult>)
    requires AllGood(results)
    ensures |ReportsOf(results)| == |results|
    ensures forall i :: 0 <= i < |results| ==> ReportsOf(results)[i] == KeyReport(results[i].cert, true)
  {
    if results != [] {
      AcceptedKeysAreValid(results[..|results| - 1]);
    }
  }

  // ---- stored checks ----

  /** `reader_if_not_too_large`, then reading it all. */
  datatype CheckRead = Content(bytes: Bytes) | TooLarge | Missing | Unopened | Unread

  /** Objects of the check store, the keys that cannot be opened for another reason, and
      those that can be opened and then not be read. */
  datatype CheckStore = CheckStore(objects: map<Key, Bytes>, unopened: set<Key>, unread: set<Key>)

  /** The check can be opened, whether or not it can then be read. */
  predicate Opens(check: CheckRead) { check.Content? || check.Unread? }

  function ReadCheck(checks: CheckStore, key: Key, max: nat): CheckRead {
    if key in checks.unopened then Unopened
    else if key !in checks.objects then Missing
    else if |checks.objects[key]| > max then TooLarge
    else if key in checks.unread then Unread
    else Content(checks.objects[key])
  }

  // ---- outcomes ----

  datatype Outcome = Pass | Skip | Reject(error: VerificationError)

  /** What goes wrong while the backup is read: the byte at which reading it for the
      signature fails, whether going back to its beginning does, and the byte at which
      reading it for a digest does. */
  datatype Faults = Faults(signature: Option<nat>, rewind: bool, digest: Option<nat>)

  predicate FailsOn(failsAt: Option<nat>, data: Bytes) {
    failsAt.Some? && failsAt.value <= |data|
  }

  /** A signature that no known key made says nothing. */
  function SignatureOutcome(structure: seq<Layer>): Outcome {
    if Acceptable(structure) then Pass else if KnownKeys(structure) == [] then Skip else Reject(InvalidSignature)
  }

  /** Verifying a parsed signature: when the backup cannot be read to its end, the library
      reports no key at all, and the code falls back as for an unknown key. */
  function VerifyOutcome(signature: Bytes, lib: Library, data: Bytes, faults: Faults): Outcome {
    var outcome := if FailsOn(faults.signature, data) then Skip else SignatureOutcome(lib.structure(signature, data));
    if outcome.Skip? && faults.rewind then Reject(OtherFailure) else outcome
  }

  function PgpOutcome(enabled: bool, check: CheckRead, lib: Library, data: Bytes, faults: Faults): Outcome {
    if !enabled then Skip
    else
      match check
      case TooLarge => Skip
      case Missing => Skip
      case Unopened => Reject(OtherFailure)
      case Unread => Reject(OtherFailure)
      case Content(signature) =>
        if !lib.parses(signature) then Reject(InvalidSignature) else VerifyOutcome(signature, lib, data, faults)
  }

  /** The backup is read for a signature. */
  predicate ReadsForSignature(enabled: bool, check: CheckRead, lib: Library) {
    enabled && check.Content? && lib.parses(check.bytes)
  }

  /** What the next check reads: the same bytes again, except that a copy whose making failed
      ends where it failed. */
  function Left(enabled: bool, check: CheckRead, lib: Library, data: Bytes, copying: bool, faults: Faults): Bytes {
    if ReadsForSignature(enabled, check, lib) && copying && FailsOn(faults.signature, data)
    then data[..faults.signature.value] else data
  }

  /** The known keys that the report names: none unless the backup was read to its end. */
  function KeysSeen(enabled: bool, check: CheckRead, lib: Library, data: Bytes, faults: Faults): seq<KeyReport> {
    if ReadsForSignature(enabled, check, lib) then KeysOf(check.bytes, lib, data, faults) else []
  }

  function KeysOf(signature: Bytes, lib: Library, data: Bytes, faults: Faults): seq<KeyReport> {
    if FailsOn(faults.signature, data) then [] else KnownKeys(lib.structure(signature, data))
  }

  function DigestOutcome(check: CheckRead, digest: Bytes -> Bytes, data: Bytes, faults: Faults): Outcome {
    match check
    case TooLarge => Skip
    case Missing => Skip
    case Unopened => Reject(OtherFailure)
    case Unread => Reject(OtherFailure)
    case Content(expected) =>
      if |expected| != DIGEST_LENGTH then Reject(InvalidChecksum)
      else if FailsOn(faults.digest, data) then Reject(OtherFailure)
      else if expected == digest(data) then Pass else Reject(InvalidChecksum)
  }

  datatype Config = Config(pgp: bool, signingMandatory: bool)

  class Report {
    var isSigned: bool
    var isIntact: bool
    var knownSigningKeys: seq<KeyReport>

    constructor ()
      ensures !isSigned && !isIntact && knownSigningKeys == []
    {
      isSigned, isIntact, knownSigningKeys := false, false, [];
    }
  }

  /** The reader is at the beginning of `data`. */
  ghost predicate AtStart(store: CachedStore, key: Key, id: nat, data: Bytes)
    reads store
  {
    && store.Valid() && id in store.readers && id in store.wholes && store.wholes[id] == data
    && !store.readers[id].Path? && store.readers[id].key == key && store.readers[id].pos == 0
  }

  /** The reader has yielded the first `n` bytes of `data`. */
  ghost predicate Behind(store: CachedStore, key: Key, id: nat, data: Bytes, n: nat)
    reads store
  {
    && store.Valid() && id in store.readers && id in store.wholes && store.wholes[id] == data
    && !store.readers[id].Path? && store.readers[id].key == key && store.readers[id].pos == n <= |data|
  }

  /** The backup's file is kept, and holds the data that was checked. */
  ghost predicate KeptFile(store: CachedStore, key: Key, id: nat, data: Bytes)
    reads store
  {
    && store.Valid() && id in store.readers && store.readers[id].Path? && store.readers[id].key == key
    && key in store.files && store.files[key] == data
  }

  /** Reading for the signature failed while copying, and the beginning of the backup entered
      the cache. */
  predicate Truncates(store: CachedStore, enabled: bool, check: CheckRead, lib: Library, data: Bytes, copying: bool,
                      faults: Faults) {
    && ReadsForSignature(enabled, check, lib) && copying && FailsOn(faults.signature, data)
    && faults.signature.value < |data| && store.Fits(faults.signature.value)
  }

  /** The cache holds `part` under this key. */
  ghost predicate TruncatedEntry(store: CachedStore, key: Key, part: Bytes)
    reads store
  {
    HasKey(store.entries, key) && key in store.files && store.files[key] == part
  }

  /** The `'pgp_sig` block. */
  method CheckSignature(store: CachedStore, id: nat, key: Key, checks: CheckStore, enabled: bool, lib: Library,
                        report: Report,
                        faults: Faults, ghost data: Bytes, ghost copying: bool)
    returns (outcome: Outcome)
    requires AtStart(store, key, id, data) && copying == store.readers[id].Caching?
    requires !report.isSigned && !report.isIntact && report.knownSigningKeys == []
    modifies store, report
    ensures store.Valid() && store.inner == old(store.inner) && id in store.readers
    ensures outcome == PgpOutcome(enabled, SignatureOf(checks, key), lib, data, faults)
    ensures outcome.Pass? ==> KeptFile(store, key, id, data)
    ensures outcome.Skip? ==>
      AtStart(store, key, id, Left(enabled, SignatureOf(checks, key), lib, data, copying, faults))
    ensures report.isIntact <==> outcome.Pass?
    ensures report.isSigned <==> enabled && Opens(SignatureOf(checks, key))
    ensures report.knownSigningKeys == KeysSeen(enabled, SignatureOf(checks, key), lib, data, faults)
    ensures if Truncates(store, enabled, SignatureOf(checks, key), lib, data, copying, faults)
            then store.readers[id].Cached? && store.readers[id].key == key
              && TruncatedEntry(store, key, data[..faults.signature.value])
            else old(store.Agreeing()) ==> store.Agreeing()
  {
    if !enabled { return Skip; }
    match SignatureOf(checks, key) {
      case TooLarge => return Skip;
      case Missing => return Skip;
      case Unopened => return Reject(OtherFailure);
      case Unread =>
        report.isSigned := true;
        return Reject(OtherFailure);
      case Content(signature) =>
        report.isSigned := true;
        if !lib.parses(signature) { return Reject(InvalidSignature); }
        outcome := VerifySignature(store, id, key, signature, lib, report, faults, data, copying);
    }
  }

  /** Verifies a parsed signature over the whole backup. */
  method VerifySignature(store: CachedStore, id: nat, key: Key, signature: Bytes, lib: Library, report: Report,
                         faults: Faults,
                         ghost data: Bytes, ghost copying: bool)
    returns (outcome: Outcome)
    requires AtStart(store, key, id, data) && !report.isIntact && copying == store.readers[id].Caching?
    modifies store, report
    ensures store.Valid() && store.inner == old(store.inner) && id in store.readers
    ensures outcome == VerifyOutcome(signature, lib, data, faults)
    ensures outcome.Pass? ==> KeptFile(store, key, id, data)
    ensures outcome.Skip? ==>
      AtStart(store, key, id, if copying && FailsOn(faults.signature, data) then data[..faults.signature.value]
        else data)
    ensures (report.isIntact <==> outcome.Pass?) && report.isSigned == old(report.isSigned)
    ensures report.knownSigningKeys == KeysOf(signature, lib, data, faults)
    ensures
      if copying && FailsOn(faults.signature, data) && faults.signature.value < |data|
        && store.Fits(faults.signature.value)
      then store.readers[id].Cached? && store.readers[id].key == key
        && TruncatedEntry(store, key, data[..faults.signature.value])
      else old(store.Agreeing()) ==> store.Agreeing()
  {
    var complete, read := ReadAll(store, id, key, faults.signature, data);
    var ok, keys := false, [];
    if complete {
      ok, keys := Check(lib.structure(signature, read));
    }
    report.knownSigningKeys := keys;
    if ok {
      report.isIntact := true;
      Keep(store, id, key, data);
      return Pass;
    } else if keys == [] {
      outcome := Again(store, id, key, faults.rewind, data, |read|);
    } else {
      return Reject(InvalidSignature);
    }
  }

  method ReadAll(store: CachedStore, id: nat, key: Key, failsAt: Option<nat>, ghost data: Bytes)
    returns (ok: bool, read: Bytes)
    requires AtStart(store, key, id, data)
    modifies store
    ensures store.inner == old(store.inner) && (ok <==> !FailsOn(failsAt, data))
    ensures read == if ok then data else data[..failsAt.value]
    ensures Behind(store, key, id, data, |read|) && store.readers[id].Caching? == old(store.readers[id].Caching?)
    ensures old(store.Agreeing()) ==> store.Agreeing()
    ensures old(store.readers[id].Cached?) ==> store.files == old(store.files) && store.entries == old(store.entries)
  {
    ok, read := store.ReadToEnd(id, 8192, failsAt);
  }

  /** Back to the beginning of what could be read, for the next check. */
  method Again(store: CachedStore, id: nat, key: Key, fails: bool, ghost data: Bytes, ghost n: nat)
    returns (outcome: Outcome)
    requires Behind(store, key, id, data, n)
    modifies store
    ensures store.Valid() && store.inner == old(store.inner) && id in store.readers
    ensures outcome == if fails then Reject(OtherFailure) else Skip
    ensures !fails ==> AtStart(store, key, id, if old(store.readers[id].Caching?) then data[..n] else data)
    ensures store.readers[id].Cached? && store.readers[id].key == key
    ensures if old(store.readers[id].Caching?) && n < |data| && store.Fits(n) then TruncatedEntry(store, key, data[..n])
            else old(store.Agreeing()) ==> store.Agreeing()
  {
    ObjectSize(store.Now(), store.maxSize, id);
    ghost var before, e := store.entries, CacheEntry(key, store.readers[id].guard, n);
    store.PersistCacheAndRewind(id);
    if store.Fits(n) { InsertedHasKey(before, store.maxSize, e); }
    return if fails then Reject(OtherFailure) else Skip;
  }

  method Keep(store: CachedStore, id: nat, key: Key, ghost data: Bytes)
    requires Behind(store, key, id, data, |data|)
    modifies store
    ensures store.inner == old(store.inner) && KeptFile(store, key, id, data)
    ensures old(store.Agreeing()) ==> store.Agreeing()
    ensures old(store.readers[id].Cached?) ==> store.files == old(store.files) && store.entries == old(store.entries)
  {
    ObjectSize(store.Now(), store.maxSize, id);
    assert data[..|data|] == data;
    store.PersistCache(id);
  }

  /** The `'blake3_check` and `'sha256_check` blocks. */
  method CheckDigest(store: CachedStore, id: nat, key: Key, check: CheckRead, digest: Bytes -> Bytes, report: Report,
                     faults: Faults, ghost data: Bytes)
    returns (outcome: Outcome)
    requires AtStart(store, key, id, data) && !report.isIntact
    modifies store, report
    ensures store.Valid() && store.inner == old(store.inner) && id in store.readers
    ensures outcome == DigestOutcome(check, digest, data, faults)
    ensures outcome.Pass? ==> KeptFile(store, key, id, data)
    ensures outcome.Skip? ==> AtStart(store, key, id, data)
    ensures report.isIntact <==> outcome.Pass?
    ensures report.isSigned == old(report.isSigned) && report.knownSigningKeys == old(report.knownSigningKeys)
    ensures old(store.Agreeing()) ==> store.Agreeing()
    ensures old(store.readers[id].Cached?) ==> store.files == old(store.files) && store.entries == old(store.entries)
    ensures outcome.Skip? ==> store.readers[id].Caching? == old(store.readers[id].Caching?)
  {
    match check {
      case TooLarge => return Skip;
      case Missing => return Skip;
      case Unopened => return Reject(OtherFailure);
      case Unread => return Reject(OtherFailure);
      case Content(expected) =>
        if |expected| != DIGEST_LENGTH { return Reject(InvalidChecksum); }
        var complete, read := ReadAll(store, id, key, faults.digest, data);
        if !complete { return Reject(OtherFailure); }
        if digest(read) != expected { return Reject(InvalidChecksum); }
        report.isIntact := true;
        Keep(store, id, key, data);
        return Pass;
    }
  }

  // ---- the whole protocol ----

  function SignatureOf(checks: CheckStore, key: Key): CheckRead {
    ReadCheck(checks, key + ".sig", MAX_PGP_SIGNATURE_LENGTH)
  }
  function Blake3Of(checks: CheckStore, key: Key): CheckRead { ReadCheck(checks, key + ".blake3", DIGEST_LENGTH) }
  function Sha256Of(checks: CheckStore, key: Key): CheckRead { ReadCheck(checks, key + ".sha256", DIGEST_LENGTH) }

  /** The two digests, one after the other. */
  function DigestsVerdict(checks: CheckStore, key: Key, lib: Library, data: Bytes, faults: Faults): Outcome {
    match DigestOutcome(Blake3Of(checks, key), lib.blake3, data, faults)
    case Pass => Pass
    case Reject(error) => Reject(error)
    case Skip =>
      match DigestOutcome(Sha256Of(checks, key), lib.sha256, data, faults)
      case Pass => Pass
      case Reject(error) => Reject(error)
      case Skip => Reject(OtherFailure)
  }

  /** What the fall-through comes to for a backup holding `data`, being copied to the cache
      or read from it. */
  function Verdict(config: Config, checks: CheckStore, key: Key, lib: Library, data: Bytes, copying: bool,
                   faults: Faults): Outcome {
    match PgpOutcome(config.pgp, SignatureOf(checks, key), lib, data, faults)
    case Pass => Pass
    case Reject(error) => Reject(error)
    case Skip =>
      if config.signingMandatory then Reject(BackupNotSigned)
      else DigestsVerdict(checks, key, lib, Left(config.pgp, SignatureOf(checks, key), lib, data, copying, faults),
        faults)
  }

  /** The data that a passing verification has checked, and keeps. */
  function Checked(config: Config, checks: CheckStore, key: Key, lib: Library, data: Bytes, copying: bool,
                   faults: Faults): Bytes {
    if PgpOutcome(config.pgp, SignatureOf(checks, key), lib, data, faults).Pass? then data
    else Left(config.pgp, SignatureOf(checks, key), lib, data, copying, faults)
  }

  /** Verification of a backup through the cached store, whatever fails to be read.  Every
      check that reads the backup reads it from the beginning; success keeps a local file
      holding exactly the data that was checked, and the report calls the backup intact
      exactly then.  The cache goes on agreeing with the store unless reading for the
      signature failed before the end of a copy. */
  method DownloadAndCheckIntegrity(store: CachedStore, key: Key, checks: CheckStore, config: Config, lib: Library,
                                   report: Report, faults: Faults)
    returns (res: Result<nat, VerificationError>)
    requires store.Valid()
    requires !report.isSigned && !report.isIntact && report.knownSigningKeys == []
    modifies store, report
    ensures store.Valid() && store.inner == old(store.inner)
    ensures report.isIntact <==> res.Success?
    ensures
      var copying := !HasKey(old(store.entries), key);
      var readable := HasKey(old(store.entries), key) || (key !in old(store.files) && key in old(store.inner));
      if readable then
        && (copying || key in old(store.files))
        && var data := if copying then old(store.inner)[key] else old(store.files)[key];
        && (old(store.Agreeing()) ==> key in store.inner && data == store.inner[key])
        && (Truncates(store, config.pgp, SignatureOf(checks, key), lib, data, copying, faults) ==>
              TruncatedEntry(store, key, data[..faults.signature.value]))
        && (old(store.Agreeing()) ==>
              (store.Agreeing() <==> !Truncates(store, config.pgp, SignatureOf(checks, key), lib, data, copying,
                faults)))
        && (report.isSigned <==> config.pgp && Opens(SignatureOf(checks, key)))
        && report.knownSigningKeys == KeysSeen(config.pgp, SignatureOf(checks, key), lib, data, faults)
        && match Verdict(config, checks, key, lib, data, copying, faults)
           case Pass => res.Success?
             && KeptFile(store, key, res.value, Checked(config, checks, key, lib, data, copying, faults))
           case Reject(error) => res == Failure(error)
           case Skip => false
      else
        && res.Failure? && (res.error == BackupNotFound || res.error == OtherFailure)
        && !report.isSigned && report.knownSigningKeys == [] && (old(store.Agreeing()) ==> store.Agreeing())
  {
    var opening := store.CachedReader(key);
    if opening.Failure? {
      return Failure(if opening.error == ObjectNotFound then BackupNotFound else OtherFailure);
    }
    var id := opening.value;
    ghost var data, copying := store.wholes[id], store.readers[id].Caching?;
    var outcome := RunChecks(store, id, key, checks, config, lib, report, faults, data, copying);
    if outcome.Reject? {
      Close(store, id, key);
    }
    ghost var truncated := Truncates(store, config.pgp, SignatureOf(checks, key), lib, data, copying, faults);
    if truncated && key in store.inner && store.inner[key] == data {
      assert |data[..faults.signature.value]| < |data|;
      UnfaithfulEntry(store.Now(), key);
    }
    return if outcome.Reject? then Failure(outcome.error) else Success(id);
  }

  /** The reader goes with the failed request; entries and their files stay. */
  method Close(store: CachedStore, id: nat, ghost key: Key)
    requires store.Valid() && id in store.readers
    modifies store
    ensures store.Valid() && store.inner == old(store.inner) && (old(store.Agreeing()) ==> store.Agreeing())
    ensures store.entries == old(store.entries)
    ensures HasKey(store.entries, key) && key in old(store.files) ==>
      key in store.files && store.files[key] == old(store.files)[key]
  {
    store.DropReader(id);
  }

  method RunChecks(store: CachedStore, id: nat, key: Key, checks: CheckStore, config: Config, lib: Library,
                   report: Report,
                   faults: Faults, ghost data: Bytes, ghost copying: bool)
    returns (outcome: Outcome)
    requires AtStart(store, key, id, data) && copying == store.readers[id].Caching?
    requires !report.isSigned && !report.isIntact && report.knownSigningKeys == []
    modifies store, report
    ensures store.Valid() && store.inner == old(store.inner) && id in store.readers
    ensures outcome == Verdict(config, checks, key, lib, data, copying, faults) && !outcome.Skip?
    ensures outcome.Pass? ==> KeptFile(store, key, id, Checked(config, checks, key, lib, data, copying, faults))
    ensures report.isIntact <==> outcome.Pass?
    ensures report.isSigned <==> config.pgp && Opens(SignatureOf(checks, key))
    ensures report.knownSigningKeys == KeysSeen(config.pgp, SignatureOf(checks, key), lib, data, faults)
    ensures if Truncates(store, config.pgp, SignatureOf(checks, key), lib, data, copying, faults)
            then TruncatedEntry(store, key, data[..faults.signature.value])
            else old(store.Agreeing()) ==> store.Agreeing()
  {
    outcome := CheckSignature(store, id, key, checks, config.pgp, lib, report, faults, data, copying);
    if !outcome.Skip? { return; }
    if config.signingMandatory { return Reject(BackupNotSigned); }
    ghost var left := Left(config.pgp, SignatureOf(checks, key), lib, data, copying, faults);
    outcome := CheckDigest(store, id, key, Blake3Of(checks, key), lib.blake3, report, faults, left);
    if !outcome.Skip? { return; }
    outcome := CheckDigest(store, id, key, Sha256Of(checks, key), lib.sha256, report, faults, left);
    if !outcome.Skip? { return; }
    return Reject(OtherFailure);
  }

  // ---- soundness ----

  predicate ValidSignature(checks: CheckStore, key: Key, lib: Library, data: Bytes) {
    var check := SignatureOf(checks, key);
    check.Content? && lib.parses(check.bytes) && Acceptable(lib.structure(check.bytes, data))
  }

  /** The signature says nothing: there is none of an allowed size, or no key of it is known,
      or reading the backup for it failed. */
  predicate SilentSignature(checks: CheckStore, key: Key, lib: Library, data: Bytes, faults: Faults) {
    var check := SignatureOf(checks, key);
    || check.Missing? || check.TooLarge?
    || (&& check.Content? && lib.parses(check.bytes) && !faults.rewind
        && (FailsOn(faults.signature, data)
            || (!Acceptable(lib.structure(check.bytes, data)) && KnownKeys(lib.structure(check.bytes, data)) == [])))
  }

  predicate Matches(check: CheckRead, digest: Bytes -> Bytes, data: Bytes, faults: Faults) {
    check == Content(digest(data)) && |digest(data)| == DIGEST_LENGTH && !FailsOn(faults.digest, data)
  }

  predicate Absent(check: CheckRead) { check.Missing? || check.TooLarge? }

  predicate DigestMatches(checks: CheckStore, key: Key, lib: Library, data: Bytes, faults: Faults) {
    || Matches(Blake3Of(checks, key), lib.blake3, data, faults)
    || (Absent(Blake3Of(checks, key)) && Matches(Sha256Of(checks, key), lib.sha256, data, faults))
  }

  /** Verification passes if and only if a configured signature is read over and valid or,
      where signing is not mandatory and the signature is silent, the BLAKE3 digest of what
      is left to read matches or, that check being absent, the SHA-256 digest does. */
  lemma VerificationExact(config: Config, checks: CheckStore, key: Key, lib: Library, data: Bytes, copying: bool,
                          faults: Faults)
    ensures Verdict(config, checks, key, lib, data, copying, faults).Pass? <==>
      || (config.pgp && ValidSignature(checks, key, lib, data) && !FailsOn(faults.signature, data))
      || (&& !config.signingMandatory
          && (config.pgp ==> SilentSignature(checks, key, lib, data, faults))
          && DigestMatches(checks, key, lib, Left(config.pgp, SignatureOf(checks, key), lib, data, copying, faults),
              faults))
  {
  }

  // ---- the same, on the stored objects ----

  /** Everything can be read. */
  predicate NoFaults(checks: CheckStore, data: Bytes, faults: Faults) {
    && checks.unopened == {} && checks.unread == {} && !faults.rewind
    && !FailsOn(faults.signature, data) && !FailsOn(faults.digest, data)
  }

  /** An object that is no longer than some limit is looked at. */
  predicate Seen(checks: CheckStore, name: Key, max: nat) {
    name in checks.objects && |checks.objects[name]| <= max
  }

  /** All signatures of the file are good; there may be none, but no other layer. */
  predicate WellSigned(structure: seq<Layer>) {
    |structure| <= 1 && forall layer :: layer in structure ==>
      layer.SignatureGroup? && forall r :: r in layer.results ==> r.GoodChecksum?
  }

  /** The first layer has a signature that names a certificate. */
  predicate NamesCertificate(structure: seq<Layer>) {
    structure != [] && structure[0].SignatureGroup? &&
    exists r :: r in structure[0].results && (r.GoodChecksum? || r.UnboundKey? || r.BadKey? || r.BadSignature?)
  }

  lemma AcceptableMeans(structure: seq<Layer>)
    ensures Acceptable(structure) <==> WellSigned(structure)
  {
    if Acceptable(structure) && structure != [] {
      forall r | r in structure[0].results ensures r.GoodChecksum? {}
    }
    if WellSigned(structure) && structure != [] {
      assert structure[0] in structure;
    }
  }

  lemma KnownKeysMean(structure: seq<Layer>)
    ensures KnownKeys(structure) != [] <==> NamesCertificate(structure)
  {
    if structure != [] && structure[0].SignatureGroup? {
      SomeReport(structure[0].results);
    }
  }

  lemma SomeReport(results: seq<SignatureResult>)
    ensures ReportsOf(results) != [] <==>
      exists r :: r in results && (r.GoodChecksum? || r.UnboundKey? || r.BadKey? || r.BadSignature?)
  {
    ReportsEmpty(results);
    if ReportsOf(results) != [] {
      var i :| 0 <= i < |results| && ReportOf(results[i]) != [];
      assert results[i] in results;
    }
  }

  /** What comes of the signature alone; `Skip` leaves it to the digests. */
  function SignatureByName(checks: CheckStore, key: Key, lib: Library, data: Bytes): Outcome {
    if !Seen(checks, key + ".sig", 2048) then Skip
    else
      var signature := checks.objects[key + ".sig"];
      if !lib.parses(signature) then Reject(InvalidSignature)
      else if WellSigned(lib.structure(signature, data)) then Pass
      else if NamesCertificate(lib.structure(signature, data)) then Reject(InvalidSignature)
      else Skip
  }

  /** An object of some name with the 32 bytes of a digest. */
  predicate HoldsDigest(checks: CheckStore, name: Key, digest: Bytes) {
    name in checks.objects && |digest| == 32 && checks.objects[name] == digest
  }

  /** The whole outcome where everything can be read, by the names of the stored objects and
      their limits: the signature in `.sig`, of up to 2048 bytes; else the BLAKE3 digest in
      `.blake3` and, if that is absent or longer than 32 bytes, the SHA-256 digest in
      `.sha256`. */
  lemma OutcomeByName(config: Config, checks: CheckStore, key: Key, lib: Library, data: Bytes, copying: bool,
                      faults: Faults)
    requires NoFaults(checks, data, faults)
    ensures Verdict(config, checks, key, lib, data, copying, faults) ==
      var signature := if config.pgp then SignatureByName(checks, key, lib, data) else Skip;
      if !signature.Skip? then signature
      else if config.signingMandatory then Reject(BackupNotSigned)
      else if Seen(checks, key + ".blake3", 32) then
        if HoldsDigest(checks, key + ".blake3", lib.blake3(data)) then Pass else Reject(InvalidChecksum)
      else if Seen(checks, key + ".sha256", 32) then
        if HoldsDigest(checks, key + ".sha256", lib.sha256(data)) then Pass else Reject(InvalidChecksum)
      else Reject(OtherFailure)
  {
    if Seen(checks, key + ".sig", 2048) {
      AcceptableMeans(lib.structure(checks.objects[key + ".sig"], data));
      KnownKeysMean(lib.structure(checks.objects[key + ".sig"], data));
    }
  }

  /** In particular, without signatures: verification passes if and only if one of the two
      objects holds its digest, the second only if the first is not looked at. */
  lemma DigestsByName(config: Config, checks: CheckStore, key: Key, lib: Library, data: Bytes, copying: bool,
                      faults: Faults)
    requires NoFaults(checks, data, faults) && !config.pgp && !config.signingMandatory
    ensures Verdict(config, checks, key, lib, data, copying, faults).Pass? <==>
      || HoldsDigest(checks, key + ".blake3", lib.blake3(data))
      || (&& (key + ".blake3" !in checks.objects || |checks.objects[key + ".blake3"]| > 32)
          && HoldsDigest(checks, key + ".sha256", lib.sha256(data)))
  {
    OutcomeByName(config, checks, key, lib, data, copying, faults);
  }

  /** A signature that names a known certificate and is not accepted. */
  /** What is reported, and what a passing backup is then extracted from: the backup counts as
      signed exactly when there is a signature of an allowed size to look at, the keys are the
      known ones of its first layer, and all of the backup has been checked. */
  lemma ReportByName(config: Config, checks: CheckStore, key: Key, lib: Library, data: Bytes, copying: bool,
                     faults: Faults)
    requires NoFaults(checks, data, faults)
    ensures Opens(SignatureOf(checks, key)) <==>
      key + ".sig" in checks.objects && |checks.objects[key + ".sig"]| <= 2048
    ensures KeysSeen(config.pgp, SignatureOf(checks, key), lib, data, faults) ==
      if config.pgp && Seen(checks, key + ".sig", 2048) && lib.parses(checks.objects[key + ".sig"])
      then KnownKeys(lib.structure(checks.objects[key + ".sig"], data)) else []
    ensures Checked(config, checks, key, lib, data, copying, faults) == data
  {
  }

  /** In any case what has been checked is the backup up to some point, all of it unless
      copying it for its signature failed there. */
  lemma CheckedFromTheStart(config: Config, checks: CheckStore, key: Key, lib: Library, data: Bytes, copying: bool,
                            faults: Faults)
    ensures Checked(config, checks, key, lib, data, copying, faults) <= data
    ensures Checked(config, checks, key, lib, data, copying, faults) != data ==>
      copying && faults.signature.Some? && config.pgp && key + ".sig" in checks.objects
        && |Checked(config, checks, key, lib, data, copying, faults)| == faults.signature.value
  {
  }

  predicate BadSignatureOfKnownKey(checks: CheckStore, key: Key, lib: Library, data: Bytes) {
    var check := SignatureOf(checks, key);
    && check.Content? && lib.parses(check.bytes)
    && var structure := lib.structure(check.bytes, data);
       && !Acceptable(structure) && structure != [] && structure[0].SignatureGroup?
       && exists i :: 0 <= i < |structure[0].results| && ReportOf(structure[0].results[i]) != []
  }

  /** Such a signature is final, and no digest is looked at, if and only if the backup could
      be read to its end for it. */
  lemma KnownKeyFallsBackExactly(config: Config, checks: CheckStore, key: Key, lib: Library, data: Bytes, copying: bool,
                                 faults: Faults)
    requires config.pgp && BadSignatureOfKnownKey(checks, key, lib, data)
    ensures Verdict(config, checks, key, lib, data, copying, faults) == Reject(InvalidSignature) <==>
      !FailsOn(faults.signature, data)
  {
    ReportsEmpty(lib.structure(SignatureOf(checks, key).bytes, data)[0].results);
  }

  /** So a backup that a known key signed badly passes on its digest when it is read from the
      cache, signing is not mandatory and the first reading fails. */
  lemma BadSignaturePasses(config: Config, checks: CheckStore, key: Key, lib: Library, data: Bytes, faults: Faults)
    requires config.pgp && !config.signingMandatory && BadSignatureOfKnownKey(checks, key, lib, data)
    requires FailsOn(faults.signature, data) && !faults.rewind && DigestMatches(checks, key, lib, data, faults)
    ensures Verdict(config, checks, key, lib, data, false, faults).Pass?
  {
    VerificationExact(config, checks, key, lib, data, false, faults);
  }

  /** If the library yields no signature at all for a signature file that parses, the backup
      is accepted, whatever it holds: no key, known or not, has signed it. */
  lemma NoSignatureIsAccepted(config: Config, checks: CheckStore, key: Key, lib: Library, data: Bytes, copying: bool,
                              faults: Faults)
    requires config.pgp && SignatureOf(checks, key).Content? && lib.parses(SignatureOf(checks, key).bytes)
    requires !FailsOn(faults.signature, data)
    ensures var structure := lib.structure(SignatureOf(checks, key).bytes, data);
      structure == [] || structure == [SignatureGroup([])] ==>
        Verdict(config, checks, key, lib, data, copying, faults).Pass? && KnownKeys(structure) == []
  {
  }
}
