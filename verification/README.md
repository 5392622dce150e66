# Prose Pod Server: verified models

Dafny models of the Prose Pod Server's most intricate parts, with machine-checked proofs
about them. Check everything with `dafny verify dfyconfig.toml`.

| file | what it models |
|---|---|
| `Paths.dfy` | the relation "at or under, on a `/` boundary" and longest-first matching, shared by the next modules |
| `Components.dfy`, `Moves.dfy` | paths as sequences of names, and moves of such sequences composed into one |
| `Migrations.dfy` | selecting path migrations by version and flattening them into one list |
| `Archiving.dfy` | archiving a file tree through a blueprint, and where each entry goes on extraction |
| `Upgrades.dfy` | where an entry of an older backup lands: migrated version after version, then mapped |
| `FileTrees.dfy`, `Steps.dfy`, `Restoration.dfy` | moving destinations aside, extracting, the guard that reverts, the restoration route |
| `NestedDestinations.dfy` | what a failed restoration leaves of nested, clashing or mounted destinations |
| `ServerBlueprint.dfy` | the blueprint the server ships with |
| `CachedStores.dfy`, `FirstInFirstOut.dfy` | the size-bounded FIFO cache in front of an object store; in which order runs record and evict |
| `Verification.dfy` | signature, BLAKE3 and SHA-256 checks over one stateful reader |
| `BackupIds.dfy` | printing, parsing and ordering backup identifiers |
| `BackupListing.dfy` | the directory store, the list of backups, their details and their deletion |
| `Secrets.dfy`, `TtlCaches.dfy` | passwords and tokens behind two read-write locks; the expiring cache |
| `Lifecycle.dfy` | published frontend/backend states and the Prosody child process |
| `Presets.dfy` | inheritance of analytics presets |
| `Bosh.dfy` | the BOSH request queue of the bundled `strophe.js` |
| `Progress.dfy` | throttled progress streams |

Modelling choices:

- Paths, keys and file contents are sequences of bytes, one `char` each. A file system is a
  finite map from paths to nodes.
- What the code updates in place is a class. Where an invariant ties many fields together,
  the class gives its state as a value and the steps are proved on that value.
- What the outcome depends on is a parameter: whether the system does what restoration asks
  of it, at which byte reading a backup fails, what the other service answers, what happens
  around a request, what a task's call yields. Which of the possible steps fails is chosen
  freely, so contracts hold wherever it happens. Under "Left out" are the failures that are
  not modelled. OpenPGP, BLAKE3, SHA-256, UTF-8 validity and archive parsing are parameters
  too.
- Tasks that share locks are a state machine: an action lets one task run to its next
  suspension point, or hands a lock to the first task in its fair queue.

Where the code does not do what its documentation or its name promises, the model follows
the code, shows an input on which the promise fails, and proves when it is kept:

- Flattening migrations is not composition when a later source lies inside an earlier
  target, when two targets must move, or when slashes keep the byte comparison from seeing
  that a path is held (`Migrations.FlattenExact`). The playground's own two upgrades are such
  a pair (`Migrations.PlaygroundUpgrade`).
- Reverting walks forwards, so of nested destinations exactly those files come back that no
  two of them hold (`NestedDestinations.RevertExact`,
  `NestedDestinations.FailureKeepsFiles`), and a destination that is another one's `.bak` name
  is brought back or not depending on the order and on what existed
  (`NestedDestinations.BakFirst`, `NestedDestinations.BakLast`). On a mounted destination new
  children stay (`NestedDestinations.NewChildStays`); `NestedDestinations.FailureExact` says
  which entries leave everything as it was.
- A migration target with a needless slash makes the lookup miss the mapping meant for what
  it moves (`Upgrades.SlashedTargetMisses`); without one, entries land where they should
  (`Upgrades.UpgradedEntryLands`).
- A backup without additional data is reported as invalid after its restoration has been
  committed; and if the data handed to the other service cannot be removed afterwards, that
  service has the backup's data while the files are reverted (`Restoration.PutBackupRestore`).
- Opening an object that does not exist leaves an empty cache file behind, after which the
  key can be written but not opened (`CachedStores.CachedStore.OpenBeforeWrite`).
- If reading a backup fails while its signature is checked, the incomplete copy enters the
  cache and is served from then on, and a bad signature of a known key no longer decides
  (`Verification.DownloadAndCheckIntegrity`, `CachedStores.CachedStore.ServesTruncated`,
  `Verification.KnownKeyFallsBackExactly`). An object deleted while it is being copied is
  served from the cache as well (`CachedStores.CachedStore.ServesDeleted`).
- A signature file for which the OpenPGP library yields no signature would be accepted
  (`Verification.NoSignatureIsAccepted`); whether the library ever does that is not modelled.
- Deleting a backup removes the checks of every newer backup with the same prefix
  (`BackupListing.DeletionStrandsNewer`), and where backups and checks share a directory,
  every newer backup itself (`BackupListing.SharedDeletion`).
- `get_token` unwraps a token that another task may have removed (`Secrets.PurgedBeforeRead`,
  `Secrets.ChangedBeforeRead`); a lookup is served if nobody does (`Secrets.LookupIsServed`).
  It never finds one with a zero time-to-live (`Secrets.ZeroTtlServesNothing`).
- A token is served for almost twice its time-to-live, not 97% of it
  (`TtlCaches.ServedForAlmostTwice`), and one that overwrites another may be gone at once
  (`TtlCaches.OverwrittenExpiresEarly`); `TtlCaches.StaysExactly` says when a value stays.
- A stop that fails after the process is gone makes the request panic and leaves a Running
  backend published without a process (`Lifecycle.StopFailureLeavesNone`), until some later
  request recovers; `Lifecycle.RunExactly` says when a Prosody runs, for every run.
- A failed `/lifecycle/reload` keeps the frontend state it started from; only
  `/lifecycle/frontend-reload` leads to "Running with misconfiguration", which the comments
  attribute to `SIGHUP` (`Lifecycle.MisconfiguredOnlyByFrontendReload`).
- A scalar in a preset hides the tables of the presets it inherits from; where the
  configuration then hides that scalar, the default preset is read before the base of the
  chosen one (`Presets.FirstDefinitionWins`, `Presets.DefaultOvertakesBase`).
- Reading an empty backup file panics once progress is reported (`Progress.RestoreStream`),
  and the stream of a backup being created goes past 100% if its archive is larger than
  estimated (`Progress.NeverPastTotal`).

## Model

| member | source | states |
|---|---|---|
| `Paths.Classify` | api/crates/backup/src/restoration.rs:391-406 | exact match, proper match and no match are told apart by "at or under, on a `/` boundary": `abc` does not hold `abcd/ef`, and a lone trailing slash is exact |
| `Paths.LongestFirstKeepsRules` | api/crates/backup/src/restoration.rs:162-167 | sorting mappings by length neither loses, adds nor repeats one |
| `Paths.FirstHitIsLongest` | api/crates/backup/src/restoration.rs:159-167 | although lengths count the trailing slash and matching ignores it, the first hit of the sorted list is the longest boundary match: an override `foo/a` wins over `foo/` |
| `Migrations.FilterSelectsBetween` | api/crates/backup/src/restoration.rs:270-279 | skipping then taking selects exactly the versions after the backup's and up to the blueprint's, in order |
| `Migrations.AbsorbRule` | api/crates/backup/src/restoration.rs:294-333 | one round of the loop redirects the first target the new rule moves, and keeps the rule unless its source was that target |
| `Migrations.FlattenMigrations` | api/crates/backup/src/restoration.rs:285-341 | the loops compute the flattened list the next lemmas are about, sorted longest first |
| `Migrations.ChainCollapses` | api/crates/backup/src/restoration.rs:281-284 | renaming one path version after version, any number of times, flattens to a single rule from the first name to the last |
| `Migrations.AbsorbIsMove` | api/crates/backup/src/restoration.rs:307-331 | under the composition condition, one round of flattening means one more move after the pass, for every path of the old layout, read as a sequence of names |
| `Migrations.AbsorbDiffers` | api/crates/backup/src/restoration.rs:307-331 | where the new rule does not fold in, some path below an accumulated source is mapped differently |
| `Migrations.UntidySourceMisses` | api/crates/backup/src/restoration.rs:369-406 | a kept rule whose source has needless slashes moves no path of any archive |
| `Migrations.FlattenPreservesMeaning` | api/crates/backup/src/restoration.rs:147-157 | one longest-first pass over the flattened list brings every old path to the names where the migrations applied one by one move it |
| `Migrations.FlattenByteForByte` | api/crates/backup/src/restoration.rs:147-157 | and to exactly those bytes when no target has a needless slash |
| `Migrations.FlattenExact` | api/crates/backup/src/restoration.rs:285-341 | flattening preserves meaning for the list and for every initial part of it if and only if each rule folds into those before it: it moves nothing, or its source is not inside an accumulated target, the only target at or under it is the one that comparing bytes finds, and its source, if kept, has no needless slash |
| `Migrations.PickedOutIsLost` | api/crates/backup/src/restoration.rs:285-341 | for every pair where the second source is inside the first target, everything below the first source stays where the first upgrade puts it |
| `Migrations.PlaygroundUpgrade` | api/crates/backup/playgrounds/mapped-tar/main.rs:22-29 | the playground's upgrades as written: `bar-data/b` should become `foo-data/c` and ends in `foo-data/bar` |
| `Archiving.MigratePath` | api/crates/backup/src/restoration.rs:380-406 | at most one migration is applied, the first that holds the path |
| `Archiving.FindDestination` | api/crates/backup/src/restoration.rs:408-437 | at most one mapping is used; an exact match is split into parent and file name |
| `Archiving.MapPath` | api/crates/backup/src/restoration.rs:369-462 | the entry's path and its destination are those of the mapping applied to the migrated path |
| `Archiving.LocationReplacesName` | api/crates/backup/src/restoration.rs:420-437 | splitting exact matches and stripping the slash of proper ones both amount to replacing the archive name by the local path; unmatched entries go to the temporary directory |
| `Archiving.MapsBackExactly` | api/crates/backup/src/archiving.rs:137-153 | every archived path maps back to where it came from if and only if local paths are nested as archive names are (in particular when no archive names are nested) |
| `Archiving.ArchiveWriter` | api/crates/backup/src/archiving.rs:125-183 | archiving succeeds exactly when every local path exists, and yields the additional data followed by the blueprint's lines in order; a failure names a missing path |
| `Archiving.RestoresTheTree` | api/crates/backup/src/restoration.rs:162-219 | extracting a backup brings back, below every local path, exactly the archived nodes with their contents and nothing else |
| `Archiving.RestoreStaysHome` | api/crates/backup/src/restoration.rs:186-219 | extraction writes nowhere else, except in the temporary directory |
| `Archiving.PartialIffAdditional` | api/crates/backup/src/restoration.rs:172-203 | extra data is reported if and only if the backup holds entries that no line claims |
| `Archiving.LastEntryWins` | api/crates/backup/src/restoration.rs:205-219 | of several entries that go to one path the last one is found there, and paths without an entry are left alone |
| `Upgrades.FoundByName` | api/crates/backup/src/restoration.rs:408-437 | the longest-first lookup finds the line that holds a path most closely, by name, if and only if comparing bytes shows that it holds it at all |
| `Upgrades.UpgradedEntryLands` | api/crates/backup/src/restoration.rs:147-219 | an entry of an older backup lands below the local path of the line that holds where the migrations move it, when no target has a needless slash |
| `Upgrades.MigratedVersionByVersion` | api/crates/backup/src/restoration.rs:147-157 | an old path is moved, by name, by the rules of each version after the backup's and up to the blueprint's, one version after another in increasing order and each version's rules in theirs |
| `Upgrades.NotMigrated` | api/crates/backup/src/restoration.rs:149-156 | and not at all when the backup is not older than the blueprint |
| `Upgrades.OlderEntryLands` | api/crates/backup/src/restoration.rs:147-219 | so an entry of an older backup lands, by name, below the local path of the line that holds where those versions move it |
| `Upgrades.OlderEntryRestored` | api/crates/backup/src/restoration.rs:147-219 | after a successful restoration its node is there, unless a later entry went to the same place |
| `Upgrades.SlashedTargetMisses` | api/crates/backup/src/restoration.rs:391-437 | with a target written `e/`, a line `e/b` misses the file that is moved to it |
| `FileTrees.RevertedAt` | api/crates/backup/src/restoration.rs:576-591 | reverting brings back the saved contents under every saved path, removes every moved-aside copy and leaves the rest alone |
| `FileTrees.AsideMoves` | api/crates/backup/src/restoration.rs:518-536 | renaming one more destination to a free name keeps everything recoverable |
| `FileTrees.AsideCreates` | api/crates/backup/src/restoration.rs:561-567 | so does creating the directories above a missing one |
| `FileTrees.RevertRestores` | api/crates/backup/src/restoration.rs:487-503 | reverting undoes any change made inside destinations |
| `FileTrees.UndoThenClean` | api/crates/backup/src/lib.rs:1117-1120 | deleting the temporary directory before or after reverting comes to the same |
| `Restoration.RevertGuard.Drop` | api/crates/backup/src/restoration.rs:487-503 | a defused guard deletes the copies, a live one reverts every entry in order |
| `Restoration.BackupDestinations` | api/crates/backup/src/restoration.rs:506-571 | for all destinations, nested, mounted or `/`: exactly the destinations, or the children of those on their own mount, have been moved aside one after the other and are in the guard; on failure those done so far have been reverted, but for directories; separate destinations never fail while the system works |
| `Restoration.SaveOne` | api/crates/backup/src/restoration.rs:511-568 | one destination is moved aside or recorded as new; a failure leaves at most some of the directories above it |
| `Restoration.DirectoriesAreMade` | api/crates/backup/src/restoration.rs:561-567 | where a destination does not exist every directory above it does afterwards, what was there is as it was, and nothing else is new |
| `Restoration.SaveChildren` | api/crates/backup/src/restoration.rs:537-560 | the children of a mounted destination are moved aside one by one, up to the first that fails |
| `Restoration.AsideKeeps` | api/crates/backup/src/restoration.rs:506-571 | while separate destinations are moved aside, each is gone and recoverable, and nothing else changes but parent directories that are created |
| `Restoration.Extract` | api/crates/backup/src/restoration.rs:186-219 | entries land where their paths map to, a failure has changed nothing but what is at those paths, and unmatched entries make the result partial |
| `Restoration.Restore` | api/crates/backup/src/restoration.rs:88-266 | for all destinations: an unknown version touches nothing, any other failure reverts what was moved aside, complete success discards the copies, partial success hands out a guard that can still undo everything; separate destinations are restored exactly when the version is known, the system works and no destination lacks data, the only failure left being the lack of data. `Upgrades.OlderEntryRestored` says where the entries of an older backup are |
| `Restoration.UndoneIsUnchanged` | api/crates/backup/src/restoration.rs:487-503 | for separate destinations a failure, wherever it happens, leaves every path as it was except created parent directories |
| `Restoration.ReplacedIsCommitted` | api/crates/backup/src/restoration.rs:241-266 | for separate destinations success leaves in them exactly the extracted data, no copy, and nothing else changed |
| `Restoration.RestoreBackup` | api/crates/backup/src/lib.rs:1080-1129 | all or nothing for separate destinations: on failure, at whatever step, every path is as before except created parent directories; on success destinations hold exactly the extracted data, no copy is left and nothing else changed. For all other destinations, which paths were moved aside and how they were reverted or discarded |
| `Restoration.BackupThenRestore` | api/crates/backup/src/restoration.rs:88-266 | archiving, with any additional data, then restoring with the same blueprint is the identity below every destination |
| `Restoration.PutBackupRestore` | api/src/router/backups.rs:395-495 | a backup without additional data never succeeds: for separate destinations it is committed and yet reported as invalid exactly when everything works; any other failure leaves the files unchanged; success exactly when the data was handed over, accepted and cleaned up; the other service has restored although the request fails exactly when only cleaning up failed |
| `NestedDestinations.ComesBack` | api/crates/backup/src/restoration.rs:576-591 | for every list of destinations with free `.bak` names, however nested, and every extraction: a node that at most one of them holds comes back, a file that two hold does not |
| `NestedDestinations.RevertExact` | api/crates/backup/src/restoration.rs:576-591 | so every file comes back if and only if none is inside two destinations |
| `NestedDestinations.RootsCover` | api/crates/backup/src/restoration.rs:537-560 | every file in a destination, mounted or not, is in a path that was moved aside |
| `NestedDestinations.FailureKeepsFiles` | api/crates/backup/src/restoration.rs:487-591 | for whatever destinations and wherever a restoration fails, a file is as before if and only if no two of the paths moved aside hold it |
| `NestedDestinations.NestedFailure` | api/crates/backup/src/restoration.rs:487-591 | for unmounted destinations, however nested and whatever was extracted, every file that at most one of them holds survives a failed restoration |
| `NestedDestinations.OuterFirst` | api/crates/backup/src/restoration.rs:576-591 | for every nested pair with the outer destination first, everything is back if and only if the inner one did not exist |
| `NestedDestinations.InnerFirst` | api/crates/backup/src/restoration.rs:576-591 | and so with the other order |
| `NestedDestinations.BakFirst` | api/crates/backup/src/util/fs.rs:20-41 | with destinations `d.bak` and `d`, everything is back if and only if `d` did not exist |
| `NestedDestinations.BakLast` | api/crates/backup/src/util/fs.rs:20-41 | with `d` and `d.bak`, if and only if `d` did not exist or `d.bak` did |
| `NestedDestinations.FailureExact` | api/crates/backup/src/restoration.rs:537-591 | when the paths moved aside, children of mounted destinations included, are separate, a failure leaves everything as it was if and only if each entry unpacked went into one of them or into the temporary directory, or is the node that was there before |
| `NestedDestinations.NewChildStays` | api/crates/backup/src/restoration.rs:537-560 | an entry below a mounted destination and in none of its old children stays after the failure |
| `ServerBlueprint.ServerIsRestorable` | api/src/router/backups.rs:35-52 | given a fresh temporary directory and free time-stamped names, the server's own blueprint meets the conditions of an all-or-nothing restoration, although `/etc/prose` is the beginning of `/etc/prosody` |
| `ServerBlueprint.ServerMapsBack` | api/src/router/backups.rs:35-52 | and every path archived with it maps back to where it came from |
| `Restoration.EnsureNotInBackedUpPath` | api/src/app_config.rs:198-236 | a storage directory is accepted if and only if it is neither a path of the blueprint nor inside one |
| `Restoration.StoredBackupsSurvive` | api/src/app_config.rs:198-243 | every file in an accepted directory survives every restoration of separate destinations, successful or not |
| `CachedStores.Evictions` | api/crates/backup/src/stores/cache.rs:85-111 | the fewest oldest entries whose removal makes room |
| `CachedStores.WithoutOne` | api/crates/backup/src/stores/cache.rs:245-263 | removing a key takes out one entry and gives back exactly its size |
| `CachedStores.OnlyWriter` | api/crates/backup/src/stores/cache.rs:123-195 | while a reader fills a cache file, no entry and no other reader uses that path: one live guard per path |
| `CachedStores.AbsentIsNotCached` | api/crates/backup/src/stores/cache.rs:315-323 | while the cache agrees with the store, every cached key exists there |
| `CachedStores.CachedStore.Write` | api/crates/backup/src/stores/fs.rs:94-116 | an existing object is never overwritten |
| `CachedStores.CachedStore.MakeRoom` | api/crates/backup/src/stores/cache.rs:85-111 | exactly the shortest oldest-first prefix is evicted, and the "desynchronized" branch is unreachable |
| `CachedStores.CachedStore.Cache` | api/crates/backup/src/stores/cache.rs:64-121 | the new entry comes last and the oldest go first, keys stay unique, the total is the sum of sizes and within the limit, a known key or an oversized object is not recorded |
| `CachedStores.CachedStore.CachedReader` | api/crates/backup/src/stores/cache.rs:123-195 | which opens succeed, from the cache or by caching, and what a failed one leaves behind |
| `CachedStores.CachedStore.Read` | api/crates/backup/src/stores/cache.rs:354-367 | the bytes read are those the inner store held when the reader was opened, also after the object was deleted or evicted |
| `CachedStores.CachedStore.PersistCache` | api/crates/backup/src/stores/cache.rs:197-212 | the copy enters the cache, complete or not; the cache still agrees with the store if and only if it was not an incomplete one that fits |
| `CachedStores.CachedStore.PersistCacheAndRewind` | api/crates/backup/src/stores/cache.rs:214-242 | reading restarts at offset 0 over what has been copied: the same bytes, unless the copy was incomplete |
| `CachedStores.CachedStore.DropReader` | api/crates/backup/src/stores/cache.rs:197-212 | the file is deleted exactly when nothing else holds it, so that none goes astray |
| `CachedStores.CachedStore.Remove` | api/crates/backup/src/stores/cache.rs:245-263 | only the entry of that key goes, and its file unless a reader holds it |
| `CachedStores.CachedStore.Delete` | api/crates/backup/src/stores/cache.rs:315-323 | the object goes together with its cached copy, a missing object changes nothing, and the cache still agrees with the store if and only if no reader is copying the object |
| `CachedStores.DeleteAgrees` | api/crates/backup/src/stores/cache.rs:315-323 | readers still copying a deleted object are all that is in the way of agreement |
| `CachedStores.RecordedAgrees` | api/crates/backup/src/stores/cache.rs:197-212 | recording a copy keeps agreement if and only if the copy is complete or too large to be recorded |
| `CachedStores.CachedStore.Fetch` | api/crates/backup/src/stores/cache.rs:123-212 | a whole read through a cache that agrees yields exactly the inner store's object, and leaves it cached unless it is larger than the cache |
| `CachedStores.CachedStore.Step` | api/crates/backup/src/stores/cache.rs:64-323 | what each operation does to the store, the cache and the readers; if the cache agreed with the store before, it does after exactly when the operation neither records an incomplete copy nor deletes an object being copied |
| `CachedStores.CachedStore.Run` | api/crates/backup/src/stores/cache.rs:64-323 | for every serial run that holds at each step, so the cache agrees at the end of a run of such operations; the inner store is that of a plain store given the same writes and deletions |
| `CachedStores.FilesOfRun` | api/crates/backup/src/stores/cache.rs:123-212 | over every run, a cache file is there if and only if an entry or an open reader holds it, or an open that failed for want of the object has left it, or it was there unheld before |
| `FirstInFirstOut.EarlierGoesFirst` | api/crates/backup/src/stores/cache.rs:85-117 | over every run, with the order taken from the run: of two cached keys, the one that was cached already when the other was recorded never outlives it unless the other is deleted |
| `FirstInFirstOut.EvictsNoMore` | api/crates/backup/src/stores/cache.rs:85-111 | an operation evicts only where the new entry does not fit with all of what it evicts |
| `FirstInFirstOut.RecordsTheCopy` | api/crates/backup/src/stores/cache.rs:64-121 | a stopped copy that fits is an entry afterwards, with as many bytes as were copied |
| `CachedStores.CachedStore.OpenBeforeWrite` | api/crates/backup/src/stores/cache.rs:145-195 | an open that fails because the object is missing makes later opens fail even once the object exists |
| `CachedStores.CachedStore.ServesTruncated` | api/crates/backup/src/stores/cache.rs:197-242 | a run: an object is copied in part and persisted, and the next whole read succeeds with that part |
| `CachedStores.CachedStore.ServesDeleted` | api/crates/backup/src/stores/cache.rs:315-323 | a run: an object is deleted while being copied, and a later read still serves it |
| `Verification.Check` | api/crates/backup/src/verification.rs:477-575 | a signature file is accepted exactly when it has at most one layer, a group of signatures that are all good; the known keys seen are reported |
| `Verification.ReportsEmpty` | api/crates/backup/src/verification.rs:477-575 | no key is reported exactly when no signature names a known certificate |
| `Verification.ReportsMean` | api/crates/backup/src/verification.rs:477-575 | a key is reported as valid exactly for the good signatures, and as not valid exactly for those with an unbound or bad key and for bad ones |
| `Verification.AcceptedKeysAreValid` | api/crates/backup/src/verification.rs:477-575 | in an accepted file every signature was made by a known, valid key |
| `Verification.NoSignatureIsAccepted` | api/crates/backup/src/verification.rs:477-575 | if the library yields no signature for a file that parses, the backup passes whatever it holds, without any known key |
| `Verification.CheckSignature` | api/crates/backup/src/verification.rs:118-213 | the signature is checked over the whole backup from offset 0 or up to where reading fails; falling through leaves the reader at offset 0 of what was copied, and a truncated entry exactly when a copy failed half-way and fits; the known keys are reported if the backup was read to its end; a backup counts as signed as soon as its signature can be opened |
| `Verification.CheckDigest` | api/crates/backup/src/verification.rs:220-392 | the digest is taken over the whole backup from offset 0; an absent or oversized check falls through, anything else decides, a failing read included |
| `Verification.DownloadAndCheckIntegrity` | api/crates/backup/src/verification.rs:92-392 | wherever reading fails, the outcome is that of the fall-through protocol, success keeps a file holding exactly the checked bytes, the report says intact if and only if the result is Ok and names the known keys of the signature that was read over, and the cache stays in agreement with the store if and only if no reading for the signature failed on an incomplete copy |
| `Verification.VerificationExact` | api/crates/backup/src/verification.rs:92-392 | success if and only if a configured signature is valid and was read to its end or, signing not being mandatory and the signature silent, BLAKE3 matches what is left to read or, that check being absent, SHA-256 does |
| `Verification.OutcomeByName` | api/crates/backup/src/verification.rs:92-392 | the whole outcome, errors included, read off the stored objects by name where everything can be read: `.sig` up to 2048 bytes, then `.blake3` with 32 bytes, then, that one being absent or longer, `.sha256` with 32 bytes |
| `Verification.DigestsByName` | api/crates/backup/src/verification.rs:219-392 | without signatures, verification passes if and only if `.blake3` holds the BLAKE3 digest or, that object being absent or longer than 32 bytes, `.sha256` holds the SHA-256 digest |
| `Verification.ReportByName` | api/crates/backup/src/verification.rs:118-213 | a backup counts as signed exactly when `.sig` is there with at most 2048 bytes, the keys reported are those of its first layer, and what is then extracted is the whole backup |
| `Verification.CheckedFromTheStart` | api/crates/backup/src/verification.rs:180-213 | in any case what was checked is the backup up to some point, all of it unless copying it for its signature failed there |
| `Verification.KnownKeyFallsBackExactly` | api/crates/backup/src/verification.rs:180-204 | a bad signature that names a known certificate is final if and only if the backup could be read to its end for it |
| `Verification.BadSignaturePasses` | api/crates/backup/src/verification.rs:180-204 | otherwise such a backup passes on its digest when it is read from the cache |
| `BackupIds.EncodesStrictly` | api/crates/backup/src/lib.rs:1373-1408 | the library's encoding followed by three replacements is a byte-by-byte encoding that also covers `-`, `.` and `/` |
| `BackupIds.EncodedByByte` | api/crates/backup/src/lib.rs:1373-1408 | bytes are encoded one by one: letters, digits, `_` and `~` stand for themselves, any other byte is `%` and two capital hexadecimal digits |
| `BackupIds.ComponentRoundTrip` | api/crates/backup/src/lib.rs:1373-1408 | an encoded component holds no `-`, `.` or `/`, and decodes to what was encoded |
| `BackupIds.PaddedIsFixedWidth` | api/crates/backup/src/lib.rs:1335-1345 | padding yields exactly the ten decimal digits |
| `BackupIds.SplitJoinExact` | api/crates/backup/src/lib.rs:1300-1312 | joining and splitting extensions is the identity if and only if there is one and none holds a dot |
| `BackupIds.IdentifiersRoundTrip` | api/crates/backup/src/lib.rs:1279-1346 | parsing a printed identifier gives it back if and only if the timestamp is not negative and there are extensions, none with a dot |
| `BackupIds.DocumentedName` | api/crates/backup/src/lib.rs:1264-1266 | the identifier of the documentation's example prints as written there |
| `BackupIds.ReadsDigits` | api/crates/backup/src/lib.rs:1289-1291 | digits are read exactly when there is at least one and nothing else, as the number they denote |
| `BackupIds.ParsesExactly` | api/crates/backup/src/lib.rs:1279-1313 | a name is read as an identifier if and only if it is made of the four parts between the first two hyphens and the first dot after them, of which two decode to UTF-8 and one denotes a date from 1970 to the end of the year 9999 |
| `BackupIds.NegativeTimestamp` | api/crates/backup/src/lib.rs:1335-1345 | a printed negative timestamp cannot be parsed |
| `BackupIds.KeysAreDistinct` | api/crates/backup/src/lib.rs:1279-1346 | two identifiers with such timestamps and extensions never share a key |
| `BackupIds.DigitsOrder` | api/crates/backup/src/lib.rs:1335-1345 | byte order of fixed-width digits is numeric order |
| `BackupIds.OlderDecides` | api/crates/backup/src/lib.rs:1316-1346 | for identifiers that share a prefix the older one sorts first, whatever is appended to the names |
| `BackupListing.FsStore.ListAllAfter` | api/crates/backup/src/stores/fs.rs:176-207 | exactly the names after the prefix, sorted, in whatever order the directory is read |
| `BackupListing.FsStore.DeleteAll` | api/crates/backup/src/stores/fs.rs:240-273 | exactly the names after the prefix are deleted, and reported |
| `BackupListing.SignaturesAreListed` | api/crates/backup/src/lib.rs:913-931 | looking for signatures only among names after the oldest backup misses none |
| `BackupListing.SignatureIsNoBackup` | api/crates/backup/src/lib.rs:879-897 | a signature is never taken for a backup |
| `BackupListing.ClassifiedByExtension` | api/crates/backup/src/lib.rs:879-897 | a name with a dot is a check if and only if what follows the last one is `sha256`, `blake3` or `sig` |
| `BackupListing.ClassifiedByName` | api/crates/backup/src/lib.rs:879-897 | a name without one, if and only if it is one of these |
| `BackupListing.ListBackups` | api/crates/backup/src/lib.rs:858-963 | every backup whose name parses is described exactly as the stores have it, names strictly descending |
| `BackupListing.NewestFirst` | api/crates/backup/src/lib.rs:933-962 | creation times never increase along the list |
| `BackupListing.GetDetails` | api/crates/backup/src/lib.rs:965-1043 | restorable if and only if the backup can be opened, passes verification and is a readable archive; intact if and only if it can be opened and passes; signed if and only if a signature can be opened |
| `BackupListing.ListingIsOneSided` | api/crates/backup/src/lib.rs:364-374 | what the list calls impossible to restore never passes verification, whatever the backup holds |
| `BackupListing.DeleteBackup` | api/crates/backup/src/lib.rs:1211-1254 | the backup, its cached copy and every check sorting after its name are gone; the cache stays in agreement unless the backup was being copied |
| `BackupListing.ChecksAfterDeletion` | api/crates/backup/src/stores/fs.rs:240-273 | among backups that share a prefix, its own checks and those of every newer backup are gone, those of every older one stay, and of one of the same second those whose name ends later go |
| `BackupListing.DeletionStrandsNewer` | api/crates/backup/src/stores/fs.rs:255-263 | so no newer backup with the same prefix passes verification any more |
| `BackupListing.DeleteShared` | api/crates/backup/src/lib.rs:1211-1254 | when backups and checks are in one directory, deleting a backup deletes everything that sorts after it |
| `BackupListing.SharedDeletion` | api/crates/backup/src/stores/fs.rs:240-273 | so every newer backup of that prefix is gone, and every older one stays |
| `Secrets.TurnRespectsLocks` | api/src/secrets_service.rs:82-145 | a turn takes no lock by itself and writes a map only under an exclusive guard; a password changes only under both |
| `Secrets.OthersKnow` | api/src/secrets_service.rs:120-127 | what another task has read stays true because of the guards it holds |
| `Secrets.StepKeepsInv` | api/src/secrets_service.rs:63-145 | every step of every task keeps tokens current, exclusion and the queues |
| `Secrets.TokensStayCurrent` | api/src/secrets_service.rs:63-145 | in every interleaving every cached token was issued for the password now stored for its account, a token in use is still cached, the password unwrap never panics and old tokens are always discarded before new ones are saved |
| `Secrets.BatchStores` | api/src/startup.rs:406-459 | in every interleaving, at the turn in which creating service accounts ends it still has both guards, and every account of it, or the last one of its name, has its password stored and, unless nothing is cached, a token for that password |
| `Secrets.BatchSucceeds` | api/src/startup.rs:406-459 | and it ends so if its own calls succeed |
| `Secrets.PasswordsComeFromBatches` | api/src/secrets_service.rs:83-103 | in every run no password is lost, and each is that from before or that of an account some task was to create |
| `Secrets.TokensComeFromLogIns` | api/src/secrets_service.rs:105-136 | in every run from the start, each cached token comes from a successful log-in to its account with the password it was issued for |
| `Secrets.CachedTokenIsReused` | api/src/secrets_service.rs:105-136 | a lookup that finds a token cached never logs in, never waits for the passwords, and no failing call can end it |
| `Secrets.FailingCallEnds` | api/src/secrets_service.rs:63-136 | the first failing call, or a missing password, ends a task for good and changes no password and no token |
| `Secrets.SomethingCanHappen` | api/src/startup.rs:406-409 | passwords before tokens: as long as a task is unfinished, some action is possible |
| `Secrets.RunsFinish` | api/src/startup.rs:406-459 | every run is finite, and one that cannot go on has finished every task |
| `Secrets.LookupIsServed` | api/src/secrets_service.rs:105-136 | in every interleaving with any other tasks, a lookup whose own calls succeed ends with its token unless that token is taken away after it was found |
| `Secrets.LookupInGoodCompany` | api/src/secrets_service.rs:105-136 | among tasks that spare the account, from the start on, it ends with the account's current token, still cached |
| `Secrets.ZeroTtlServesNothing` | api/src/util/cache.rs:33-37 | with a zero time-to-live no lookup ever gets a token |
| `Secrets.PurgedBeforeRead` | api/src/secrets_service.rs:129-136 | a run of one lookup and one purge, from the start on, in which the lookup panics |
| `Secrets.ChangedBeforeRead` | api/src/secrets_service.rs:83-103 | and one of a lookup and a password change that fails after discarding the token |
| `TtlCaches.EventKeepsInv` | api/src/util/cache.rs:33-68 | every event keeps each entry's own expiry in the queue |
| `TtlCaches.NoValueOutlivesTwice` | api/src/util/cache.rs:33-90 | after any run the expiry that a removal takes out is there, and no value is as old as twice the time-to-live, overwrites or not |
| `TtlCaches.ServedForAlmostTwice` | api/src/util/cache.rs:70-90 | that bound is met: a value can be served at age `2 * ttl - 1` |
| `TtlCaches.OverwrittenExpiresEarly` | api/src/util/cache.rs:62-68 | a run for every age below the time-to-live: a value that overwrote another is served at that age and gone with the next purge |
| `TtlCaches.StaysExactly` | api/src/util/cache.rs:33-68 | over every run that neither inserts nor removes its key, a value stays if and only if no expiry of that key, its own or an overwritten one's, was due at the last purge |
| `TtlCaches.ExpiresOnTime` | api/src/util/cache.rs:33-68 | over every run that overwrites nothing, values inserted again after a removal included, a purge takes a value away if and only if it is as old as the time-to-live |
| `TtlCaches.RemovedIsGone` | api/src/util/cache.rs:52-60 | a removed key is absent over every run that does not insert it again, and the other keys have kept their values and expiries |
| `TtlCaches.ServesLatest` | api/src/util/cache.rs:33-68 | after any run, what is served for a key is what was inserted for it last |
| `TtlCaches.Cache.Insert` | api/src/util/cache.rs:33-42 | the new expiry takes a free slot, the previous value is returned, a zero time-to-live stores nothing |
| `TtlCaches.Cache.Remove` | api/src/util/cache.rs:52-60 | entry and own expiry go together |
| `TtlCaches.Cache.PollPurge` | api/src/util/cache.rs:62-68 | exactly the elapsed expiries and the entries of their keys go, in whatever order they are popped |
| `Lifecycle.PublishKeeps` | api/src/state.rs:57-74 | publishing a state keeps every process owned exactly once and reachable at shutdown |
| `Lifecycle.CountProcesses` | api/src/router/mod.rs:61-321 | between requests no Prosody runs unless the published backend is Running, then at most one |
| `Lifecycle.App.Bootstrap` | api/src/startup.rs:50-167 | a bootstrap that fails at any step leaves no process, one that succeeds leaves exactly the new one |
| `Lifecycle.App.DoRestartBackend` | api/src/router/lifecycle/backend_restart.rs:98-133 | ends Running with a process, or in RestartFailed without |
| `Lifecycle.App.RestartAround` | api/src/router/backups.rs:169-208 | panics exactly when stopping a process fails, and then the Running backend stays published without a process; otherwise backup, restoration and restart end as a restart does |
| `Lifecycle.App.DoFactoryReset` | api/src/router/lifecycle/factory_reset.rs:33-151 | the documented outcomes and no others, each when it is due, with no Prosody left behind whatever fails |
| `Lifecycle.App.DoReloadFrontend` | api/src/router/lifecycle/frontend_reload.rs:60-125 | a new configuration is published exactly when it is valid and has the same domain; the process is untouched |
| `Lifecycle.App.DoReloadBackend` | api/src/router/lifecycle/backend_reload.rs:26-78 | published states stay; a missing process is started |
| `Lifecycle.App.InitConfig` | api/src/router/lifecycle/reload.rs:28-56 | configuration after a reset ends Running, Misconfigured or StartFailed |
| `Lifecycle.App.StartAgain` | api/src/router/lifecycle/backend_restart.rs:16-82 | retries end Running, or in the failed state they came from |
| `Lifecycle.App.Serve` | api/src/router/mod.rs:61-321 | with references counted and processes owned throughout, a request changes published states and process exactly as the abstract machine does, and panics exactly when stopping fails on one of the three routes that unwrap it |
| `Lifecycle.ServedExactly` | api/src/router/lifecycle/backend_restart.rs:34-54 | a Running backend has its process after a request exactly if it had it and the request does not panic, or had none and the request recovers |
| `Lifecycle.AnsweredExactly` | api/src/router/mod.rs:61-321 | a request without a route changes nothing; any other answers that all went well if and only if, route by route, what it was for has been achieved |
| `Lifecycle.ReloadsPublish` | api/src/router/lifecycle/frontend_reload.rs:36-125 | reloading keeps the backend and publishes the frontend for the domain read if that is the one before; otherwise the frontend stays, or is marked as misconfigured by a frontend reload |
| `Lifecycle.ResetPublishes` | api/src/router/lifecycle/factory_reset.rs:33-151 | a factory reset whose stop or deletion fails stays under way; one that reads no valid configuration leaves the server to be configured; any other publishes the frontend for the domain read and a backend that runs or failed to start |
| `Lifecycle.ConfigurePublishes` | api/src/router/lifecycle/reload.rs:28-56 | and so does configuring a stopped server |
| `Lifecycle.RestartPublishes` | api/src/router/lifecycle/backend_restart.rs:16-133 | starting or restarting keeps the frontend and ends Running with a process, or as StartFailed from Starting and StartFailed, and as RestartFailed otherwise |
| `Lifecycle.RefusedChangesNothing` | api/src/router/backups.rs:169-208 | a backup or restoration that does not get past its checks changes nothing, and one whose stop fails loses the process and nothing else |
| `Lifecycle.DomainWasRead` | api/src/router/mod.rs:61-321 | in every run the domain served is the first one or one that a request has read since |
| `Lifecycle.RunExactly` | api/src/router/mod.rs:61-321 | at every point of every run a Prosody runs exactly while a Running backend is published, if and only if no request has panicked without another recovering since |
| `Lifecycle.StopFailureLeavesNone` | api/src/router/lifecycle/backend_restart.rs:34-41 | the run that fails: a failing stop leaves the Running backend without a process, reloading the frontend does not help, the next restart does |
| `Lifecycle.MisconfiguredOnlyByFrontendReload` | api/src/router/lifecycle/reload.rs:12-26 | "Running with misconfiguration" comes of a failed frontend reload only; a failed reload changes nothing |
| `Lifecycle.App.Run` | api/src/router/mod.rs:61-321 | every serial run of requests, whatever happens around them, is a run of the abstract machine, with never more than one Prosody |
| `Lifecycle.App.Cleanup` | api/src/state.rs:96-105 | shutdown leaves no Prosody |
| `Lifecycle.DomainChangesOnlyAcrossReset` | api/src/app_config.rs:297-312 | two different domains in a run have a factory reset between them |
| `Presets.JoinReads` | api/src/app_config.rs:1130-1136 | for all values: after joining, the left one decides what a key reads as unless it neither defines the key nor has a scalar in its way |
| `Presets.ScalarInTheWay` | api/src/app_config.rs:1130-1136 | where a scalar meets a table, joining is not associative |
| `Presets.ChainIsAcyclic` | api/src/app_config.rs:1121-1134 | a chain that ends has no repetition |
| `Presets.ResolutionExact` | api/src/app_config.rs:1116-1152 | resolution succeeds if and only if following `inherits` ends: every name present, every `inherits` a string, no cycle |
| `Presets.FailsExactly` | api/src/app_config.rs:1116-1152 | resolution fails with an error if and only if following `inherits` along the path that the error tells leads to a preset that is missing or was used already, or to an `inherits` that is no string |
| `Presets.InheritsIsConsumed` | api/src/app_config.rs:1122-1123 | no resolved preset has the key `inherits` |
| `Presets.ChainReads` | api/src/app_config.rs:1116-1152 | every resolved preset reads as its chain's tables in order, up to the first scalar in the way |
| `Presets.AcceptedExactly` | api/src/app_config.rs:246-252 | a configuration is accepted if and only if the chosen chain, if there is one, and the default chain end |
| `Presets.OneBadPreset` | api/src/app_config.rs:1112-1114 | one preset that is no table hides them all: the configuration is refused, as if there were no presets |
| `Presets.AnalyticsRead` | api/src/app_config.rs:246-252 | what every analytics key reads as, for every accepted configuration, with or without a chosen preset |
| `Presets.OthersUnchanged` | api/src/app_config.rs:1154-1156 | no other key changes |
| `Presets.FirstDefinitionWins` | api/src/app_config.rs:246-252 | each key has its first definition along user configuration, chosen chain and default chain if and only if no scalar hides it, or what is read instead happens to be the same |
| `Presets.DefaultOvertakesBase` | api/src/app_config.rs:246-252 | configurations in which the default preset is read although the chosen preset's base defines the key |
| `Bosh.PlacedInOrder` | plugins/community/mod_tcpproxy/web/strophe.js:3484-3509 | a stanza that is no longer pending is at the one place of one body that its turn gives it |
| `Bosh.SameNumberSameBody` | plugins/community/mod_tcpproxy/web/strophe.js:2393-2405 | within a session a request id identifies a body |
| `Bosh.Connection.Send` | plugins/community/mod_tcpproxy/web/strophe.js:2081-2097 | elements are queued in order; what is not an element throws, with exactly those before it queued and nothing posted |
| `Bosh.Connection.OnIdle` | plugins/community/mod_tcpproxy/web/strophe.js:3476-3509 | with room for a request, everything pending goes into one body, in order, with a restart if one is pending, and that body is posted |
| `Bosh.Connection.ProcessRequest` | plugins/community/mod_tcpproxy/web/strophe.js:2455-2545 | a dead or unsent request is posted with its id and payload, any other is left alone |
| `Bosh.Connection.ThrottledRequestHandler` | plugins/community/mod_tcpproxy/web/strophe.js:2552-2576 | the first request, and the second one within the window, are posted if dead or unsent; a second request outside the window is left alone |
| `Bosh.Connection.RemoveRequest` | plugins/community/mod_tcpproxy/web/strophe.js:2413-2428 | the other requests keep ids, payloads and order |
| `Bosh.Connection.Run` | plugins/community/mod_tcpproxy/web/strophe.js:2081-2201 | over any run each stanza is in exactly one body, in order, or still queued; built bodies never change and are numbered consecutively in a session; only built bodies are posted; every restart queued is still pending or carried by a body built since, and no body carries one that was not queued |
| `Progress.EventHandler.OnProgress` | api/src/router/backups.rs:815-843 | progress is counted, and an event is sent only when more than the interval has passed; restoring panics on an empty total |
| `Progress.StreamPaced` | api/src/router/backups.rs:791-864 | for every total, every way of reporting and every clock: progress never goes back, throttled events are spaced by more than the interval, and the last event is at 100%, unless more was counted than that |
| `Progress.NeverSilent` | api/src/router/backups.rs:815-843 | whenever a chunk is reported more than the interval after the latest event, an event is sent with all that has been counted |
| `Progress.NeverPastTotal` | api/src/router/backups.rs:633-683 | no clock makes a stream go past 100% if and only if what is counted is at most the total |
| `Progress.CreateStream` | api/src/router/backups.rs:609-683 | creating a backup: the stream ends at 100% without going past it when the archive is no larger than expected |
| `Progress.RestoreStream` | api/src/router/backups.rs:693-864 | restoring a backup: an empty file panics as soon as it is read; otherwise the total is the size and a tenth more, as far as 64 bits go, progress never goes past it, even where adding a tenth saturates, and the stream ends at 100% |

## Left out

- `Restoration.RestoreBackup`: all-or-nothing is stated for destinations whose names and possible `.bak` names are pairwise apart, on no mount of their own, with a free time-stamped name and a fresh temporary directory; `NestedDestinations` has what happens otherwise. Steps of the reverting itself are taken to succeed, as the code is best-effort there.
- `NestedDestinations.FailureKeepsFiles`: for moved-aside names that are free, and for entries that do not land in the copy of an old child of a mounted destination (`NestedDestinations.FailureExact` covers those for separate paths); clashing ones are covered for pairs (`NestedDestinations.BakFirst`, `NestedDestinations.BakLast`).
- `Migrations.FlattenExact`: for sources that are pairwise not nested; for nested sources only the loop itself is modelled.
- `Presets.AnalyticsRead`: the merging of arrays and the removal of the presets afterwards are not modelled.
- `Progress.RestoreStream`: assertions that only debug builds check are not modelled, and sending an event is taken to succeed.
- `Restoration.Extract`: the tar library's treatment of `.` and `..` components, links, permissions and implicit parent directories is not modelled.
- `CachedStores.CachedStore.Write`: the `overwrite` option of the directory store, 64-bit overflow of the total size and disk errors while caching are not modelled.
- `Secrets.TokensStayCurrent`: says nothing about the password Prosody itself has, which differs from the stored one when a call fails half-way through an account; accounts without a local part, which the loop skips, are left out of the batch, and dropping a request's future is not modelled.
- `TtlCaches.NoValueOutlivesTwice`: takes the purge task to run at least once per time-to-live.
- `Lifecycle.App.Serve`: requests are served one at a time, killing a process works and Prosody does not exit by itself; debug-only panics are warnings, as in release builds.
- `Bosh.Connection.ProcessRequest`: timers, back-off and the failure to open a request are not modelled; which requests are dead is chosen freely.
- Creating a backup as one streaming pipeline (archive, compress, encrypt, hash, sign, upload) and its delete guard.
- Reading the metadata entry and the details it yields, beyond whether reading succeeds.
- The S3 store, object locks, download URLs and `find`.
- OpenPGP, zstd, BLAKE3, SHA-256 and tar internals.
- Concurrent lifecycle requests, which the code does not serialise.
- HTTP routing glue, authentication of callers, error responses, logging, analytics events, proxies and Prosody shells.
- The rest of `strophe.js`: DOM building, SASL, handlers, error thresholds.
