# Verification of galaxyd

A Dafny model of the parts of galaxyd that are hard to get right, with proofs. `dafny verify
dfyconfig.toml` checks everything.

**Publication** (`Publication`, `PublicationInvariant`, `PublicationSafety`, `PublicationRuns`,
`Worker`). Any number of uploads race on keys while readers look records up, clients poll
import tasks and the process crashes and restarts. A state machine has one step for each
effect on the storage or on shared memory, for both backends: on local disk the artifact is
created, filled, checked and committed by a hard link, after the directories for the record
were made one by one; on S3 it is put unconditionally and committed by a put with
`If-None-Match: *` (section 13.1.2 of RFC 9110). A write that reports an error may or may not
have taken effect. Nearly the whole invariant is about one upload, so it is stated on the view
that one upload has of a state, and the promises follow for every run. The class `Worker.Process` has the code itself: publishers, upload worker, download and
startup in the order of their statements, with arbitrary steps of others before each effect,
each proved to be a run of the machine.

**Sessions** (`Sessions`, `SessionsSafety`, `SessionGate`). Logins, OIDC refreshes, logouts and
reloads interleave at every lock. A reload writes the configuration, raises the generation and
clears the sessions in three steps while it holds `auth_gate`. Logins and refreshes read the
generation, then the configuration, and compare the generation again before they write. The
class `SessionGate.AppState` has the requests, the refresh and the reload in the order of their
statements, again with arbitrary steps of others in between.

**Sequential code.** `Base64` and `Upload`: the streaming decoder against section 4 of RFC 4648.
`Archive`: the chain from the manifest over the file list to each file, the safety of paths
(`Paths`), and the scan of pax headers. `ClientIp`: the walk along a proxy chain. `Keys`, `RecordLookup`, `Storage`,
`RecordTree` and `RecordObjects`: record places, lookup with its legacy fallback, the scan of
record files and record objects, the removal of orphans. `Pages`: filters, order and links of
the collection list. `Sorting`, `Sequences` and `Wrappers` are shared helpers.

Parameters stand for what the model does not look into: `hash` is any function from bytes to
digests (only `Archive.ManifestBindsContents` asks that it does not collide, and only on the
files of the two archives), `parse` functions are any decoders of JSON or addresses, and the
archive tools are any functions for manifest, file list and the decoding of file names. Which
operations of a publication, a download, a refresh or a startup fail is a parameter too (the
sets `faults`, `trouble` and `provider`), so that an error always has a named cause. The methods
choose arbitrarily only what others do in between, how much one read yields, and whether a
failed write took effect.

These expectations one may have of the code do not hold, and are stated as what does:

- A failed publication may have committed its record: `PublicationSafety.ErrorCommittedIff`
  and `PublicationRuns.ErrorMayBeCommitted`.
- A refresh may present an outdated token, since a refresh token that comes without an access
  token is dropped: `SessionsSafety.NewestIsPresented` and `SessionsSafety.NewestMayBeDropped`.
- Local record paths are not injective for names that are a single dot:
  `Keys.LocalPathsCollide`. Legacy names are not injective at all: `Keys.LegacyNamesCollide`.
- On local disk `AlreadyExists` may mean that a directory is at the path of the record, and that
  nobody has published the version: `PublicationRuns.DirectoryMayRefuse`. When that can be is
  `Keys.RecordPathMayBeDirIff`.
- Where the collection name is a single dot, a local publication fails unless somebody has made
  the directory of the namespace: `Keys.DirsMade` and `Worker.Process.MakeRecordDir`.
- Two archives with one manifest may differ in the bytes of a file name: `Archive.SamePathsIff` and
  `Archive.PathsMayDiffer`.
- The pax scan refuses some innocent comments: `Archive.CaughtIff` and `Archive.CommentMayBeCaught`.
- A limit of the largest `usize` is no limit: `Upload.NoLimitAtMax`.

## Model

| member | source | states |
|---|---|---|
| `PublicationSafety.RecordsAreSound` | src/storage.rs:852-947 | In every reachable state of any interleaving of publishers, readers, crashes and restarts, on either backend, each committed record and each record a reader has found names an artifact that is there, complete, and has the record's size and SHA-256 |
| `PublicationSafety.CommittedIsForever` | src/storage.rs:831-904 | A committed record is never changed, replaced or removed in any continuation, and the artifact it names keeps its bytes |
| `PublicationSafety.OneWinner` | src/storage.rs:801-906 | At most one publisher of a key ever returns success, its record is the one committed; `AlreadyExists` means that another publisher's record is at the place or, on local disk, that no record but a directory is there |
| `PublicationSafety.LoserSharesTheKey` | src/storage.rs:103-108 | What refused a publisher is a record or a directory, never both: a directory only on local disk, for a key with a single dot as namespace or collection name whose file name could itself be a name; the record has the same key or, with exactly one single dot, the same key with namespace and name exchanged |
| `PublicationRuns.DirectoryMayRefuse` | src/storage.rs:859-897 | A run on local disk in which a publisher is told that its version exists although nothing at all is published and nobody else publishes to its path: an upload of another version, accepted by the archive check like this one, has made a directory there |
| `PublicationSafety.PathsAreFiles` | src/storage.rs:859-864 | On local disk the directory of each committed record is there, no record stands where a directory is, and no record's path leads through another record |
| `PublicationSafety.ErrorCommittedIff` | src/storage.rs:891-904 | A publisher that is told of an error has committed its record if and only if the commit took effect and then the directory sync failed or the response was lost; so "failed" does not mean "not committed", and this is the only way |
| `PublicationRuns.ErrorMayBeCommitted` | src/storage.rs:248-260 | A run on S3 in which a publisher is told of an error and its record is committed |
| `PublicationSafety.CleanRace` | src/storage.rs:1044-1066 | If all who raced for a place were told that they published or that the version exists, exactly one of them published if and only if no directory is at the place (with one there, all were refused), and of those whose removal did not fail exactly the publisher has an artifact; nothing is asked of other places, earlier crashes or uploads under way |
| `PublicationSafety.CleanStore` | src/storage.rs:1044-1066 | If that is so at every place and no removal failed, the artifacts in the storage are exactly those of committed records |
| `PublicationSafety.RemovalsAreOwn` | src/storage.rs:196-211 | No step deletes an artifact that a committed record names; an artifact disappears only at startup as an orphan, or by its own publisher after a refused commit (on local disk also after a failed link) |
| `PublicationSafety.CompletedNeverFails` | src/app.rs:1815-1842 | A task once reported completed, to a poll or to the uploader, is never again reported failed: over eviction, a lost final write, crashes and restarts; a record of its key and digest stays committed |
| `PublicationSafety.SettledTellsTruth` | src/app.rs:117-137 | At startup an unfinished task becomes completed if and only if a record with its key and digest is committed |
| `PublicationSafety.CatalogIsCommitted` | src/app.rs:147-154 | The catalog lists only committed records and no key twice |
| `PublicationSafety.CatalogIsComplete` | src/app.rs:2175-2182 | It lists all committed records unless a publication stands between its commit and the catalog or has returned an error after its commit since startup |
| `PublicationInvariant.StepInv` | src/storage.rs:160-262 | Every step of every publisher, reader, poll, crash and startup keeps the invariant: artifacts of publishers in flight are owned, committed records are complete, tasks agree with storage, cache and past observations |
| `PublicationInvariant.RunInv` | src/app.rs:147-154 | So does every run, of any length |
| `PublicationInvariant.DecisionKeeps` | src/storage.rs:891-902 | The commit of a free place, its refusal by a record or a directory, its failure, and the removal of the artifact after that keep it |
| `PublicationInvariant.SettleKeeps` | src/app.rs:117-137 | Settling an unfinished task from the catalog keeps it, because the catalog then has every committed record |
| `PublicationInvariant.RemoveOrphanInv` | src/storage.rs:736-768 | Removing an orphan at startup keeps it: no committed record names the artifact |
| `PublicationInvariant.CrashInv` | src/app.rs:147-154 | A crash at any point keeps it |
| `PublicationRuns.ForeignRun` | src/storage.rs:852-906 | Whatever others do, a publisher's own artifact, phase and answer stay as they are, and its place can only become taken |
| `PublicationRuns.AnswerMeans` | src/storage.rs:891-905 | What a finished publisher's result says, from the invariant alone: published, the record and the whole artifact are there; exists, another record or a directory is there and the own artifact is gone unless its removal failed; error, the record is committed exactly if the publisher won, then with its whole artifact, and is in the catalog or known to be missing from it |
| `PublicationRuns.SecondRunChangesNothing` | src/app.rs:109-145 | Reconciling tasks a second time, with any catalog at any time, changes nothing |
| `PublicationRuns.NoneRuns` | src/app.rs:109-145 | After tasks were reconciled none is running |
| `Worker.Process.PublishFileSync` | src/storage.rs:852-906 | The local publisher's statements in order, the creation of each directory among them, others acting before each effect, are a run of the machine; its result is true when it returns and has a cause: an error needs a failed operation, a record file where a directory is needed, or a missing directory above a single dot; without one the result is `Published` exactly if the place was free when the link was tried, and else `AlreadyExists` |
| `Worker.Process.MakeRecordDir` | src/storage.rs:859-864 | Making the directories one by one, each of which may be there already, ends with the directory of the record there; it fails only if an operation fails, at a record file in the way, or where the collection name is a single dot and the directory was not there at the call |
| `Worker.Process.PublishObject` | src/storage.rs:216-262 | The same for S3: the artifact is deleted only after a refused record put, and an error needs a failed operation |
| `Worker.Process.GetArtifact` | src/storage.rs:907-947 | A download, others acting between its reads, never finds the artifact of a record missing or damaged; a key is reported as missing only if neither its place nor its legacy place had a record, as a mismatch only if another key's record is at one of them, and an obstructed path only if a directory is there or a record file above it. If no read fails, a record committed before the call is returned, and a valid key with nothing at or above either place is missing |
| `Worker.Process.GetLegacy` | src/storage.rs:772-788 | The fallback to the legacy place, at which publishing never puts a record of the key itself; it fails only if that read fails |
| `Worker.Process.Settle` | src/storage.rs:885-904 | From the commit to the result: published if the place was free when the commit was tried, refused by a record or a directory, or an error if the commit or what follows it failed; after a refusal the artifact is gone unless its removal failed |
| `Worker.Process.CopyAll` | src/storage.rs:872-876 | The copy loop ends with the whole source in the artifact, or with an error exactly if copying fails |
| `Worker.Process.Work` | src/app.rs:2158-2196 | The upload worker is a run of the machine; when it responds, its result is true and has a cause, and the cached task says completed exactly for a success; so does the stored task unless it could not be stored; without a response the first put failed |
| `Worker.Process.RememberTask` | src/app.rs:1472-1490 | The cache afterwards is the one found, without the task that had to make room in it, and with the finished task |
| `Worker.Process.OldestFinished` | src/app.rs:1475-1481 | Finds a finished cached task that ended first, or tells that none is finished |
| `Worker.Process.ChooseEvicted` | src/app.rs:1474-1488 | Nobody leaves a cache that has room; of a full one exactly one task leaves, a finished one that ended first if any is finished |
| `Worker.Process.RemoveOrphans` | src/storage.rs:736-768 | At startup the loop of the backend (`Storage.ArtifactStore`) is a run of single removals of the machine: only unreferenced artifacts older than the cutoff go; if it completes over a full listing exactly the listed and the young ones are left, and it stops only at a failed request, entry or removal |
| `PublicationRuns.ReconcileRuns` | src/storage.rs:568-613 | Whatever part of the orphans of a listing with right times is removed before a failure, that is a run of the machine |
| `PublicationRuns.OrphansRun` | src/storage.rs:736-768 | The removal of any set of orphans is a run of single removals |
| `Worker.Process.SettleTasks` | src/app.rs:109-145 | Each unfinished task is settled by the catalog and the others stay; this is a run of the machine and completes exactly if no unfinished task fails to be stored; a failed write may have taken effect |
| `Worker.Process.RecentTasks` | src/app.rs:142-144 | The cache starts with the most recently started tasks, 4096 of them or all if there are fewer |
| `Worker.Process.Start` | src/app.rs:147-154 | Startup in its order keeps records and every artifact that is listed or young, and when reconciliation completes over a full listing of the artifacts exactly these are left; that fails only where a request, an entry or a removal does. It settles all tasks, caches the most recent ones and serves with the listed catalog exactly if records and tasks can be listed and no unfinished task fails to be stored, and else ends the process |
| `Worker.Process.StartFromFiles` | src/storage.rs:949-969 | On local disk the scan of the record files, with temporary files among them, gives startup the complete listing it needs; the artifacts left by a completed reconciliation are exactly those that a committed record names or that are young |
| `Worker.Process.StartFromObjects` | src/storage.rs:419-467 | On S3 the loop over the pages of the record listing, for any division into pages, gives startup the complete listing it needs, or ends the process; the artifacts left are as on local disk |
| `RecordObjects.ReadObjects` | src/storage.rs:419-467 | The loop yields the records of all listed objects in order, each once, and fails exactly if a request fails or an object is oversized or cannot be fetched or read |
| `RecordObjects.ObjectsAreListed` | src/storage.rs:419-467 | What it returns for a bucket that holds the committed records lists each of them once and nothing else |
| `RecordTree.StatesAreTrees` | src/storage.rs:859-904 | Every state that local disk reaches is a file system: some tree of directories and files, no two entries of a directory with one name, holds exactly its records |
| `RecordTree.TreeIsListed` | src/storage.rs:949-969 | What the scan returns for a tree of the committed records and temporary files lists each of them once and nothing else |
| `RecordTree.ScanIsExact` | src/storage.rs:949-969 | The scan of any readable tree yields exactly the records in its record files, at whatever depth |
| `SessionsSafety.RightsAreCurrent` | src/app.rs:247-266 | Whenever no reload holds the gate, every session has exactly the rights that the active configuration gives to local users or to the groups the provider last named |
| `SessionsSafety.AllowedIff` | src/app.rs:1787 | Then a local user may reach every namespace and is listed for those of the active configuration, and an OIDC user may reach exactly the namespaces to which it maps one of the groups last named |
| `SessionsSafety.OnlyCurrentWrites` | src/app.rs:1321-1470 | A session enters the table or gets other rights or another token only through a login or refresh that read the present generation, and with the active configuration's rights |
| `SessionsSafety.OneRefreshAtATime` | src/app.rs:1276-1302 | Two requests never hold the refresh lock of one session at a time |
| `SessionsSafety.NewestIsPresented` | src/app.rs:1355-1385 | Each refresh presents the last refresh token that came with an access token, also when the attempt that received it failed later; it is the last one received if and only if that one came with an access token |
| `SessionsSafety.NewestMayBeDropped` | src/app.rs:1372-1385 | A run in which a refresh presents an outdated token, because the newest one came in a response without an access token |
| `SessionsSafety.RemovedForever` | src/app.rs:1268-1318 | A session id that has left the table, by logout, expiry, eviction, revocation or reload, never comes back |
| `SessionsSafety.SessionsContinue` | src/app.rs:1376-1433 | As long as it is in the table a session keeps its kind, its user and its expiry, and its check time never goes back |
| `SessionsSafety.EndedForGood` | src/app.rs:620-640 | A session ended by a reload, a logout, a revocation, its removal after a look that found it expired, with or without the refresh lock, or eviction by a login is in the table at no later time |
| `SessionsSafety.ExpiredIsRemoved` | src/app.rs:1265-1319 | After a look that finds the session expired, first, under the lock, or last, the request can only remove it and gets none |
| `SessionsSafety.GrantedIsFresh` | src/app.rs:1258-1319 | A request gets a session only if unexpired at the last look; an OIDC session only if at some instant of the request its last recorded check was younger than an interval in force during the request; its rights are current |
| `SessionsSafety.StepInv` | src/app.rs:1258-1470 | Every step of logins, requests, refreshes and reloads keeps the session invariant |
| `SessionsSafety.WriteKeeps` | src/app.rs:1376-1435 | Saving a rotated token, reading user info, writing rights, revoking and releasing keep it |
| `SessionsSafety.LookKeeps` | src/app.rs:1266-1318 | The first and last look at the session and the wait for the lock keep it |
| `Sessions.GroupsAddUp` | src/app.rs:1230-1246 | Rights of several groups are the union of the rights of each; no groups, no rights |
| `Sessions.MappingsAddUp` | src/app.rs:1230-1246 | A group has the rights of the mappings that name it and of no others |
| `SessionGate.AppState.SessionFromHeaders` | src/app.rs:1258-1319 | The whole request, others acting before each step, is a run of the machine. A session it returns is in the table and was fresh at some instant since the call; `NoSession` means that the table has none in the end; `Unavailable` needs a failure of the provider, and waiting a reload or another refresh, and both an overdue OIDC session. So a local session that is still there is granted, and any session if the provider does not fail and nothing waits |
| `SessionGate.AppState.RefreshOidcSession` | src/app.rs:1321-1436 | The refresh in its order is a run of the machine. It ends fine only if the provider vouches for the user, with rights for the groups it named; unreachable only if the provider fails; revoked only without a refresh token, by the provider's refusal, after a reload, or if the session is gone or expired; waiting only while a reload holds the gate |
| `SessionGate.AppState.SaveToken` | src/app.rs:1376-1385 | Under the gate the rotated token is saved, or the refresh is revoked if the generation changed; it waits only while a reload holds the gate |
| `SessionGate.AppState.WriteRights` | src/app.rs:1421-1435 | Under the gate rights and check time are written, or the refresh is revoked if the generation changed or the session is gone or expired; it waits only while a reload holds the gate |
| `SessionGate.AppState.ApplyReload` | src/app.rs:247-266 | Applied, the new configuration is active, the generation is higher and no session is left; a change that needs a restart is refused; it waits only while another reload holds the gate; others may act between its writes |
| `SessionGate.AppState.RememberSessionIfCurrent` | src/app.rs:1458-1470 | The session enters the table only if the generation is still the one read, and then its rights are the active configuration's; it waits only while a reload holds the gate |
| `SessionGate.AppState.MakeRoom` | src/app.rs:1438-1455 | Nobody leaves a table that has room; in a full one exactly the expired sessions go, or exactly one session if none is expired |
| `Base64.DecodeIffEncode` | src/upload.rs:56-70 | A string decodes to some bytes if and only if it is the encoding of these bytes in section 4 of RFC 4648, so padding and zero pad bits are required (section 3.5) |
| `Base64.DecodeOfEncode` | src/upload.rs:56-70 | Decoding inverts encoding |
| `Base64.EncodeOfDecode` | src/upload.rs:56-70 | Encoding inverts decoding, for every string that decodes |
| `Upload.StreamIsOneShot` | src/upload.rs:29-74 | For every limit the streaming decoder returns exactly the bytes whose encoding it was fed if they fit the limit, and `TooLarge` for an encoding of more; at the largest `usize` everything fits |
| `Upload.FeedAllFollows` | src/upload.rs:37-70 | After every symbol, what was decoded so far is the decoding of the groups so far, and an early error rules out every input that continues and fits |
| `Upload.NoLimitAtMax` | src/upload.rs:30-66 | With the limit at the largest `usize` every encoding is decoded, of however many bytes: the saturating counters cannot pass it |
| `Upload.WriteMultipartFile` | src/upload.rs:17-96 | For every cutting into chunks the result depends only on the concatenated body without white space; the raw branch returns the body if it fits the limit |
| `Upload.OnlyBlanksAreStripped` | src/upload.rs:37-42 | Tab, line feed, form feed, carriage return and space are skipped wherever they stand, and no other byte is |
| `Upload.EncodingHasNoBlanks` | src/upload.rs:37-42 | No text that decodes has one of these in it, so skipping them loses nothing |
| `Upload.DecodeChunk` | src/upload.rs:37-70 | One chunk, byte by byte with the pending group and counters, does what feeding its symbols to the decoder does |
| `ClientIp.EffectiveIp` | src/client_ip.rs:5-31 | The loop from the right returns the rightmost untrusted address of the chain and the peer, the leftmost if all are trusted, and refuses malformed or overlong chains |
| `ClientIp.RightmostIsUnique` | src/client_ip.rs:21-30 | That address is determined by being untrusted with only trusted ones to its right |
| `ClientIp.LeftEntriesDoNotMatter` | src/client_ip.rs:12-31 | Whatever stands left of an untrusted entry does not change the result while the header stays valid and within limits |
| `ClientIp.MappedFormIsTheSame` | src/client_ip.rs:51-56 | Mapped IPv4 addresses (section 2.5.5.2 of RFC 4291) behave as their IPv4 form, as peer, in the header and for networks |
| `ClientIp.TrustedOnlyIfAllAre` | src/client_ip.rs:12-31 | A trusted address is returned only if the peer and every entry are trusted |
| `ClientIp.AllTrustedGivesFirst` | src/client_ip.rs:23-30 | If peer and all fields are trusted the result is the header's first field |
| `ClientIp.ContainsIff` | src/client_ip.rs:12 | An address block is the range of addresses from its base with the last bits cleared |
| `ClientIp.ListsAddUp` | src/client_ip.rs:33-36 | An empty list allows every address, any other list what its blocks contain |
| `Keys.AcceptedKeyIsValid` | src/galaxy.rs:255-265 | Names and versions that the archive check accepts (items 2, 9 and 10 of SemVer 2.0.0) pass the key check of the storage |
| `Keys.VersionIsPart` | src/storage.rs:921-933 | In particular every accepted version is within the length, alphabet and dots of a key part |
| `Keys.RecordKeysAreInjective` | src/storage.rs:149-158 | S3 record keys of different valid keys differ, and none equals a legacy record key |
| `Keys.LocalPathsCollide` | src/storage.rs:103-108 | On local disk the path of a key is shared with another valid key if and only if exactly one of namespace and name is a single dot |
| `Keys.RecordPathMayBeDirIff` | src/storage.rs:859-864 | Some valid key has a directory at the path of this key's record if and only if the namespace or the collection name of this key is a single dot and its file name could itself be a name |
| `Keys.RecordPathStaysBelow` | src/storage.rs:103-108 | For a valid key a walk from the root along the components of its record path never goes above the root, and ends inside of the directory `records` at the record path |
| `Keys.NameIff` | src/galaxy.rs:255-261 | Names are exactly the valid key parts without a plus |
| `Keys.SemVerIff` | src/galaxy.rs:263-265 | The cuts and splits accept exactly what the grammar of SemVer 2.0.0 spells: three numbers without leading zeros within 64 bits, identifiers after a dash, identifiers after a plus |
| `Keys.SamePathSameKey` | src/storage.rs:103-108 | Where not exactly one name is a single dot, equal paths mean equal keys |
| `Keys.LegacyPathIff` | src/storage.rs:103-117 | A structured path equals a legacy one if and only if both names are single dots and the version is the legacy name |
| `Keys.SamePathIff` | src/storage.rs:103-108 | Two keys have the same structured path if and only if they are equal, or one is the other with namespace and name exchanged and exactly one of these is a single dot |
| `Keys.SameLegacyName` | src/storage.rs:113-117 | Two keys have the same legacy place, on either backend, if and only if they are the same text with dashes between the parts |
| `Keys.LegacyNamesCollide` | src/storage.rs:113-117 | Such keys exist: legacy names are not injective on valid keys |
| `RecordLookup.ObjectLookupIsExact` | src/storage.rs:333-383 | On S3, over stores with structured and legacy records: a lookup returns a record if and only if it is the structured one of the key, or the legacy one and there is no structured one; it reports a mismatch if and only if the key is unpublished and its legacy name belongs to another key; it reports a missing record if and only if nobody has either place |
| `RecordLookup.FileLookupIsExact` | src/storage.rs:772-800 | The same on local disk, with exactly the single-dot names that let another record stand at one of the two paths |
| `RecordLookup.LookupIsExact` | src/storage.rs:772-800 | For any places, the outcome of a lookup by who owns its two places; a store without damaged records yields no other error than these and failed reads |
| `RecordLookup.LookupByPlace` | src/storage.rs:772-800 | Whatever is stored, damaged or oversized: each outcome of a lookup by what is read at the place that decides, the legacy one only if there is nothing at the structured one |
| `RecordLookup.UnpublishedIsNotFound` | src/storage.rs:772-800 | On local disk a lookup reports a missing record if and only if the key is unpublished, no other record stands at its structured or legacy path, and both can be read |
| `Storage.OnlyRecordsAreJson` | src/storage.rs:956-957 | Record files are read by the scan and leftover temporary files are not |
| `Storage.IsJsonIff` | src/storage.rs:956-957 | The scan takes for record files exactly the names that are something followed by `.json` |
| `Storage.TemporariesAreInvisible` | src/storage.rs:949-969 | Removing all temporary files from a record tree changes nothing that the scan sees |
| `Storage.ReadRecords` | src/storage.rs:949-969 | The scan with its list of pending directories returns each readable record of the tree as often as it is there, and fails exactly if one is oversized or malformed |
| `Storage.OthersSurvive` | src/storage.rs:736-768 | Without its orphans a store holds exactly the artifacts that are referenced or not older than the cutoff |
| `Storage.ArtifactStore.Reconcile` | src/storage.rs:736-768 | Local reconciliation removes exactly the orphans of the listing, or up to a failed removal those before it |
| `Storage.ArtifactStore.ReconcilePages` | src/storage.rs:568-613 | So does the S3 loop over pages, for any division into pages; at a failed page request or removal exactly the orphans before it are gone |
| `Archive.ManifestBindsContents` | src/galaxy.rs:65-149 | If no two files of two accepted archives collide under the hash, equal manifests mean the same file names, decoded and trimmed as the check does, with the same contents |
| `Archive.SamePathsIff` | src/galaxy.rs:90-104 | Then the archives also have the same files under the same path bytes if and only if decoding and trimming identify no two different paths of the two archives |
| `Archive.RenamedIsAccepted` | src/galaxy.rs:90-104 | An accepted archive stays accepted under its manifest when a path is replaced by any safe path that decodes alike |
| `Archive.PathsMayDiffer` | src/galaxy.rs:101-104 | Two accepted archives with one manifest that hold a file named FF and a file named FE, both known as U+FFFD |
| `Archive.InspectArchive` | src/galaxy.rs:55-149 | An archive is accepted exactly if its entries, manifest, file list, digests and names are as demanded; the result is the manifest's metadata; unpacked below a directory no step on the way to any entry of an accepted archive is above that directory |
| `Archive.ReadEntries` | src/galaxy.rs:72-117 | The entry loop accepts exactly bounded, safe, duplicate-free entries and collects the regular files and their digests; no path that it accepts leads above the start |
| `Archive.SafePathIff` | src/galaxy.rs:86-93 | A path is refused as unsafe exactly if it begins with a slash or has two dots as a component between slashes or its ends |
| `Archive.SafeStaysBelow` | src/galaxy.rs:86-93 | A walk along a safe path, in which two dots lead up, never leaves the directory it starts from and ends at the path's named components |
| `Archive.NormalizedIff` | src/galaxy.rs:95-98 | The name of an entry is its path without all leading `./`, and without anything else |
| `Archive.ValidateFiles` | src/galaxy.rs:209-254 | The file list is accepted exactly if it has the manifest's digest and names every other regular file once with its digest and nothing else |
| `Archive.Preflight` | src/galaxy.rs:151-207 | The scan of raw entries accepts exactly within the entry, extension and total limits and without a pax size line |
| `Archive.CaughtIff` | src/galaxy.rs:175-184 | The scan refuses well-formed pax records (pax utility of IEEE Std 1003.1) if and only if one has the key `size`, or a value with a line after its first that looks like such a record |
| `Archive.SizeOverrideIsCaught` | src/galaxy.rs:175-184 | In particular it refuses every sequence of records with the key `size` in it, whatever line ends the values before it hold |
| `Archive.CommentMayBeCaught` | src/galaxy.rs:175-184 | It may refuse another key: the comment `13 c=`, line end, ` size=`, line end, is well formed and refused |
| `Pages.ListCollectionRecords` | src/app.rs:1648-1680 | The filters, the sort, the clamped limit, the saturating offset and the checked next offset give the page of the filtered listing |
| `Pages.WalkVisitsAll` | src/app.rs:1671-1696 | Following the next links from the first page yields every matching record exactly as often as the catalog has it, in order, and nothing else |
| `Pages.WalkYieldsTheRest` | src/app.rs:1671-1696 | From any offset they yield the rest of the listing |
| `Pages.PagesTile` | src/app.rs:1671-1674 | The pages asked for by number lie side by side from the start of the listing |
| `Pages.OtherPages` | src/app.rs:1671-1674 | No page and page 0 are page 1, and an offset takes the place of any page |
| `Pages.ListedInOrder` | src/app.rs:1663-1669 | No record is listed after one that is greater by namespace, then name, then version |
| `Pages.SearchIff` | src/app.rs:1655-1662 | A search finds the records with its text somewhere in `namespace.name`, in whatever case |
| `Pages.ListingIsCanonical` | src/app.rs:1663-1669 | The listing does not depend on the order of the catalog, so links stay meaningful over restarts |
| `Pages.NextListing` | src/app.rs:1682-1697 | The next link keeps filters and limit and moves the offset on by the limit |

## Left out

- PublicationSafety.RecordsAreSound: process crashes only; power loss is not modelled, since `artifacts/` is synced after the record directory.
- PublicationSafety.OneWinner: counts structured records only, because publishing never looks at legacy record paths; legacy records appear only in the lookup (RecordLookup), not in the publication machine.
- PublicationSafety.CatalogIsComplete: assumes that startup found no legacy records.
- SessionsSafety.GrantedIsFresh: the age of a check counts from when its outcome was recorded; the provider's answer came earlier, by as long as the code waited for the gate in between.
- Worker.Process.Start: all records are listed in one step, which nobody disturbs at startup; that the listing is complete is proved from what the storage shows (StartFromFiles, StartFromObjects), and S3 is taken to show each object once. Stored tasks that cannot be decoded are skipped by the code and are not in the model.
- Worker.Process.GetArtifact: works on the publication machine, in which nobody has written legacy records; at a legacy place it meets only published records. See RecordLookup for stores with legacy records.
- RecordLookup.LookupIsExact: records that were damaged or grew too large in storage are not in the store that it speaks of; a lookup that meets one reports it.
- Worker.Process.RememberTask: the bound on the cache over a whole run is not stated, and neither is SessionGate.AppState.MakeRoom's for the session table.
- SessionGate.AppState.RememberSessionIfCurrent: a session id that was used before does not occur; with one, the method gives up.
- S3 requests that take effect after the process that sent them has crashed and the next one has listed the records, and retries inside the AWS client: each put is one attempt that ends before its publisher goes on or dies.
- Two processes on one storage: the local process lock is not part of this model.
- Publishing from memory (`publish`, `publish_sync`): the same protocol as from a file, which is what uploads use.
- OIDC logins before the token exchange: the pending map, cookies, state and nonce checks; ID token validation is a login that may fail.
- Login rate limits, password checks, the limits on concurrent logins, refreshes and uploads: they only delay or refuse.
- Wrap-around of the 64-bit generation and of expiry times, and the page number in listings, which overflows for the largest offsets.
- Read access by namespace and token before a listing, and record dependencies: single comparisons that add no hard claim.
- Routing, multipart framing, headers, HTML, metrics, readiness, logging and configuration checks, apart from the positive refresh interval.
