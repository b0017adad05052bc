# Verified model of the kube-applier core

kube-applier moves desires (what should be applied to, deleted from or read from a cluster) and their
status through DynamoDB tables. This project models the parts of it whose correctness is not visible
from any single function, and proves what they promise:

* **The two-speed watcher** (`StubCache`, `LookbackWindows`, `TwoSpeed`, `Items`, `Doorbell`, `Watcher`,
  `PassesAreRuns`, `PassesInTime`, `Watching`). A relist thread scans the whole table; a fast poll queries a time index over an
  expanding window. Both update one cache and emit change events. `TwoSpeed` follows both
  threads through time, with writes landing inside every read, and shows what the cache knows of the table.
  `Doorbell` lets the two threads interleave at every lock boundary and shows what the emitted events
  say about the cache. `Watcher` holds the passes as methods; `PassesAreRuns` and `PassesInTime` tie
  them to `Doorbell` and `TwoSpeed`, and `Watching` joins the two: the consumer agrees with the table.
* **The sharded index** (`Shard`, `ByteOrder`, `Gsi`, `Rfc3339`, `TextIndex`, `IndexedDesires`). Sharded, paginated queries are one
  filter; batch gets with retries answer every key within bounded waits; and the byte order of RFC 3339
  texts (section 5.1 of RFC 3339) is compared with chronological order exactly.
* **Status storage** (`Codec`, `Store`, `NoLostUpdate`, `Conditions`, `StatusWriter`, `DeletePass`,
  `ApplyDesire`, `ApplyStatus`, `Mirror`). The document codec round trip, the version-conditional store and the
  in-memory store that stands for it in unit tests, concurrent writers, the read-mutate-replace status
  writer, and the reconcile passes that drive it against a cluster which may change between any two calls.
* **The ReadDesire manager** (`Manager`, `ManagerMethods`, `StatusRecord`). Workers, the delete handler and shutdown share
  a map of running instances and stop them concurrently.
* **The cooldown gate** (`Cooldown`, `CooldownSteps`), over its bounded LRU cache, for one caller and for many.

Code that changes state in place is a class with the source's fields, each method proved against a
function or a predicate on the old and the new state; interleavings are state machines whose steps are cut at
the source's lock boundaries, and the theorems quantify over all their runs. Service calls, the cluster and the
factory are methods that may answer anything their contract allows, or parameters. A service that is `up`
(and a cluster that is `calm`) answers every call; the contracts say what then must succeed.

## Hypotheses and findings

Some claims one would like to make do not hold of the code. Each is proved in its exact form, with a run
that shows why.

* A write between a scan and the relist stamp (watcher.go:219-234, cache.go:78-79) is seen neither by
  the scan nor by the next poll: `TwoSpeed.BlindStretchRun`. Exactly such documents stay wrong until they
  are written again or the next relist: `TwoSpeed.CacheIsRightExactlyOutsideTheBlindStretch`.
* A poll that fetched before a relist scanned, and updates the cache after it, puts older stamps back, and
  the next poll does not look that far: `TwoSpeed.OverlapRun`. For the ids it fetched, and only for these,
  the blind stretch begins at that batch get.
* `TwoSpeed` assumes one clock. The delay between the clock read of a writer and the effect of its write
  (`delay`), between the two clock reads of a poll (`drift`), the instants by which an index comparison may
  err (`slack`) and the age of eventually consistent answers (`lag`) are parameters; polls further apart
  than the cap lift the promise for newer writes until the next relist. Slack and delay cost documents, too:
  `TwoSpeed.WriteAfterTheRelistIsMissed`.
* Overlapping passes can deliver in the other order than they updated the cache and leave the consumer
  with an older version: `Doorbell.ConsumerCanFallBehind`. It takes two emit loops that hold one id with
  different contents, and then some order of delivery always ends wrong:
  `Doorbell.EveryOrderEndsRightExactlyWithoutConflict`. The doorbell property holds always.
* Text comparison in the index reverses some pairs of times within one second
  (`Rfc3339.ByteOrderCharacterised`), so a poll can miss an item that is less than a second newer than
  the start of its window: `Rfc3339.WholeSecondLosesItsFractions`.
* Delete followed by Create starts again at version 1, so a copy read before the deletion can overwrite the new
  document: `NoLostUpdate.UpdateLostAcrossIncarnations`.
* A mirrored object whose JSON does not survive re-encoding is written again on every pass:
  `StatusWriter.UnsettledTextIsWrittenEveryTime`.
* The manager's delete handler does not always end a deleted desire. It builds its key without the node pool
  (read_desire_manager/controller.go:207) and so misses desires that have one (`NodePoolIsMissed`); a worker
  past its look at the map can insert the desire after the handler's claim, before the handler returns
  (`WorkerInFlightInsertsAgain`), after it (`WorkerInsertsAfterTheReturn`) or for the first time
  (`FirstStartComesLater`); and another thread may still be stopping an older instance
  (`OtherStopperIsStillAtIt`). `Manager.DeleteHandlerEndsTheDesireExactly` is the exact condition at any
  later state, `Manager.QuietDesireEndsForGood` one that can be checked at the claim.
* The handler deletes the status record before it stops the instance, whose mirror passes can create it again
  for good: `StatusRecord.MirrorPassBringsTheRecordBack`. `StatusRecord.RecordStaysGoneExactly` says when not.
* FakeCRUD stands for the DynamoDB store exactly as long as objects can be encoded and a Replace keeps the
  stored create time: `Store.FakeSimulatesDynamo`, with the divergences in `UnencodableObjectsDiverge` and
  `CreateTimesDiverge`. Replace and Delete of a missing document are answered in other words.
* The cooldown forgets a key after as many distinct other keys as its LRU cache holds:
  `Cooldown.GrantedExactly`. It looks and stamps in two locked steps, so overlapping calls of one key can
  both be granted although cooldown.go:16-18 asks for safety under concurrent calls:
  `CooldownSteps.TwoCallersAreBothGranted`.

Where code and documentation disagree, the model follows the code:

* docs/read-desire-controller.md says a Delete event is enqueued and the sync stops the instance; the delete handler
  removes the status record and stops the instance itself.
* The comment at desirestatuswriter.go:60-62 says a conflict returns nil, and docs/architecture.md says the
  status writer retries with a fresh read; the code returns the error and writes once.
* The comment on Watcher.Run says the first relist completes before the fast poll starts; the code starts
  both loops together (watcher.go:164-172), so `Doorbell` lets the poll go first.
* docs/apply-desire-controller.md says client-side failures leave Degraded absent; the code records
  Degraded=False.

## Model

| member | source | states |
|---|---|---|
| `StubCache.Cache.FindChanged` | seaplane-dynamo/dynamodb/cache.go:25-37 | Lists, each once, exactly the ids that are missing from the cache or cached with another update time, so an unchanged id is left out; the cache is not changed |
| `StubCache.Cache.ApplyStubs` | seaplane-dynamo/dynamodb/cache.go:42-48 | Overlays the cache with the stubs: present entries are replaced, absent ones added, none removed |
| `StubCache.Cache.ApplyRelist` | seaplane-dynamo/dynamodb/cache.go:54-81 | The three lists are exactly the ids that are new, cached with another update time, and gone, each id once, so an unchanged id is in none; the cache becomes the stubs and the relist time is recorded |
| `StubCache.Cache.EffectiveLookback` | seaplane-dynamo/dynamodb/cache.go:90-102 | The whole cap before the first relist; afterwards the window starts at the later of the last relist and cap before now |
| `LookbackWindows.Options.PollInterval` | seaplane-dynamo/dynamodb/watcher.go:56-61 | A positive configured value is kept, anything else gives the default of 15 s |
| `LookbackWindows.Options.RelistInterval` | seaplane-dynamo/dynamodb/watcher.go:63-68 | A positive configured value is kept, anything else gives the default of 5 min |
| `LookbackWindows.Options.MaxLookbackWindow` | seaplane-dynamo/dynamodb/watcher.go:70-76 | A configured value above zero and not above the relist interval is kept, anything else gives exactly the relist interval |
| `LookbackWindows.Options.ShardCount` | seaplane-dynamo/dynamodb/watcher.go:78-83 | A positive configured value is kept, anything else gives GSIShardCount |
| `LookbackWindows.WindowsLeaveNoHole` | seaplane-dynamo/dynamodb/cache.go:90-102 | After a relist, the windows of successive polls cover every instant from the relist stamp to the latest poll if and only if the polls are spaced at most the cap apart (adjacent nanoseconds meet); no window exceeds the cap or reaches before the relist |
| `LookbackWindows.WideGapIsAHole` | seaplane-dynamo/dynamodb/cache.go:90-102 | A gap wider than the cap always leaves an instant that no window covers |
| `TwoSpeed.TwoSpeedRefinesScanning` | seaplane-dynamo/dynamodb/watcher.go:217-330 | In every state of every run in which relists, polls, failures, creates, updates and deletes interleave, with overlapping passes, index and batch reads up to a lag old and writers up to a delay slow: after a relist, the cache holds the right stamp of every live document whose latest write was seen by the read behind its own entry (the scan, or a later batch get); while polls keep up with the cap, also of every other live document written by the instant up to which passes have read, except one written between that read and the relist stamp plus drift and slack; every surplus cached id was deleted since it was read |
| `TwoSpeed.StepKeepsInv` | seaplane-dynamo/dynamodb/watcher.go:217-330 | Every step of either goroutine, and every write inside a scan, query or batch get, keeps the invariant behind the refinement |
| `TwoSpeed.CacheIsRightExactlyOutsideTheBlindStretch` | seaplane-dynamo/dynamodb/watcher.go:217-234 | With instantaneous reads and writes, in any interleaving of the two goroutines: a live document is right in the cache if and only if its latest write is not newer than the read behind its entry; while polls keep up, if and only if it was not written between that read and the stamp set at cache.go:78-79 |
| `TwoSpeed.BlindStretchRun` | seaplane-dynamo/dynamodb/cache.go:78-79 | A concrete run in which such a document is missed by the relist and by the next poll |
| `TwoSpeed.OverlapRun` | seaplane-dynamo/dynamodb/watcher.go:294-319 | A concrete run of overlapping passes: a poll that fetched before a relist scanned puts an older stamp back after it, and the next poll does not notice |
| `TwoSpeed.WriteAfterTheRelistIsMissed` | seaplane-dynamo/dynamodb/watcher.go:278-289 | A run, for every slack and delay that leave room for it, in which a write that takes effect after the relist but is stamped less than the slack after its stamp, or before it, is missed by the relist and the next poll |
| `Doorbell.NoLostDoorbell` | seaplane-dynamo/dynamodb/watcher.go:225-251 | In every interleaving of relist and poll steps, an id whose cache entry changed and for which nothing was emitted since is still pending in one of the two emit loops |
| `Doorbell.EveryChangeIsRung` | seaplane-dynamo/dynamodb/watcher.go:309-329 | When no emits are pending, every id whose cache entry ever changed was emitted after that change |
| `Doorbell.ReplayEqualsCacheWithoutConflicts` | seaplane-dynamo/dynamodb/watcher.go:225-251 | In any interleaving in which the two emit loops never hold an id with different contents, replaying all emits gives exactly the cached update time of that id |
| `Doorbell.ReplayEqualsCache` | seaplane-dynamo/dynamodb/watcher.go:294-329 | With non-overlapping passes, even over stale reads, the replayed emits equal the cache for every id |
| `Doorbell.EveryOrderEndsRightExactlyWithoutConflict` | seaplane-dynamo/dynamodb/watcher.go:309-329 | In a run without a conflict so far, every order of delivering what is pending leaves the consumer with the cached update time if and only if the two emit loops do not now hold the id with different contents |
| `Doorbell.InStepExactly` | seaplane-dynamo/dynamodb/watcher.go:138-142 | In any state, every order of delivery ends right if and only if each emit loop that holds the id ends with the cached update time, and the consumer has it already when neither does |
| `Doorbell.SomeOrderEndsWrong` | seaplane-dynamo/dynamodb/watcher.go:309-329 | Otherwise some order of delivery ends in a consumer that disagrees with the cache |
| `Doorbell.ConsumerCanFallBehind` | seaplane-dynamo/dynamodb/watcher.go:234-251 | Such a disagreement is reached from the start, so replay equality fails for overlapping passes |
| `Doorbell.PendingUntilRung` | seaplane-dynamo/dynamodb/watcher.go:138-142 | A pending id stays pending until a single emit delivers it |
| `Items.ViewOfAnnounce` | seaplane-dynamo/dynamodb/watcher.go:240-250 | Replaying one emit per id (the item, or nil when there is none) leaves each listed id with the update time of its document and mentions no other id |
| `Items.ExtractsExactly` | seaplane-dynamo/dynamodb/gsi.go:185-210 | An id and a time are read exactly from a string documentID and a parseable string updateTime |
| `Watcher.Watcher.Emit` | seaplane-dynamo/dynamodb/watcher.go:138-142 | Appends exactly one event |
| `Watcher.Watcher.EmitAll` | seaplane-dynamo/dynamodb/watcher.go:240-250 | Emits one event per id in order, nil when the document is absent |
| `Watcher.Watcher.EmitDiff` | seaplane-dynamo/dynamodb/watcher.go:240-250 | Emits the added, then the modified, then the deleted ids |
| `Watcher.Watcher.EmitFetched` | seaplane-dynamo/dynamodb/watcher.go:321-329 | Emits each fetched document once and skips ids absent from the batch get |
| `Watcher.Watcher.RunRelist` | seaplane-dynamo/dynamodb/watcher.go:217-252 | A failed scan changes nothing; otherwise the cache holds the update times of the readable documents, exactly the ids whose entry changed are reported, once each, with the whole document or with nil when it is gone, and replay of all emits still equals the cache; no failure while the service is up |
| `Watcher.Watcher.QueryWindow` | seaplane-dynamo/dynamodb/watcher.go:278-289 | The query begins at the cap before the second clock reading when there was no relist, and otherwise at the later of relist stamp and cap before the first reading, moved by the drift between the readings; it covers all configured buckets |
| `Watcher.Watcher.DeliverChanged` | seaplane-dynamo/dynamodb/watcher.go:294-329 | The batch get asks for exactly the found ids with another than the cached time; those that can be read are reported, once each and with the whole document, and their entries get the time of what was read; nothing else changes |
| `Watcher.Watcher.RunFastPoll` | seaplane-dynamo/dynamodb/watcher.go:277-330 | The whole poll: the window of QueryWindow, then DeliverChanged on what it found; a failed query or batch get changes nothing; replay still equals the cache |
| `Watcher.NoNewsIsQuiet` | seaplane-dynamo/dynamodb/watcher.go:291-297 | A relist of a table that the cache already shows reports nothing, and a poll that finds only what the cache holds reports nothing and leaves the cache alone |
| `Watcher.WholeDocumentsFollowTheTable` | seaplane-dynamo/dynamodb/watcher.go:240-250 | Where one id and update time stand for one document, a consumer that replays whole documents holds exactly the readable documents of the table after every relist |
| `PassesAreRuns.RelistPassIsARun` | seaplane-dynamo/dynamodb/watcher.go:217-252 | What RunRelist does to cache and emits is a run of the two-thread machine from scan to idle |
| `PassesAreRuns.PollPassIsARun` | seaplane-dynamo/dynamodb/watcher.go:277-330 | What RunFastPoll does is a run of the two-thread machine from query to idle |
| `PassesInTime.RelistPassTakesPlace` | seaplane-dynamo/dynamodb/watcher.go:217-252 | What RunRelist does over a table is a relist of the time model, from the begin of the scan to the stamp |
| `PassesInTime.PollPassTakesPlace` | seaplane-dynamo/dynamodb/watcher.go:277-330 | What RunFastPoll does over a table and its index with RFC 3339 text is a poll of the time model with a slack of one second |
| `Watching.ConsumerAgreesWithTheTable` | seaplane-dynamo/dynamodb/watcher.go:138-142 | In any interleaving: once everything is delivered and the emit loops never held the id with different contents, a consumer that replays the emits holds the stamp of the table for every document outside its blind stretch, and whatever else it holds was deleted since it was read |
| `Watching.PassesShowTheTable` | seaplane-dynamo/dynamodb/watcher.go:217-330 | The same after every pass and write of any sequence of whole RunRelist and RunFastPoll passes over RFC 3339 text, from the first relist on |
| `Watching.Relist` | seaplane-dynamo/dynamodb/watcher.go:217-252 | RunRelist makes a relist move of the joined model: cache, stamp and emits afterwards are those of the move |
| `Watching.Poll` | seaplane-dynamo/dynamodb/watcher.go:277-330 | RunFastPoll with RFC 3339 text makes a poll move: it queries exactly from where the time model says, as derived from its window |
| `Shard.ShardIsOneOfTheBuckets` | seaplane-dynamo/dynamodb/shard.go:17-30 | Every document id lies in exactly one of the buckets 0 to n-1 |
| `Shard.DecimalIsInjective` | seaplane-dynamo/dynamodb/shard.go:29 | Two bucket names are equal only for equal numbers |
| `Shard.BucketsReachEveryDocument` | seaplane-dynamo/dynamodb/shard.go:17-35 | Querying the buckets 0 to n-1 reaches every document if and only if n is at least GSIShardCount |
| `Shard.ShardIsTheHexValue` | seaplane-dynamo/dynamodb/shard.go:21-29 | The bucket of an id that begins with eight hex digits, of either case, is their positional value modulo the shard count |
| `Shard.HyphensDoNotCount` | seaplane-dynamo/dynamodb/shard.go:21 | A hyphen anywhere in an id leaves its bucket as it is |
| `Shard.OtherIdsGoToBucketZero` | seaplane-dynamo/dynamodb/shard.go:22-28 | An id with fewer than eight characters besides hyphens, or another character than a hex digit among the first eight, goes to bucket 0 |
| `Gsi.ShardedQueryIsOneFilter` | seaplane-dynamo/dynamodb/gsi.go:21-107 | With items stored under their own bucket and all buckets queried, the sharded query finds exactly the readable items whose update time does not sort before since, the boundary included, with their times; each item is found in one shard only |
| `Gsi.QuerySince` | seaplane-dynamo/dynamodb/gsi.go:21-107 | For every page size and every order in which the shards merge their pages, a successful query is exactly the readable matching items of all shards; a failed shard fails the query, and without a failed call it succeeds |
| `Gsi.ScanAll` | seaplane-dynamo/dynamodb/scan.go:19-53 | For every page size the scan returns exactly the readable items of the table, each as stored |
| `Gsi.MergeItems` | seaplane-dynamo/dynamodb/gsi.go:161-167 | Merges a page into the results, skipping items the extractor cannot read |
| `Gsi.MergeStubs` | seaplane-dynamo/dynamodb/gsi.go:90-98 | Merges the stubs of a page into the shared results, skipping items the extractor cannot read |
| `Gsi.FetchChunk` | seaplane-dynamo/dynamodb/gsi.go:142-178 | One chunk with retries: answered and remaining keys always make up the chunk; success if and only if nothing is left unprocessed and no call failed; at most ten calls with bounded waits |
| `Gsi.Wait` | seaplane-dynamo/dynamodb/gsi.go:150-157 | Each wait is the backoff in force: 50 ms first, then doubled while below two seconds |
| `Gsi.WaitsAreBounded` | seaplane-dynamo/dynamodb/gsi.go:142-157 | No wait exceeds 3.2 s and ten attempts wait exactly 12.75 s |
| `Gsi.BatchGetItems` | seaplane-dynamo/dynamodb/gsi.go:119-181 | The chunks cut the id list in order into blocks of 100, the last possibly shorter; success returns exactly the readable documents of all requested ids; failure if and only if a chunk failed |
| `TextIndex.TextQueryHasASecondOfSlack` | seaplane-dynamo/dynamodb/gsi.go:28-31 | A sharded text query finds every document whose update time is at least one second after since, so the time model applies with a slack of one second |
| `IndexedDesires.EncodedDesiresAreIndexed` | internal/database/crud.go:64-90 | Desires as crud.go encodes them form such an index: each item in its own bucket, with its update time as RFC 3339 text, and the extractor reads back id and time |
| `Rfc3339.ByteOrderCharacterised` | seaplane-dynamo/dynamodb/gsi.go:73 | Byte order of the stored texts is chronological order, reversed exactly when two times share a second and one fraction text is a proper prefix of the other |
| `Rfc3339.WhatTheIndexLoses` | seaplane-dynamo/dynamodb/gsi.go:28-31 | updateTime >= since loses a not older item if and only if both share a second and the fraction of since is a proper prefix of the fraction of the item; never one of a later second |
| `Rfc3339.WholeSecondLosesItsFractions` | seaplane-dynamo/dynamodb/gsi.go:28-31 | The loss occurs: since on a whole second loses every item later in that second |
| `Rfc3339.FormatOrderBySecond` | seaplane-dynamo/dynamodb/gsi.go:31 | Texts of different seconds order as the seconds do; within a second the fraction texts decide |
| `Rfc3339.EarlierSecondIsChronological` | seaplane-dynamo/dynamodb/gsi.go:31 | Comparing calendar fields from year to second is comparing elapsed seconds, leap years included |
| `Rfc3339.FractionOrder` | seaplane-dynamo/dynamodb/gsi.go:31 | Within a second the smaller fraction sorts first unless its text is a proper prefix of the larger one |
| `Rfc3339.FormatLayout` | seaplane-dynamo/dynamodb/gsi.go:31 | The text is year, month and day, T, hour, minute and second with their separators, then the fraction after a point, or none, and Z |
| `Rfc3339.DigitsValue` | seaplane-dynamo/dynamodb/gsi.go:31 | The digits of a field are its decimal digits |
| `Codec.DesireToItem` | internal/database/crud.go:68-90 | Filling the item step by step gives the encoding used by the round trip |
| `Codec.ItemToDesire` | internal/database/crud.go:42-62 | Reading an item field by field, a missing attribute leaving the zero value, gives the decoding used by the round trip |
| `Codec.RoundTrip` | internal/database/crud.go:42-90 | Encoding succeeds if and only if each kubeContent is absent, empty or valid JSON; decoding gives the desire back with kubeContent re-encoded, and a second write and read changes nothing |
| `Codec.SettledDesiresAreKept` | internal/database/rawext_codec.go:31-58 | A desire whose kubeContent is absent or already in re-encoded form comes back unchanged |
| `Codec.AddedAttributesAreNew` | internal/database/rawext_codec.go:60-84 | documentID, shard and the kubeContent attributes never overwrite a struct attribute, and carry the id and its bucket |
| `Codec.EncodedAttributes` | internal/database/crud.go:68-90 | The attributes of an encoded desire by name, with kubeContent as it is re-encoded |
| `Codec.DecodesByAttribute` | internal/database/crud.go:42-62 | A missing attribute leaves the zero value; reading fails exactly for an attribute of another kind or stored kubeContent that is not JSON |
| `Codec.NormalExactly` | internal/database/rawext_codec.go:31-58 | What can be encoded, and what a store keeps of it: everything but the spelling of kubeContent, and none for empty content |
| `Store.DynamoTable.Create` | internal/database/crud.go:188-222 | Either the service failed and nothing changed, or the outcome and the new store are those of the specification: refused for an empty id, content that is not JSON or a present id, else version 1 and both times now |
| `Store.DynamoTable.Replace` | internal/database/crud.go:224-257 | Either the service failed and nothing changed, or written as the next version exactly when the stored version is the expected one, the returned object keeping the caller's content |
| `Store.DynamoTable.Delete` | internal/database/crud.go:259-270 | The id is gone afterwards, whether or not it was there, or the service failed and nothing changed |
| `Store.DynamoTable.Get` | internal/database/crud.go:149-164 | What is read is the decoding of what was last written, or NotFound |
| `Store.CreateIsRead` | internal/database/crud.go:188-222 | Create succeeds exactly for a new non-empty id and encodable content; then the id reads back with version 1 and both times set, every other id as before; each refusal has its own cause and changes nothing |
| `Store.ReplaceIsRead` | internal/database/crud.go:224-257 | Replace succeeds exactly for encodable content at the stored version; then the id reads back with the next version and the new update time, every other id as before; refusals change nothing |
| `Store.DynamoTable.PutIfAbsent` | internal/database/crud.go:206-219 | Conditional put that writes only when the key is absent |
| `Store.DynamoTable.PutIfVersion` | internal/database/crud.go:237-255 | Conditional put that writes only when the stored version attribute is the expected one |
| `Store.HoldsIsRead` | internal/database/crud.go:42-62 | The item kept for a document decodes to it and carries its version attribute |
| `Store.WrittenIsHeld` | internal/database/crud.go:68-90 | What a write puts in the table reads back as the document with kubeContent re-encoded |
| `Store.FakeCRUD.NextSeq` | internal/database/listertesting/fake_crud.go:39-42 | Each call returns a new, larger counter value |
| `Store.FakeCRUD.Create` | internal/database/listertesting/fake_crud.go:73-92 | Outcome and state of the in-memory specification: version 1, both times from the counter |
| `Store.FakeCRUD.Replace` | internal/database/listertesting/fake_crud.go:94-115 | NotFound for a missing id, PreconditionFailed for another version, else the next version with the stored create time |
| `Store.FakeCRUD.Delete` | internal/database/listertesting/fake_crud.go:117-126 | NotFound for a missing id, else removed |
| `Store.FakeCRUD.Get` | internal/database/listertesting/fake_crud.go:48-56 | The stored document or NotFound; nothing changes |
| `Store.FakeWritesAreRead` | internal/database/listertesting/fake_crud.go:73-115 | The same for Create and Replace of the in-memory store, with its own refusals and the stored create time on Replace |
| `Store.FakeSimulatesDynamo` | internal/database/listertesting/fake_crud.go:73-126 | On any sequence of the same calls both stores hold the same ids, versions and contents and answer alike after every call (up to kubeContent re-encoding and the clock) if and only if every call is supported: its object can be encoded (or lacks an id), and a Replace of the stored version keeps the stored create time; Replace and Delete of a missing document count as alike although the answers differ in words |
| `Store.StepSimulates` | internal/database/listertesting/fake_crud.go:73-126 | One supported call keeps the simulation, for each of the four operations |
| `Store.StepSimulatesExactly` | internal/database/listertesting/fake_crud.go:73-126 | For one call: the stores agree afterwards under some pairing of clocks if and only if the call is supported |
| `Store.CreateTimesDiverge` | internal/database/crud.go:229-232 | A Replace of the stored version with another create time: the DynamoDB store keeps the one of the caller, the in-memory store its own, and no pairing of clocks makes them agree |
| `Store.MissingDocumentsChangeNothing` | internal/database/crud.go:224-270 | Replace or Delete of a document is answered NotFound by the in-memory store exactly when it is missing; then neither store changes and the DynamoDB store answers PreconditionFailed or success |
| `Store.UnencodableObjectsDiverge` | internal/database/crud.go:203-206 | Create or Replace of an object that cannot be encoded, over a present or a missing id: the DynamoDB store refuses it before it looks at the id and keeps its state, the in-memory store never refuses it for that, and they do not agree |
| `NoLostUpdate.VersionsCountTheWrites` | internal/database/crud.go:188-257 | In every interleaving of writers, the successful writes of one incarnation carry versions 1, 2, 3, ... without gap or repeat, and the last is what is stored |
| `NoLostUpdate.SuccessfulReplaceBuildsOnTheLastWrite` | internal/database/crud.go:224-257 | A successful Replace was computed from the immediately preceding write if and only if its writer read the document in the current incarnation; then it replaces exactly what was read |
| `NoLostUpdate.UpdateLostAcrossIncarnations` | internal/database/crud.go:198 | For any two documents of one id, a run in which a copy read before Delete and Create replaces the new document it was never computed from |
| `Conditions.ConditionList.Set` | pkg/controllers/conditions/conditions.go:34-39 | The in-place setter: first condition of the kind updated, or a new one appended; the transition time moves only with the status (meta.SetStatusCondition) |
| `Conditions.ConditionList.SetSuccessful` | pkg/controllers/conditions/conditions.go:32-52 | Records NoErrors, PreCheckFailed for a direct PreCheckError, or KubeAPIError |
| `Conditions.ConditionList.SetSuccessfulWaitingForDeletion` | pkg/controllers/conditions/conditions.go:56-64 | Records Successful=False with reason WaitingForDeletion |
| `Conditions.ConditionList.SetDegraded` | pkg/controllers/conditions/conditions.go:67-83 | Records Degraded=False for nil and Degraded=True with reason Failed otherwise |
| `Conditions.SettersRecord` | pkg/controllers/conditions/conditions.go:32-83 | A setter records its report, leaves every other kind alone, moves the transition time only on a flip, and changes nothing if and only if the report was already recorded |
| `Conditions.SettersKeepUnique` | pkg/controllers/conditions/conditions.go:32-83 | Each condition kind keeps occurring at most once |
| `Conditions.ReportsExactly` | pkg/controllers/apply_desire/controller.go:417-438 | Successful=True exactly for no error, PreCheckFailed exactly for an unwrapped PreCheckError; Degraded=True exactly for an error without a PreCheckError in its chain whose first StatusError, if any, lies outside 400-499; with the stored reasons and messages |
| `Conditions.ClientErrorIsFirst` | pkg/controllers/apply_desire/controller.go:431-438 | An error is a client error exactly when the first StatusError of its chain has a code in 400-499 |
| `StatusWriter.UpdateStatus` | pkg/controllers/desirestatuswriter/desirestatuswriter.go:82-114 | One read and at most one write: the recorded observation is created or replaces the stored document, and nothing is written when it changes nothing; every service or conflict error is returned |
| `StatusWriter.UpdateRecords` | pkg/controllers/desirestatuswriter/desirestatuswriter.go:82-114 | A status write that succeeds leaves the document of the observation, and no other, saying what was observed: id, observed time, generation, conditions; it writes exactly when the document did not say so before, and succeeds exactly when the document can be encoded |
| `StatusWriter.RecordingIsIdempotent` | pkg/controllers/desirestatuswriter/desirestatuswriter.go:94-99 | Recording the same observation again at any later time changes nothing, and recording never touches version or timestamps |
| `StatusWriter.QuietAfterWrite` | pkg/controllers/desirestatuswriter/desirestatuswriter.go:82-105 | After a write the same observation is a no-op if and only if the mirrored text is unchanged by re-encoding |
| `StatusWriter.SameObservationWritesOnce` | pkg/controllers/desirestatuswriter/desirestatuswriter.go:82-114 | Any number of calls recording one settled observation, some of which may fail, write at most once from any starting state |
| `StatusWriter.UnsettledTextIsWrittenEveryTime` | pkg/controllers/desirestatuswriter/desirestatuswriter.go:97-104 | While re-encoding changes the mirrored text, every call writes |
| `DeletePass.EvaluateDelete` | pkg/controllers/apply_desire/controller.go:337-415 | Against a cluster that may change before every call: calls in order, at most one Delete and only after a Get without deletionTimestamp, and none exactly for an incomplete target; Successful=True exactly when the last answer shows the target absent, which it was at some instant of the pass; the stored reasons for every other answer, and Degraded=True exactly for a server-side error |
| `DeletePass.DeleteTarget` | pkg/controllers/apply_desire/controller.go:371-415 | The second half of the pass: one Delete, one more Get exactly when it succeeded, and success exactly when the last answer shows the target absent |
| `DeletePass.JudgedFromDeleteTells` | pkg/controllers/apply_desire/controller.go:371-415 | What the second half records, answer by answer, in the stored words |
| `DeletePass.FinalizersRunOut` | pkg/controllers/apply_desire/controller.go:371-415 | Over a draining run every pass leaves fewer finalizers or an ended grace period, on an object that is being deleted |
| `DeletePass.DeletionConverges` | pkg/controllers/apply_desire/controller.go:337-415 | With error-free calls, no re-creation, draining finalizers and ending grace periods, the pass after as many passes as there were holds on the object, and every later one, records Successful=True for NoErrors and Degraded=False |
| `ApplyDesire.Controller.ApplyDesired` | pkg/controllers/apply_desire/controller.go:303-331 | Success, with the generation of the object, if and only if the target is complete, the content is non-empty and decodes, and the apiserver accepts; otherwise generation 0 and a PreCheckError before the call or the wrapped apiserver error after it |
| `ApplyDesire.Controller.EvaluateDelete` | pkg/controllers/apply_desire/controller.go:337-415 | The delete pass of the controller: what it records follows from the last answer of the cluster; success exactly for an absent target |
| `ApplyDesire.Controller.Observe` | pkg/controllers/apply_desire/controller.go:265-300 | Dispatch on the desire type; the empty type is a server-side apply, and only deletions call the modelled cluster |
| `ApplyDesire.Controller.Report` | pkg/controllers/apply_desire/controller.go:269-299 | The status write: the document of the desire gets its observed time, the applied generation of an apply (the old one otherwise) and the two conditions of the verdict; every other document is left alone; a failed write changes nothing and does not happen while the service is up |
| `ApplyDesire.Controller.SyncOnce` | pkg/controllers/apply_desire/controller.go:253-301 | A missing spec or a failed fetch touches neither store nor cluster; otherwise the type selects the pass, the document of the desire and no other says what the pass found (observed time, generation, both conditions), a delete verdict follows from the answers of the cluster, and a sync error is returned besides being recorded |
| `ApplyDesire.Controller.EnqueueWithCooldown` | pkg/controllers/apply_desire/controller.go:210-229 | A changed desire is queued at once and leaves both gates alone; an unchanged one is queued exactly when its gate grants it, the delete gate for deletions, and that gate has seen the call |
| `ApplyStatus.VerdictsAreConsistent` | pkg/controllers/apply_desire/controller.go:417-438 | No verdict of a pass can record Degraded=True with anything but Successful=False for KubeAPIError |
| `ApplyStatus.ConditionsStayConsistent` | pkg/controllers/apply_desire/controller.go:265-300 | Over every run of apply, delete and unknown-type passes: each type at most once, both present after a recorded pass, Degraded=True implies Successful=False with KubeAPIError, PreCheckFailed and WaitingForDeletion imply Degraded=False |
| `ApplyStatus.TransitionTimesFollowFlips` | pkg/controllers/conditions/conditions.go:32-83 | A transition time moves exactly when the status of its condition flips |
| `ApplyStatus.PassesRecordTheirVerdict` | pkg/controllers/apply_desire/controller.go:269-299 | The mutate function of a pass sets id, observed time, the generation of an apply and the conditions of its verdict, and nothing else |
| `Mirror.SyncOnce` | pkg/controllers/read_desire_kubernetes/controller.go:183-255 | Before the informer has synced, or when the status cannot be read, nothing is written; otherwise the store changes as one UpdateStatus of the observation |
| `Mirror.MirroredIsTheLiveObject` | pkg/controllers/read_desire_kubernetes/controller.go:212-255 | After a pass without error the stored kubeContent is the re-encoded live object, nil exactly when it is absent, with Successful=True |
| `Mirror.ProblemsKeepTheMirror` | pkg/controllers/read_desire_kubernetes/controller.go:204-231 | When reading the store of the informer fails, finds another type or the object cannot be marshalled, the stored kubeContent is kept and Successful=False recorded with the reason and message of that error |
| `Mirror.FurtherPassWritesNothingWhenSettled` | pkg/controllers/read_desire_kubernetes/controller.go:233-255 | A further pass over the unchanged object succeeds and writes nothing if and only if it is absent or its JSON is unchanged by re-encoding |
| `Mirror.StoredTextIsSettled` | internal/database/rawext_codec.go:31-58 | Stored kubeContent is never empty and is its own re-encoding |
| `Manager.StepKeepsInv` | pkg/controllers/read_desire_manager/controller.go:194-311 | Every step of workers, delete handlers, stopAll and exiting instances keeps the ownership invariant |
| `Manager.EveryInstanceIsOwned` | pkg/controllers/read_desire_manager/controller.go:241-311 | In every interleaving each instance is either the one map entry for its key or claimed by a thread that is still stopping it until it has exited |
| `Manager.ClaimsAreFinal` | pkg/controllers/read_desire_manager/controller.go:287-299 | A claim is never withdrawn or given to a second thread |
| `Manager.AtMostOneLivePerKey` | pkg/controllers/read_desire_manager/controller.go:258-284 | Two unexited instances of one key require that a delete handler or stopAll is just stopping one of them |
| `Manager.ReplacementWaitsForTheOld` | pkg/controllers/read_desire_manager/controller.go:258-274 | When a worker inserts a replacement, every earlier instance of the key has exited, unless such an outside stopper is at it |
| `Manager.DeleteHandlerEndsTheDesireExactly` | pkg/controllers/read_desire_manager/controller.go:194-208 | Over every run, from the claim of the delete handler to any later state: the entry of the deleted desire has stayed out of the map and every instance of it has exited if and only if the desire has no node pool or no entry at the claim, no worker inserted it since, and no thread is still stopping an instance of it |
| `Manager.EntryStaysOutExactly` | pkg/controllers/read_desire_manager/controller.go:287-299 | From the claim to any later state, the entry stays out of the map if and only if there is no node pool or no entry at the claim, and no insert since |
| `Manager.QuietDesireEndsForGood` | pkg/controllers/read_desire_manager/controller.go:194-208 | What can be checked at the claim: the handler reaches the entry, no worker is about to start an instance and no thread is stopping one; if the spec is not found again, nothing of the desire is left from the return of the handler on |
| `Manager.HandlerWaitsForItsInstance` | pkg/controllers/read_desire_manager/controller.go:297-298 | Until it returns the handler is stopping the instance it claimed, and it returns only when that has exited |
| `Manager.NodePoolIsMissed` | pkg/controllers/read_desire_manager/controller.go:207 | A run for every desire with a node pool: the handler returns at once, all threads are idle, and the instance is live in the map |
| `Manager.WorkerInFlightInsertsAgain` | pkg/controllers/read_desire_manager/controller.go:250-276 | A run for every desire without a node pool: a worker past its look at the map inserts a new instance between claim and return of the handler; all threads end idle with it live |
| `Manager.WorkerInsertsAfterTheReturn` | pkg/controllers/read_desire_manager/controller.go:250-276 | A run in which nothing of the desire is left when the handler returns, and the worker inserts a new instance afterwards; all threads end idle with it live |
| `Manager.FirstStartComesLater` | pkg/controllers/read_desire_manager/controller.go:250-276 | A run in which the handler finds no entry because the worker has not inserted the first instance yet; all threads end idle with it live |
| `Manager.OtherStopperIsStillAtIt` | pkg/controllers/read_desire_manager/controller.go:287-299 | A run in which the entry stays out but the handler returns while another is still stopping an older live instance |
| `StatusRecord.RecordStaysGoneExactly` | pkg/controllers/read_desire_manager/controller.go:203-207 | For a desire that ends for good, the status record that the handler deleted is gone at every state from its return on if and only if no mirror pass or failed build wrote it between the deletion and that return |
| `StatusRecord.NobodyWrites` | pkg/controllers/read_desire_manager/controller.go:262-284 | Once every instance has exited and nobody is about to start one, no step writes the record |
| `StatusRecord.MirrorPassBringsTheRecordBack` | pkg/controllers/read_desire_manager/controller.go:203-207 | A run in which a mirror pass between the two steps of the handler creates the record again; all threads end idle, nothing is running, and the record stays |
| `ManagerMethods.ReadDesireManager.CancelAndWait` | pkg/controllers/read_desire_manager/controller.go:297-298 | Afterwards the instance is cancelled and has exited |
| `ManagerMethods.ReadDesireManager.StopByKey` | pkg/controllers/read_desire_manager/controller.go:287-299 | Removes the entry and ends its instance; no other entry or instance changes |
| `ManagerMethods.ReadDesireManager.SyncOnce` | pkg/controllers/read_desire_manager/controller.go:241-285 | Keeps a running instance with the same target, otherwise ends it and starts exactly one with the new target, or records the failure in the status document when it cannot be built; when it can be built the map holds an instance with the target afterwards; a failed fetch changes nothing; a missing spec stops the instance; other keys are untouched |
| `ManagerMethods.ReadDesireManager.Build` | pkg/controllers/read_desire_manager/controller.go:262-284 | Inserts and starts the new instance, or records the build error, Successful=False with its reason, in the document of the desire and no other |
| `ManagerMethods.ReadDesireManager.HandleDelete` | pkg/controllers/read_desire_manager/controller.go:194-208 | Deletes the status record and removes the entry of the key without node pool |
| `ManagerMethods.ReadDesireManager.StopAll` | pkg/controllers/read_desire_manager/controller.go:301-311 | Afterwards the map is empty and every instance has exited |
| `Cooldown.TimeBasedCooldownChecker.Get` | internal/controllerutils/cooldown.go:52 | Returns the stored time and moves a hit to the front of the recency list |
| `Cooldown.TimeBasedCooldownChecker.Add` | internal/controllerutils/cooldown.go:54 | Stores the time in front and drops the least recent key beyond the capacity |
| `Cooldown.TimeBasedCooldownChecker.CanSync` | internal/controllerutils/cooldown.go:49-58 | Called by one goroutine: grants exactly when no time is stored or it lies strictly in the past, stamps the next time only on a grant, and marks the key as most recent either way |
| `Cooldown.RefusedWithinThePeriod` | internal/controllerutils/cooldown.go:49-58 | After a grant the key is granted again exactly when the period is over |
| `Cooldown.GrantedExactly` | internal/controllerutils/cooldown.go:49-58 | With a non-decreasing clock and any capacity, a call is granted if and only if every earlier grant of its key is more than the period ago, or at least as many distinct other keys as the capacity were asked since the key was last asked |
| `Cooldown.HeldExactly` | internal/controllerutils/cooldown.go:38 | The LRU cache holds exactly the keys that were asked and not pushed out by that many others since |
| `Cooldown.GrantedExactlyAfterThePeriod` | internal/controllerutils/cooldown.go:49-58 | With room for every key, a call is granted if and only if every earlier grant of its key is more than the period ago: refused calls and other keys have no say |
| `Cooldown.GrantsSpreadOut` | internal/controllerutils/cooldown.go:49-58 | k grants of a key at or after an instant span at least (k-1) times the period plus one |
| `Cooldown.RateBound` | internal/controllerutils/cooldown.go:49-58 | A window of length w holds at most w/period + 1 grants of one key |
| `Cooldown.EvictionForgets` | internal/controllerutils/cooldown.go:38 | For every capacity and period: after a key and as many distinct others as the capacity, the first key is granted again within the same instant |
| `CooldownSteps.GrantedByTheLastStamp` | internal/controllerutils/cooldown.go:49-58 | With callers interleaving between the two locked steps of CanSync, and room for all keys: a call is granted if and only if the grant of its key that was stamped last is more than the period ago |
| `CooldownSteps.GrantsSpreadOneAtATime` | internal/controllerutils/cooldown.go:49-58 | When calls of one key do not overlap, its grants are more than the period apart, however calls of other keys interleave |
| `CooldownSteps.TwoCallersAreBothGranted` | internal/controllerutils/cooldown.go:16-18 | Otherwise two callers are both granted at one instant, for every key, period and capacity |

## Left out

- StubCache.Cache.FindChanged: update times are whole nanoseconds on one time line; monotonic clock readings and time zones are not modelled.
- TwoSpeed.TwoSpeedRefinesScanning: writers and watcher read one clock; skew between clocks is not modelled. Slow writers and eventually consistent answers of the index and of a batch get (gsi.go:117-118) are bounded by `delay` and `lag`; without such bounds nothing can be said of writes newer than the last read.
- TwoSpeed.CacheIsRightExactlyOutsideTheBlindStretch: the condition is exact for instantaneous reads and writes; slower ones may see a write earlier than they must.
- Gsi.QuerySince: all pages of one query are taken from one state of the index; writes during a read are in `TwoSpeed`.
- Gsi.ScanAll: all pages of one scan are taken from one state of the table; writes during a read are in `TwoSpeed`.
- Gsi.BatchGetItems: all answers of one batch get are taken from one state of the table; an `up` service also leaves no key unprocessed, so throttling is part of a service that is not up.
- Shard.ShardIsOneOfTheBuckets: document ids are sequences of characters; ids with multi-byte characters, which the code cuts by bytes, are not modelled.
- Codec.RoundTrip: JSON re-encoding is an abstract function that is idempotent on its results (RFC 8259), so the parser and printer, and large integers that do not survive them, are not modelled; struct attributes other than kubeContent are kept as values.
- Store.DynamoTable.Create: a failed service call has no effect; a put that took effect although its answer was lost is not modelled. Versions do not overflow 64 bits. An empty id in Get, Replace or Delete, which the service refuses, is treated as a missing document.
- Conditions.ConditionList.Set: metav1.Time is stored without loss; ObservedGeneration is not modelled.
- DeletePass.EvaluateDelete: the text of a deletionTimestamp is taken as given; namespaces and resource resolution are not modelled, and a grace period is a flag that ends at some time.
- ApplyDesire.Controller.ApplyDesired: the effect of a server-side apply on the cluster is not modelled, only its answer.
- ManagerMethods.ReadDesireManager.CancelAndWait: the instance exits when it is waited for; one that ignores its context blocks the code for good. `Manager` has the wait as a step that only an exited instance lets through.
- StatusRecord.RecordStaysGoneExactly: assumes that a document id occurs under one key only; what the record says is in `StatusWriter` and `Mirror`.
- Cooldown.TimeBasedCooldownChecker.CanSync: the method is one caller alone; `CooldownSteps` has its two locked steps, for caches with room for all keys.
- PassesInTime.PollPassTakesPlace: a pass of the class reads index and table in one state; passes spread over time are runs of `TwoSpeed`.
- Watcher.Watcher.QueryWindow: formatting of `since` is a parameter here; `Watching.Poll` instantiates it with RFC 3339 text.
- The watch adapter and its channel, which drops events when full after the cache was updated: emit is the point of observation.
- Watcher start and stop, Done, tickers and logging.
- Informers, work queues, rate limiting and leader election: one worker per key at a time is an assumption of `Manager`.
- The AWS SDK, HTTP, credentials and table set-up.
- List methods, spec readers, listers, deep copies and key construction: easy members.
- The hashing of document ids, the command-line tools, output formats and configuration.
- Panics in goroutines and their recovery.
