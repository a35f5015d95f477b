# Cassonic: a verified model of its core

Cassonic is a music server written in Go. It keeps its metadata in SQLite, scans libraries of audio files, speaks the
Subsonic and Ampache protocols, and guards its interfaces with rate limits and second-factor codes. These Dafny
modules model the parts of it whose correctness spans several operations, and prove what those parts are for.
`dafny verify dfyconfig.toml` checks everything.

## What is modelled

**The LRU cache** (`Cache.dfy`, `LruCache.dfy`, `LruRuns.dfy`, `LruExpiry.dfy`). `Cache` is the program's structure: a
map from keys to nodes and a doubly linked list between two sentinels, relinked in place. Every method is proved to
keep the chain, the map and the capacity consistent and to do what a plain operation on a most-recent-first sequence
does. On the sequence, whole runs are reasoned about: inclusion between capacities, how long a key stays, and what its
ttl means.

**The library scan** (`ScanMachine.dfy`, `ScanProtocol.dfy`, `ScanStranding.dfy`, `ScanIntegrity.dfy`,
`ScanNames.dfy`, `SongRows.dfy`, `ScanConfluence.dfy`, `ScanIncremental.dfy`, `Scanning.dfy`, `FileOutcomes.dfy`,
`WalkSpec.dfy`, `WalkTermination.dfy`, `Walking.dfy`, `LibraryScan.dfy`) over **the music store** (`MusicTables.dfy`,
`SongMetadata.dfy`, `RowMerges.dfy`, `MusicStore.dfy`). The scan is a state machine: a walker, a forwarder and any
number of workers joined by two bounded channels, the caller that waits for them, and a cancellation that may come at
any step; a worker's step is one store statement, which may fail before or after taking effect. `Scanning` has the
processing of one file as the sequential method it is, proved to be those steps. Protocol facts (every path in one
place, no deadlock, finite runs), integrity of the store at every moment and after cleanup, songs linked to the rows
they name, and independence of the order of workers are proved for all interleavings; what a scan makes of each row,
and which files an incremental scan reads again, is told by the files and the rows before. The directory walk is a
recursive search with a visited set, proved complete, with the exact condition under which it ends.

**The rate limiter** (`RateLimiter.dfy`, `LimiterLaws.dfy`): bucket objects found through a map, against a
specification on real-valued buckets, with the window bound, independence of keys, and exactly when the idle cleanup
can be noticed.

**The playlist store** (`Playlists.dfy`, `PlaylistStore.dfy`, `PlaylistCounts.dfy`, `PlaylistDurations.dfy`): rows
with explicit positions that are deleted and renumbered, refining plain song lists over any sequence of operations,
and exactly when the cached counts are right.

**Domain learning** (`UrlVars.dfy`, `UrlVarsState.dfy`, `DomainEvents.dfy`): a window of observed hosts compacted in
place, and the base domain and wildcard inferred from it.

**Smaller pieces**: the paginating catalogue listing (`Catalog.dfy`, `CatalogMeaning.dfy`), backup codes
(`BackupCodes.dfy`, `CodeRequests.dfy`, `AdminSecurity.dfy`), decimal printing and string ids (`Decimal.dfy`,
`Ids.dfy`), query escaping (`QueryEscape.dfy`). `Seqs.dfy`, `Options.dfy` and `Text.dfy` hold shared vocabulary.

## How to read it

- The clock is a parameter of every operation that reads it. Cache and limiter times are instants; a zero expiry is
  `Never`. The limiter's float64 tokens are reals and its rate is not negative.
- Types such as `Answer`, `Outcome` and `Option` stand for the program's error and nil results.
- An upsert returns the id of the row with its unique key. `src/server/store/activity_store.go:241-243` notes that
  SQLite leaves a stale rowid behind when an upsert updates, while `src/server/store/music_store.go:166-170`, `360-364`
  and `632-635` expect 0 there and then look the id up by key. What is meant is modelled.
- Artists are unique up to ASCII case (`src/server/store/sqlite.go:148`), albums by title and artist, songs by path;
  foreign keys are enforced (`src/server/store/sqlite.go:452`) and deleting an artist deletes its albums
  (`src/server/store/sqlite.go:154`).
- File contents, the tag reader, lower-casing of domains, the public suffix list, hashes, ciphers and TOTP checks are
  parameters.

## Where the code does not do what it says

The model follows the code; these are proved.

- `WalkAudioFiles` announces cycle detection, but a followed link starts a search with nothing visited. The walk ends
  if and only if these fresh searches never lead back to a directory they have come from
  (`WalkTermination.WalkEndsIff`): a link to a directory that is being searched is caught, two directories that link to
  each other are followed for ever. Whenever the walk ends it has sent everything that can be reached.
- After a cancellation the forwarder may wait for room in `jobs` for ever, since it does not look at the context. This
  can happen if and only if the walk has at least `5 * workers + 1` paths (`ScanStranding.StrandingIff`); `ScanLibrary`
  itself always returns, and nothing else can be left behind (`ScanProtocol.AtRest`).
- The rate limiter's cleanup changes answers exactly when `rate * 300 < burst` and `burst > 0`
  (`TokenBucket.CleanupUnobservableIff`).
- `strconv64` and `int64ToStr` print "-" for the least int64 and are right for every other
  (`Decimal.PrintedParsesIff`); keys stay distinct all the same.
- Cached playlist figures are not always right. The Subsonic create call writes the number of songs it is asked for
  (`src/server/handler/subsonic/playlists.go:133-140`) and ignores whether they are then set (line 154); a rescan
  changes a song's duration (`src/server/store/music_store.go:588`) and no playlist. `PlaylistCounts.CountRightIff` and
  `PlaylistCounts.DurationRightIff` say exactly when they are right.
- The catalogue's pages together differ from its listing exactly when an album that cannot be loaded is listed on an
  earlier page than one that can (`Catalog.PagesAreTheListing`).
- `decodeSongID` and its siblings accept an id of any kind (`SubsonicIds.NumberOfAnyKind`).
- A scan ends by deleting songs marked missing, but nothing in the program calls the store's `MarkSongMissing`
  (`src/server/store/store.go:258`), so no scan ever removes a song row, whatever has gone from disk
  (`SongRows.SongsAreNeverRemoved`). Were a row marked, rescanning its file would not save it (`SongRows.RowStaysIff`).

## Model

| member | source | states |
|---|---|---|
| `Cache.Cache.constructor` | src/common/cache/cache.go:43-57 | An empty cache; a capacity below 1 becomes 1. |
| `Cache.Cache.RemoveNode` | src/common/cache/cache.go:175-178 | Unlinking a node keeps head to tail a chain of distinct nodes with prev and next inverse, and takes exactly that node out of the contents. |
| `Cache.Cache.PushFront` | src/common/cache/cache.go:161-166 | Linking a new node after the head keeps the chain and puts its item first. |
| `Cache.Cache.MoveToFront` | src/common/cache/cache.go:169-172 | A linked node comes first and all others keep their order. |
| `Cache.Cache.RemoveLRU` | src/common/cache/cache.go:181-188 | Exactly the last item goes, from list and map alike; nothing happens on an empty list. |
| `Cache.Cache.Replace` | src/common/cache/cache.go:75-79 | Updating a present key refines the sequence operation: nothing is evicted. |
| `Cache.Cache.Insert` | src/common/cache/cache.go:81-90 | Inserting an absent key refines the sequence operation, with at most one eviction. |
| `Cache.Cache.SetTTL` | src/common/cache/cache.go:66-91 | Keeps the heap invariant (chain, map and capacity) and refines SetSpec, the expiry being the clock reading plus a positive ttl, or never. |
| `Cache.Cache.Set` | src/common/cache/cache.go:60-62 | SetTTL with the default ttl. |
| `Cache.Cache.Get` | src/common/cache/cache.go:95-114 | Keeps the heap invariant; answers Lookup of the contents before, and refines GetSpec: a live hit moves to the front, an expired item is removed and missed. |
| `Cache.Cache.Delete` | src/common/cache/cache.go:117-125 | Keeps the heap invariant; removes exactly the key, if present. |
| `Cache.Cache.Clear` | src/common/cache/cache.go:128-135 | Leaves the empty list, sentinels linked to each other. |
| `Cache.Cache.Len` | src/common/cache/cache.go:138-142 | The number of map entries is the number of items. |
| `Cache.Cache.Evict` | src/common/cache/cache.go:145-158 | The cursor walk ends, keeps the heap invariant and refines the front-to-back sweep, reading the clock once for each node. |
| `LruSpec.SetKeepsWellFormed` | src/common/cache/cache.go:66-91 | Storing keeps keys distinct and the size within capacity. |
| `LruSpec.GetKeepsWellFormed` | src/common/cache/cache.go:95-114 | So does looking up. |
| `LruSpec.ReplaceMeaning` | src/common/cache/cache.go:75-79 | Storing a present key moves it to the front with its new value and evicts nothing. |
| `LruSpec.HitMeaning` | src/common/cache/cache.go:95-114 | What a lookup of the i-th key answers and leaves, live or expired. |
| `LruSpec.EvictMeaning` | src/common/cache/cache.go:145-158 | The sweep keeps order, removes everything expired when it starts and nothing still live when it ends. |
| `LruRuns.Inclusion` | src/common/cache/cache.go:66-114 | On one trace of Set, Get and Clear from empty, with ttl 0, the smaller cache's recency list is a subsequence of the larger one's, and every answer of the smaller is the answer of the larger. |
| `LruRuns.IncludedStep` | src/common/cache/cache.go:66-188 | The inclusion is kept by every operation, deletes and sweeps included. |
| `LruRuns.TouchedKeyIsAtFront` | src/common/cache/cache.go:66-114 | A store or a hit puts the key at the front with the value stored or returned. |
| `LruRuns.AheadStep` | src/common/cache/cache.go:66-188 | One operation that leaves an item alone: it stays while fewer than capacity keys get ahead, and only touched keys get ahead. |
| `LruRuns.Recency` | src/common/cache/cache.go:66-114 | From any list with the key at its front: if fewer than capacity distinct other keys are then inserted or hit, and the key is not stored again, looked up, deleted, cleared or expired at a reading made, Get returns its value. |
| `LruRuns.RecencyIsExact` | src/common/cache/cache.go:66-114 | Without deletes and expiries the bound is exact: the key is still there if and only if fewer than capacity distinct other keys were touched. |
| `LruExpiry.StoredForItsTime` | src/common/cache/cache.go:66-114 | A lookup right after storing k with a ttl finds the value if and only if the ttl is not positive or the clock is at most the time of storing plus the ttl. |
| `LruExpiry.LookupByTime` | src/common/cache/cache.go:95-114 | Over runs from empty a lookup answers the value last stored for the key, and only while that store is in time: the ttl is not positive or the reading is at most the time of storing plus the ttl. |
| `LruExpiry.RecencyInTime` | src/common/cache/cache.go:66-158 | After k is stored and fewer than capacity distinct other keys are touched, with no reading, those of sweeps included, past the time of storing plus the ttl, a lookup gives the value. |
| `LruExpiry.SweepRemovesLate` | src/common/cache/cache.go:145-158 | A sweep whose readings all exceed the time of storing plus a positive ttl removes the item. |
| `RateLimiting.BucketObject.Spend` | src/server/middleware/middleware.go:126-138 | Refill up to now, cap at burst, and take one token if there is one. |
| `RateLimiting.RateLimiter.BucketFor` | src/server/middleware/middleware.go:121-125 | A key without a bucket gets a full one; no two keys share a bucket. |
| `RateLimiting.RateLimiter.Allow` | src/server/middleware/middleware.go:116-139 | The answer and the new buckets are those of the specification; other keys' buckets are unchanged. |
| `RateLimiting.RateLimiter.Cleanup` | src/server/middleware/middleware.go:142-152 | Exactly the buckets not refilled for more than 300 seconds go. |
| `TokenBucket.RunKeepsSound` | src/server/middleware/middleware.go:116-152 | Over any run with a non-decreasing clock every bucket holds between 0 and burst tokens. |
| `TokenBucket.TotalOutflow` | src/server/middleware/middleware.go:116-139 | Conservation: successes plus tokens left never exceed the tokens at the start plus what flowed in. |
| `TokenBucket.WindowBound` | src/server/middleware/middleware.go:116-139 | In any window of length T of any run, at most burst + rate * T calls of one key succeed, whatever other keys do; cleanups in the window are allowed where 300 idle seconds refill a bucket. |
| `TokenBucket.KeysAreIndependent` | src/server/middleware/middleware.go:116-152 | The answers for one key are all the answers of the run with all other keys' calls left out. |
| `TokenBucket.CleanupUnobservable` | src/server/middleware/middleware.go:142-152 | Cleanups inserted anywhere in a run change none of its answers, when rate * 300 >= burst (true of the limiters of src/server/server.go:117-120). |
| `TokenBucket.CleanupUnobservableIff` | src/server/middleware/middleware.go:142-152 | Cleanups are unobservable in every run if and only if rate * 300 >= burst or burst <= 0. |
| `TokenBucket.TelltaleShows` | src/server/middleware/middleware.go:116-152 | Otherwise a concrete run answers differently with a cleanup than without. |
| `LimiterLaws.BurstCount` | src/server/middleware/middleware.go:116-139 | Of n calls of a key at one instant as many succeed as it has whole tokens. |
| `LimiterLaws.RefillIsExact` | src/server/middleware/middleware.go:116-139 | Once a burst has emptied the bucket, dt seconds later exactly the whole part of rate * dt calls succeed, and at most another burst. |
| `LimiterLaws.SteadyCallsSucceed` | src/server/middleware/middleware.go:116-152 | A key whose calls are at least 1/rate apart is never refused, whatever other keys do and whenever buckets are cleaned up. |
| `LimiterLaws.BucketIff` | src/server/middleware/middleware.go:142-152 | After any run a key has a bucket if and only if it has made a call and every cleanup since its last one came within 300 seconds of it; the bucket was last refilled by that call. |
| `MusicStoring.MusicStore.UpsertArtistRow` | src/server/store/music_store.go:137-172 | Inserts or merges by case-folded name; returns the id of the row with that name; integrity kept. |
| `MusicStoring.MusicStore.UpsertAlbumRow` | src/server/store/music_store.go:325-366 | Inserts or merges by title and artist; refused without effect exactly when a new album names no existing artist; otherwise the id of the album with that key. |
| `MusicStoring.MusicStore.UpsertSongRow` | src/server/store/music_store.go:565-637 | Inserts or merges by path; the row gets the given references; integrity kept when they exist. |
| `MusicStoring.MusicStore.DeleteArtists` | src/server/store/music_store.go:274-281 | Deletes the artists no song names, cascading to their albums. |
| `MusicStoring.MusicStore.DeleteAlbums` | src/server/store/music_store.go:493-498 | Deletes the albums no song names. |
| `MusicStoring.MusicStore.DeleteMissing` | src/server/store/music_store.go:754-757 | Deletes the songs marked missing. |
| `MusicStoring.MusicStore.Cleanup` | src/server/service/scanner.go:94-102 | The three deletes in the order a scan issues them keep integrity. |
| `MusicTables.UpsertArtistKeepsIntegrity` | src/server/store/music_store.go:137-172 | Indexes, foreign keys and song references survive; the id is that of the row with the name; albums and songs stay. |
| `MusicTables.UpsertAlbumKeepsIntegrity` | src/server/store/music_store.go:325-366 | An album of an existing artist is stored under its title and artist, and its id returned; integrity kept. |
| `MusicTables.UpsertSongKeepsIntegrity` | src/server/store/music_store.go:565-637 | A song whose artist, album artist and album exist, the album being the album artist's, is stored without breaking integrity. |
| `MusicTables.DeleteArtistsKeepsIntegrity` | src/server/store/music_store.go:274-281 | Exactly the named artists stay, rows unchanged; the cascade (src/server/store/sqlite.go:154) removes no album a song names. |
| `MusicTables.DeleteAlbumsKeepsIntegrity` | src/server/store/music_store.go:493-498 | Exactly the named albums stay, rows unchanged. |
| `MusicTables.DeleteMissingKeepsIntegrity` | src/server/store/music_store.go:754-757 | Exactly the songs not marked missing stay. |
| `MusicTables.NamedRowsExist` | src/server/store/music_store.go:274-281 | Under integrity the artist of an album that a song names is itself named by a song. |
| `SongMetadata.UpsertSongPuts` | src/server/store/music_store.go:565-637 | A song upsert changes the metadata of its own path only. |
| `SongMetadata.PutIdempotent` | src/server/store/music_store.go:565-637 | Upserting a path twice is upserting it once. |
| `SongMetadata.PutsCommute` | src/server/store/music_store.go:565-637 | Upserts on different paths commute. |
| `SongMetadata.EditedFieldsAreKept` | src/server/store/music_store.go:576-612 | Over any number of upserts an edited row keeps each non-empty protected field, an empty one takes the first non-empty incoming value and keeps it, any other row has the last incoming value, and the flag never changes. |
| `SongMetadata.RowSeesItsVersions` | src/server/store/music_store.go:565-637 | In any sequence of upserts a path has a row if and only if it had one or a version was sent for it, and the row is the merge of exactly those versions, in order. |
| `SongMetadata.SameFields` | src/server/store/music_store.go:598-606 | The fields spoken of are all the protected columns: two rows that agree on them agree. |
| `RowMerges.NewAlbumIsStored` | src/server/store/music_store.go:325-366 | The first upsert of an album stores the incoming row as it is, and touches no other. |
| `RowMerges.KnownAlbumIsMerged` | src/server/store/music_store.go:329-340 | What one upsert makes of a known album's row, column by column; other rows stay. |
| `RowMerges.AlbumRowMeaning` | src/server/store/music_store.go:325-366 | After any upserts an album's row has its key and flag, and otherwise the last version sent for it, except that an edited row keeps the first year, genre and MusicBrainz id that is not empty. |
| `RowMerges.NewArtistIsStored` | src/server/store/music_store.go:137-172 | The first upsert of an artist stores the incoming row as it is, and touches no other. |
| `RowMerges.KnownArtistIsMerged` | src/server/store/music_store.go:141-149 | What one upsert makes of a known artist's row, column by column; other rows stay. |
| `RowMerges.ArtistRowMeaning` | src/server/store/music_store.go:137-172 | After any upserts an artist's row has its name and flag, and otherwise the last version sent for it, except that an edited row keeps the first biography and MusicBrainz id that is not empty. |
| `RowMerges.SongRowMeaning` | src/server/store/music_store.go:565-637 | A song upsert stores a new path's row as it comes; a known path keeps its id, mark and play count and takes the new references; other rows stay. |
| `RowMerges.ArtistsLeft` | src/server/store/music_store.go:274-281 | Deleting artists leaves exactly those that a song names, and takes along the albums of the others. |
| `RowMerges.AlbumsLeft` | src/server/store/music_store.go:493-498 | Deleting albums leaves exactly those that a song is on. |
| `ScanProtocol.StepConserves` | src/server/service/scanner.go:134-153 | No step of walker, forwarder, worker, caller or cancellation loses, duplicates or invents a path. |
| `ScanProtocol.EveryPathInOnePlace` | src/server/service/scanner.go:128-161 | In every reachable state each path is in the pipeline exactly as often as it was walked, the walked paths are a prefix of the walk, and each finished file is counted once. |
| `ScanProtocol.NeverDeadlocks` | src/server/service/scanner.go:134-157 | Until ScanLibrary has returned some step other than a cancellation is always possible. |
| `ScanProtocol.RunsAreFinite` | src/server/service/scanner.go:134-157 | Every run for n paths and k workers has at most 14n + k + 8 steps; a run that cannot go on has returned. |
| `ScanProtocol.ReturnMeansProcessed` | src/server/service/scanner.go:128-161 | On return without cancellation the finished multiset is the walked multiset; a successful return means everything was walked. |
| `ScanProtocol.AtMostOneMore` | src/server/service/scanner_walk.go:97-113 | After a cancellation the walker sends at most the one path it was about to send. |
| `ScanProtocol.NoWorkAfterExit` | src/server/service/scanner_walk.go:120-137 | Once the workers have left nothing touches the store. |
| `ScanProtocol.StrandedPaths` | src/server/service/scanner.go:134-151 | A stranded forwarder means at least five walked paths a worker and one: counts of paths in every place are kept by every step. |
| `ScanProtocol.AtRest` | src/server/service/scanner.go:137-157 | At rest ScanLibrary has returned and walker and workers have ended; so has the forwarder, unless the scan was cancelled, there are at least five paths a worker and one, and it waits for room in jobs. |
| `ScanProtocol.StrandedForEver` | src/server/service/scanner.go:143-151 | A forwarder left waiting after a cancellation never moves again. |
| `ScanStranding.StrandingIff` | src/server/service/scanner.go:128-157 | For any number of workers, any store and any files: some run ends with ScanLibrary returned and the forwarder stranded if and only if the walk has at least 5 * workers + 1 paths. |
| `ScanIntegrity.IntegrityThroughoutScan` | src/server/service/scanner.go:165-249 | At every moment of every interleaving, with statements failing and cancellation anywhere, every song's artist, album artist and album exist, the album is the album artist's, and the ids workers carry are good. |
| `ScanIntegrity.WorkKeepsIntegrity` | src/server/service/scanner.go:165-249 | One statement of processFile keeps integrity and yields ids that exist. |
| `ScanIntegrity.ScansKeepIntegrity` | src/server/service/scanner.go:80-92 | So do the scans of any libraries one after another. |
| `ScanIntegrity.ScanKeepsIntegrity` | src/server/service/scanner.go:62-102 | Also after cleanup, whichever of its statements fail: only unnamed artists and albums and missing songs have gone. |
| `ScanIntegrity.CleanupMeaning` | src/server/service/scanner.go:94-102 | Cleanup leaves exactly the named artists and albums, where its statements succeed. |
| `ScanNames.LinksThroughoutScan` | src/server/service/scanner.go:165-249 | At every moment of every interleaving, whichever statements fail, every song leads to the artist, album artist and album that its own metadata names, and so do the ids workers carry. |
| `ScanNames.WorkKeepsLinks` | src/server/service/scanner.go:189-246 | One statement of processFile keeps this, and the names of existing rows. |
| `ScanNames.ScanKeepsLinks` | src/server/service/scanner.go:62-102 | So do whole scans, cleanup included, whichever of its statements fail. |
| `SongRows.RowStaysIff` | src/server/service/scanner.go:62-102 | Whatever happens in a full scan, of the song rows there before exactly those marked missing go, if the last delete succeeds; rescanning a file does not save its row, and rows the scan adds stay. |
| `SongRows.SongsAreNeverRemoved` | src/server/service/scanner.go:62-102 | From a store without missing marks any number of full scans keep every song row and leave no marks. |
| `SongRows.WorkStays` | src/server/service/scanner.go:165-249 | No store statement of a scan removes or marks a song row. |
| `ScanConfluence.ScanSettles` | src/server/service/scanner.go:165-249 | A scan without failures leaves each walked path's row at a value fixed by the file and the row before, every other row alone, and counts no error. |
| `ScanConfluence.ScanIsConfluent` | src/server/service/scanner.go:128-161 | Two such scans from one store with the same set of walked paths leave the same metadata, whatever the workers, their order and repeated emissions. |
| `ScanIncremental.ScanMeaning` | src/server/service/scanner.go:165-249 | A scan without failures leaves a walked path's row alone if it is incremental and the row's time is within a second of the file's; every other walked row is made from its file, column by column, onto the row it had. |
| `ScanIncremental.StoredTimesAreNear` | src/server/service/scanner.go:172-187 | After a scan in either mode every walked path's stored time is within a second of its file's. |
| `ScanIncremental.SecondScanChangesNothing` | src/server/service/scanner.go:172-187 | A further incremental scan of the same files changes no metadata. |
| `ScanIncremental.ChangedFileIsRescanned` | src/server/service/scanner.go:172-249 | A file whose modification time has since moved on by more than two seconds has its row made from the new file. |
| `ScanIncremental.FullScanCountsAll` | src/server/service/scanner.go:165-249 | A full scan without failures counts every path walked as scanned and nothing as skipped or failed. |
| `LibraryScan.ScanOfTree` | src/server/service/scanner.go:128-161 | Walk and pipeline together: exactly the rows of the audio files reachable from the root are final, all others untouched. |
| `Scanning.Scanner.ProcessFile` | src/server/service/scanner.go:165-249 | Stat, incremental test, tags, store calls and counters: the store and the counters afterwards are those of the worker's steps, whichever calls fail; integrity kept. |
| `Scanning.Scanner.StoreFile` | src/server/service/scanner.go:218-246 | The chain of upserts with early returns is the chain of steps, the ids passed on being those of existing rows. |
| `Scanning.Scanner.UpsertArtistNamed` | src/server/service/scanner.go:253-260 | A failing call may or may not have written its row; integrity kept either way. |
| `Scanning.Scanner.LeftAlone` | src/server/service/scanner.go:172-187 | True exactly in incremental mode, when the lookup fails or the row's time is within a second of the file's. |
| `Scanning.WorkerRunsAlone` | src/server/service/scanner.go:165-249 | A worker undisturbed in the state machine does exactly what ProcessFile does. |
| `FileOutcomes.OutcomeMeaning` | src/server/service/scanner.go:165-249 | Exactly when one file is skipped, an error or scanned, told by the file, the row, and which statements fail; the first two without a readable file or tags leave the store alone. |
| `FileOutcomes.CallsFollow` | src/server/service/scanner.go:189-249 | A scanned file has had its artist, its album artist if named differently, its album and its song upserted in this order, from trimmed names with their defaults. |
| `Text.TrimSpaceMeaning` | src/server/service/scanner.go:197-215 | Trimming cuts white space off both ends and leaves none there. |
| `Text.SpaceCodes` | src/server/service/scanner.go:197-215 | The code points that are white space. |
| `Walking.Search.Visit` | src/server/service/scanner_walk.go:51-115 | Refines the recursive search: same visited set, same paths sent in the same order. |
| `Walking.Search.VisitAll` | src/server/service/scanner_walk.go:51-115 | The same for a directory's entries in order. |
| `Walking.WalkAudioFiles` | src/server/service/scanner_walk.go:39-116 | Unless fresh searches lead back to where they came from, the walk ends and sends exactly the wanted files reachable from the root. |
| `WalkSpec.EntrySound` | src/server/service/scanner_walk.go:51-115 | Only wanted files reachable from the entry are sent. |
| `WalkSpec.WalkIsComplete` | src/server/service/scanner_walk.go:39-116 | A walk that finishes has sent a path if and only if it is a wanted file reachable from the root, on any tree, whatever the visited sets skipped. |
| `WalkSpec.EntriesMonotone` | src/server/service/scanner_walk.go:51-115 | The result of a finishing search does not depend on the depth allowed. |
| `WalkTermination.WalkEndsIff` | src/server/service/scanner_walk.go:39-116 | A walk ends, at some depth or at a depth computed from the tree, if and only if the fresh searches it starts at links never lead back to a directory they have come from. |
| `WalkTermination.WalkSendsReachable` | src/server/service/scanner_walk.go:39-116 | Such a walk sends exactly the wanted files reachable from the root. |
| `WalkTermination.EntriesAreFlat` | src/server/service/scanner_walk.go:51-115 | A search visits what it would visit if links were marked and not followed, so which links it follows does not depend on what the followed searches do. |
| `WalkTermination.AcyclicNeverBack` | src/server/service/scanner_walk.go:82-91 | A tree in which no directory leads back to itself satisfies the condition. |
| `WalkTermination.LinkToParentEnds` | src/server/service/scanner_walk.go:85-88 | So does a link back to a directory being searched, which the visited map catches. |
| `WalkTermination.MutualLinksNeverFinish` | src/server/service/scanner_walk.go:82-91 | Two directories linking to each other do not: no depth is enough. |
| `PlaylistStoring.PlaylistStore.SetPlaylistEntries` | src/server/store/playlist_store.go:137-163 | The transaction replaces the songs, with positions from 0, or is rolled back without effect. |
| `PlaylistStoring.PlaylistStore.AddToPlaylist` | src/server/store/playlist_store.go:165-195 | Appends after the greatest position, or is rolled back. |
| `PlaylistStoring.PlaylistStore.RemoveFromPlaylist` | src/server/store/playlist_store.go:197-238 | The sorted delete loop and the renumbering drop exactly the listed indices. |
| `PlaylistStoring.PlaylistStore.SyncAndCommit` | src/server/store/playlist_store.go:241-254 | Count and duration become those of the rows, then everything takes effect at once. |
| `PlaylistStoring.PlaylistStore.GetPlaylistEntries` | src/server/store/playlist_store.go:117-135 | The songs at positions 0, 1, 2, ... are the playlist's contents in order. |
| `PlaylistStoring.PlaylistStore.Delete` | src/server/store/playlist_store.go:98-115 | The playlist and its entries go. |
| `PlaylistTables.SetMeaning` | src/server/store/playlist_store.go:137-163 | Positions become 0..n-1 with exactly the given songs, counts agree, other playlists are untouched; rolled back exactly when there are songs but no playlist. |
| `PlaylistTables.AddMeaning` | src/server/store/playlist_store.go:165-195 | The contents are the old ones followed by the new. |
| `PlaylistTables.RemoveMeaning` | src/server/store/playlist_store.go:197-238 | The contents lose exactly the in-range listed indices, whatever their order or repetition; order kept, positions consecutive again, counts agree. |
| `PlaylistTables.DroppedMeaning` | src/server/store/playlist_store.go:197-238 | As many songs are kept as there are unlisted indices, and the song at an unlisted index comes after exactly as many as there are unlisted indices before it. |
| `PlaylistTables.DroppedByMembership` | src/server/store/playlist_store.go:204-216 | Order and repetition of the listed indices do not matter. |
| `PlaylistTables.DeleteMeaning` | src/server/store/playlist_store.go:98-115 | The playlist is empty and gone; all others keep their songs. |
| `PlaylistTables.CreateMeaning` | src/server/store/playlist_store.go:47-56 | The new playlist is empty; the others keep their songs. |
| `PlaylistTables.EntriesInTableOrder` | src/server/store/playlist_store.go:117-135 | Reading by position is reading in table order, and the i-th entry has position i. |
| `PlaylistTables.EntriesMeaning` | src/server/store/playlist_store.go:117-135 | For any positions, repeated ones included, the entries are exactly the playlist's rows, by position and then by id. |
| `PlaylistTables.RenumberedIsConsecutive` | src/server/store/playlist_store.go:218-231 | Renumbering by rank makes positions consecutive from 0. |
| `PlaylistTables.StepRefines` | src/server/store/playlist_store.go:47-254 | Each operation on the tables is the same operation on plain song lists. |
| `PlaylistTables.RunRefines` | src/server/store/playlist_store.go:47-254 | So is any sequence of them, with changes of the song table in between; positions stay consecutive throughout. |
| `PlaylistCounts.StepOnOne` | src/server/store/playlist_store.go:47-254 | After each set, add or remove of a playlist its count and duration are those of its songs; other operations leave its songs and figures alone. |
| `PlaylistCounts.CountRightIff` | src/server/store/playlist_store.go:47-254 | After any run the cached count of a playlist is right if and only if it has been set, added to or removed from since its creation, or was created with count 0, or was right before and nothing happened to it. |
| `PlaylistCounts.FiguresAreOfLastTable` | src/server/store/playlist_store.go:241-254 | After any run the cached figures are those of the songs under the song table in force when they were last worked out. |
| `PlaylistCounts.DurationRightIff` | src/server/store/playlist_store.go:241-254 | So both are right if and only if later changes of the song table leave the sum of the durations what it was. |
| `PlaylistCounts.CreatedCountStays` | src/server/store/playlist_store.go:47-56 | A playlist created with a count for songs it does not get keeps the wrong count. |
| `PlaylistCounts.OldDurationStays` | src/server/store/playlist_store.go:241-254 | A song whose duration changes leaves the playlists it is in with the old sum. |
| `PlaylistDurations.AddedSongCounts` | src/server/store/playlist_store.go:165-194 | From right figures, adding one song raises the stored count by one and the stored duration by that song's, or by 0 if the song table lacks it. |
| `PlaylistDurations.RemovedSongCounts` | src/server/store/playlist_store.go:197-239 | Removing the song at one position lowers them by as much. |
| `PlaylistDurations.AddingOneByOne` | src/server/store/playlist_store.go:165-194 | Adding a list is adding its first song and then the others. |
| `PlaylistDurations.SettingIsAdding` | src/server/store/playlist_store.go:137-194 | Setting a playlist is emptying it and adding. |
| `PlaylistDurations.EmptiedIsZero` | src/server/store/playlist_store.go:241-254 | An emptied playlist has count and duration 0. |
| `DomainState.DomainLearner.constructor` | src/server/urlvars/urlvars.go:80-121 | The state Init leaves: cleaned domains, defaulted settings, nothing observed, base and wildcard inferred from the list. |
| `DomainState.DomainLearner.Cleaned` | src/server/urlvars/urlvars.go:85-90 | Trimmed, lower-cased, empty ones dropped, in order. |
| `DomainState.DomainLearner.InferWildcardFromList` | src/server/urlvars/urlvars.go:410-421 | "*." and the base when a later entry other than the base has the first entry's base, else empty. |
| `DomainState.DomainLearner.Compact` | src/server/urlvars/urlvars.go:439-446 | The in-place compaction leaves exactly the observations younger than the cutoff, in order. |
| `DomainState.DomainLearner.TopOf` | src/server/urlvars/urlvars.go:455-461 | Ranging in any order finds a base whose count none exceeds. |
| `DomainState.DomainLearner.Tally` | src/server/urlvars/urlvars.go:451-454 | The tally holds the count of every base that occurs, and nothing else. |
| `DomainState.DomainLearner.HostsWith` | src/server/urlvars/urlvars.go:463-468 | Exactly the different hosts of the base. |
| `DomainState.DomainLearner.Infer` | src/server/urlvars/urlvars.go:451-473 | From a non-empty window: a base of maximal count, and "*." plus it exactly when two different hosts share it. |
| `DomainState.DomainLearner.Observe` | src/server/urlvars/urlvars.go:427-480 | One observation: no change unless learning with no domains and a host; otherwise the pruned window and, with enough samples, an inferred base and wildcard. |
| `DomainState.SharedByCount` | src/server/urlvars/urlvars.go:463-473 | Counting the hosts of a base decides whether two different hosts share it. |
| `DomainLearning.WindowIsExact` | src/server/urlvars/urlvars.go:435-445 | In any run, after an observation that passes the guard the window is exactly those, of all ever made, that are young enough, in time order; the newest is in it. |
| `DomainLearning.PublishedIsInferred` | src/server/urlvars/urlvars.go:447-479 | Whenever the sample count is reached the published values are inferred from all observations ever made that are in the window; otherwise they stay. |
| `DomainLearning.ConfiguredBase` | src/server/urlvars/urlvars.go:199-209 | With configured domains GetBaseDomain gives, whatever is observed, the base of the first of them, or that domain where it has none. |
| `DomainLearning.LearntBase` | src/server/urlvars/urlvars.go:199-209 | Without configured domains it gives the empty string or the base of a host that has been observed. |
| `DomainLearning.NothingLearnt` | src/server/urlvars/urlvars.go:431-433 | With domains configured or learning off no observation changes anything. |
| `DomainLearning.Configure` | src/server/urlvars/urlvars.go:97-105 | The sample count and the window are positive, whatever was configured. |
| `DomainEvents.PublishedMeaning` | src/server/urlvars/urlvars.go:427-480 | Told by the events alone: once enough of them lie in the window, the base published is one that no other outnumbers among them and the wildcard is set if and only if they name two different hosts of it; otherwise what was published stays. |
| `DomainEvents.ConfiguredWildcard` | src/server/urlvars/urlvars.go:410-421 | With domains configured the wildcard is set, whatever is observed, if and only if a later domain has the first one's base and is not that base itself. |
| `DomainEvents.ConfigureMeaning` | src/server/urlvars/urlvars.go:97-105 | Positive settings are kept; the sample count defaults to 3 and the window to five minutes. |
| `DomainEvents.CleanConcat` | src/server/urlvars/urlvars.go:84-90 | The configured domains are cleaned one by one, in order. |
| `DomainEvents.CleanOne` | src/server/urlvars/urlvars.go:84-90 | One configured domain is trimmed and lower-cased, and left out if nothing is left of it. |
| `DomainEvents.NoHostNoChange` | src/server/urlvars/urlvars.go:431-433 | An event without a host changes nothing. |
| `DomainEvents.StartsUnpublished` | src/server/urlvars/urlvars.go:108-114 | Without domains nothing is published at first. |
| `Catalog.CatalogAlbums` | src/server/handler/ampache/browse.go:805-836 | The loop returns the first `limit` loadable albums after dropping `offset` from the library's de-duplicated listing, for any limit and offset, negative ones included. |
| `Catalog.FirstOccurrencesMeaning` | src/server/handler/ampache/browse.go:815-822 | The listing holds exactly the albums met, each once, in order of first appearance. |
| `Catalog.PagesAreTheListing` | src/server/handler/ampache/browse.go:805-836 | Successive pages concatenate to the loadable albums of the listing if and only if no unloadable album is listed on an earlier page than a loadable one. |
| `Catalog.EveryAlbumLoads` | src/server/handler/ampache/browse.go:805-836 | When every album exists the pages are the whole list, each album once and in place. |
| `Catalog.FullPage` | src/server/handler/ampache/browse.go:827-829 | Stopping when the page is full loses nothing. |
| `CatalogMeaning.ListingMeaning` | src/server/handler/ampache/browse.go:815-822 | The listing has exactly the albums that some song of the library is on, each once, ordered by their first songs. |
| `CatalogMeaning.PageMeaning` | src/server/handler/ampache/browse.go:824-836 | A page shows as many of the loadable albums listed from the offset on as there are, but at most the limit, each in the place the number of those before it gives, for negative limits and offsets too. |
| `AdminSecurity.DeleteAt` | src/server/handler/admin/security.go:193 | The in-place slice deletion is removal at that index. |
| `AdminSecurity.AdminStore.Spend` | src/server/handler/admin/security.go:190-204 | The first equal hash is removed and accepted; an unwritable list is an error that spends nothing. |
| `AdminSecurity.AdminStore.VerifyCode` | src/server/handler/admin/security.go:172-206 | Refines the verification: a valid TOTP code spends nothing; other admins' rows are untouched. |
| `AdminSecurity.AdminStore.DisableTotp` | src/server/handler/admin/security.go:210-244 | Requires an accepted code; the row goes and the flag is cleared. |
| `AdminSecurity.AdminStore.RegenerateCodes` | src/server/handler/admin/security.go:248-292 | Requires a valid TOTP code; replaces the whole list. |
| `AdminSecurity.AdminStore.ConfirmEnrollment` | src/server/handler/admin/security.go:105-167 | Stores an enabled row with a new list and sets the flag. |
| `BackupCodes.VerifyConserves` | src/server/handler/admin/security.go:172-206 | What a verification accepts is exactly what leaves the list. |
| `BackupCodes.StepConserves` | src/server/handler/admin/security.go:105-292 | So for every request, except that an issuance replaces the list and a removal drops it. |
| `BackupCodes.CodesAreConserved` | src/server/handler/admin/security.go:105-292 | In any run, codes accepted since the last issuance and codes still stored are together exactly the codes then issued, as multisets. |
| `BackupCodes.NeverMoreThanIssued` | src/server/handler/admin/security.go:105-292 | Over whole runs, across issuances and removals, no hash is accepted more often than it was issued. |
| `BackupCodes.AcceptedAtMostOnce` | src/server/handler/admin/security.go:190-204 | A code issued once is accepted at most once. |
| `BackupCodes.AcceptanceIsExact` | src/server/handler/admin/security.go:172-206 | After any run a backup code is accepted if and only if the row exists and the code was issued last time more often than accepted since. |
| `BackupCodes.FlagAgrees` | src/server/handler/admin/security.go:154-158 | Where no write of the admin record fails, its flag says whether the row exists. |
| `CodeRequests.VerifyMeaning` | src/server/handler/admin/security.go:172-206 | When a verification is accepted, refused or fails, as conditions on the row, the code and the world; a valid TOTP code on an enabled row is always accepted. |
| `CodeRequests.DisableMeaning` | src/server/handler/admin/security.go:210-244 | A disable request makes the row go if and only if the row can be read and is enabled, it can be deleted, and the code is valid as TOTP or is stored and its spending can be written. |
| `CodeRequests.RegenerateMeaning` | src/server/handler/admin/security.go:248-292 | When the list is replaced, and that nothing changes otherwise. |
| `CodeRequests.EnrollMeaning` | src/server/handler/admin/security.go:105-167 | When a row is stored, and that nothing changes otherwise. |
| `CodeRequests.RowStays` | src/server/handler/admin/security.go:210-244 | Over runs the row stays as long as every disable request carries a code neither valid as TOTP nor issued last time and unspent. |
| `Decimal.FillDigits` | src/server/handler/ampache/response.go:436-442 | The digits of the number, most significant first, always within the 20-byte buffer and leaving room for a sign. |
| `Decimal.Strconv64` | src/server/handler/ampache/response.go:427-447 | Prints the decimal of every int64 but the least, for which it prints a bare sign. |
| `Decimal.Int64ToStr` | src/server/handler/subsonic/nowplaying.go:88-108 | Agrees with strconv64 on every int64. |
| `Decimal.EntryKey` | src/server/handler/subsonic/nowplaying.go:83-85 | "u:" and the printed id. |
| `Decimal.EntryKeyInjective` | src/server/handler/subsonic/nowplaying.go:83-85 | Two users never share a key, on all of int64. |
| `Decimal.PrintedParsesIff` | src/server/handler/ampache/response.go:427-447 | The output parses back to the number, and equals what %d prints, if and only if the number is not the least int64. |
| `Decimal.PrintedInjective` | src/server/handler/ampache/response.go:427-447 | Different numbers print differently. |
| `Decimal.ParseCanonical` | src/server/handler/subsonic/ids.go:22-24 | Every int64 survives printing with %d and parsing. |
| `Decimal.ReprintIff` | src/server/handler/subsonic/ids.go:53-59 | Printing a parsed number gives the same text if and only if the text was canonical. |
| `Decimal.CanonicalMeaning` | src/server/handler/subsonic/ids.go:22-24 | What %d prints, digit by digit: the remainder by ten comes last, the quotient before it, a minus sign first. |
| `Decimal.ParseMeaning` | src/server/handler/subsonic/ids.go:53-59 | What is parsed: digits, or a sign and digits, within 64 bits, negative after a minus sign; nothing else. |
| `Decimal.ValueNext` | src/server/handler/subsonic/ids.go:53-59 | A digit after others counts ten times what they do, and itself. |
| `SubsonicIds.DecodeEncode` | src/server/handler/subsonic/ids.go:22-68 | Decoding any encoded id gives back its own prefix and number. |
| `SubsonicIds.EncodeInjective` | src/server/handler/subsonic/ids.go:22-44 | Ids of different kinds or different rows are different strings. |
| `SubsonicIds.DecodesIff` | src/server/handler/subsonic/ids.go:48-68 | A prefix and a number are decoded exactly from that prefix followed by a spelling of the number, or from a bare number. |
| `SubsonicIds.ReencodeIff` | src/server/handler/subsonic/ids.go:48-68 | Encoding what was decoded gives the string back if and only if its number was canonical. |
| `SubsonicIds.NumberOfAnyKind` | src/server/handler/subsonic/ids.go:70-98 | The typed decoders accept an id of any kind. |
| `SubsonicIds.PrefixesDiffer` | src/server/handler/subsonic/ids.go:11-18 | The eight prefixes are those of the source and all different, so ids of different kinds are. |
| `QueryEscape.UrlQueryEscape` | src/client/commands.go:709-725 | The byte loop builds the escaping of the whole string. |
| `QueryEscape.DecodeEscape` | src/client/commands.go:709-725 | Form-decoding the output returns the original, for every byte string. |
| `QueryEscape.EscapeIsWellFormed` | src/client/commands.go:714-722 | The output holds only unreserved characters, '+' and triplets with capital hexadecimal digits. |
| `QueryEscape.EscapeDecodeIff` | src/client/commands.go:709-725 | Escaping what a string decodes to gives the string back if and only if it is well formed and has no triplet where a plain character or '+' would do. |
| `QueryEscape.Escape` | src/client/commands.go:709-725 | The output is between n and 3n bytes long. |
| `QueryEscape.EscapeInjective` | src/client/commands.go:709-725 | Different terms are escaped differently. |
| `QueryEscape.EscapeMeaning` | src/client/commands.go:714-722 | Byte by byte, by code: what becomes a plus sign, what stays, and what becomes a percent sign and which two digits. |

## Left out

- Two scans at once: one scan's cleanup may delete rows another has just inserted; integrity is for scans one after another.
- Song upserts outside a scan (tag edits, the scheduled MusicBrainz lookup): links and confluence are about scans, from a store that has them.
- Concurrent second-factor requests: verification reads and writes the list in separate statements; the laws are for sequential runs.
- Operations on the cache, the limiter and the resolver hold a lock from beginning to end and are modelled as atomic.
- `catalogSongs`: it limits before filtering by library, so the page law does not hold there.
- The song search behind the catalogue, and its limit of 999999, are the list the loop is given.
- Cover art: an upsert of it gives an id or 0; the table, thumbnails and their cache are not modelled.
- Timestamps kept for display, play counts, scan status records and the added, updated and deleted counters.
- Driver errors of the playlist store other than a violated foreign key; ties between equal positions are broken by row id.
- The libraries table: a song's library is assumed to exist.
- Durations and instants are unbounded integers or reals; overflow of `time.Duration` and rounding of float64 are not modelled.
- `MarkSongMissing`, which has no caller; `GetBaseDomain` as a method, which only evaluates `BaseDomain`;
  `GetWildcardDomain`, which reads one field.
- `SetOnionAddress`, `ValidFQDN`, trusted proxies and the resolution order of request hosts.
- The extension test and the exclude patterns of the walk are the parameter `wanted`; a directory that cannot be read lists nothing, and the tree does not change during a walk.
- The walk in the pipeline is the list of paths it sends; `LibraryScan.ScanOfTree` puts the two together.
- The channels, goroutines and contexts of Go are steps of a state machine on values; the scan's store statements are the functions that the methods of `MusicStoring` are proved against.
- The now-playing map beyond its keys, HTTP handlers, templates, encoders, configuration defaults, icecast, podcasts, shares, stars and ratings: one-branch claims.
