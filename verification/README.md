# A model of the media worker's write protocol, caches and bounded structures

The worker serves and stores media beside a Synapse homeserver. It writes to a file system and to two
tables other processes also write, it caches answers other servers own, and it keeps a few structures
bounded. This project models that behaviour in Dafny and proves what its users rely on. The models:

- **The media-store write protocol** (`MediaStore`, over `MediaPathNames` and `PathNames`): temp files,
  renames and rows of any number of remote fetches, synchronous uploads and asynchronous PUTs, as a system
  of steps in which every client may stop after any step. `Handlers` writes the handlers as the code has
  them, one effect after another, with other clients acting in between, and shows that each execution is
  part of a run of the protocol. `Fetch` is the copy, used by both, that produces the length and hash a row
  records.
- **Quotas and pending limits** (`UploadLimits`, `Quota`, `PendingMedia`): the limit check that carries a
  usage figure forward, refined against the one that queries every window; the rolling window over whole
  runs; the exact retry time of `POST /create`. `UploadRuns` keeps owners, dates and the clock beside the
  store's rows and shows that every history of the store, with the limit check reading those rows, is a run
  of `Quota`; the handlers record such histories.
- **The `.well-known` resolver** (`WellKnown`, `Resolver`, `ResolverRuns`, `ResolverRefresh`; section 2.1,
  "Resolving server names", of the Matrix Server-Server API): cache periods, the cache and the memory of valid
  answers as a class, and a thread-level machine of the hand-written per-host lock with the timed cache behind
  it, whose critical section is shown to be one call of the class's sequential refresh.
- **The WebP container** (`Riff`, `WebpAnim`; sections 2.3 and 2.7 of RFC 9649): chunk parser and printer,
  and the extraction of an animation's first frame as a still.
- **Bounded structures and arithmetic**: the token verdict LRU (`TokenCache`), the least-connections pool
  (`Proxy`, `ProxyRuns`), the thumbnail cache sweep (`ThumbCache`) and the resize arithmetic (`Thumbnail`).

`Common` holds shared types and `Runs` the two ways of reasoning over runs of a labelled step system.

Assumptions the code does not enforce, stated in the models: a failed SQL statement had no effect;
`os.Remove` succeeds; random 24-letter IDs and temp names are not in use (`Fresh`, `OpenTemp`); nobody
deletes rows during a run; a process that stops just stops, with no power loss; the clock never runs
backwards. SHA-256 is any function from bytes to strings. Whether the n-th effect of a handler fails, its copy to
disk and each statement among them, is given (`World.fails`), and a fault is one that does. Where a run begins with rows that are already
broken (no matching file), the claims are about the other rows.

Where the code does less than it might seem to promise, the exact condition is proved:

- A cleaned path keeps its components exactly when none of them is `.` or `..` (`JoinIsVerbatim`). A local
  media ID shares its file with another ID if and only if its second or third shard is `..`; for remote media
  it is any shard (`SharedExactly`, `RemoteSharedExactly`, with the pair in `DottedIDsCollide`). IDs without
  dot shards, the worker's own letter IDs among them, never do (`FilesAreDistinct`).
- A request for remote media whose row is there but whose file is gone never mends it: it downloads the media
  again, loses the insert to that row, and answers with it, and the file stays missing (`FetchAndStore`,
  `StepKeepsFile`).
- Uploads that overlap between limit check and row can exceed a window's limit: K of them stay within K times
  it, and for every K a run reaches that (`OverlapBoundsTheWindow`, `OverlapCanExceed`).
- `retry_after_ms` is exact if and only if fewer than the limit were reserved since the oldest expired, or
  since the answer if that is later (`RetryAfterIsExact`; `RetryAfterTooShort` where it is not). For a user
  whose creates are serialised it always is (`SerialRefusalsAreExact`).
- A `max-age` is kept for as long as it says, within the clamp, if and only if it fits in int64 nanoseconds or
  wraps past the same end of the clamp (`MaxAgeClamps`); 9223372037 seconds are kept for five minutes
  (`LongMaxAgeIsCut`).
- A round of the pool gives every endpoint a turn if and only if the uint64 counter does not wrap inside it or
  the number of endpoints divides 2^64 (`CoversExactly`). A request that gives up without an error of its own
  has asked everyone if and only if it left the loop by the count of its tries; if it left because a round met
  nobody untried, that round had no turn for somebody it never asked (`GaveUpExactly`). Every such request of
  every run has asked everyone if and only if the pool is empty or its size divides 2^64
  (`UnreachableAfterAll`); for every other size there is a run in which one gives up with the last endpoint
  never asked (`GivesUpTooSoon`).
- The sweep's comparator orders two access times if and only if their difference fits in an int64
  (`CompareOrders`).

Run `dafny verify dfyconfig.toml` to check everything.

## Model

| member | source | states |
|---|---|---|
| MediaStore.StepKeeps | store.go:66-181 | every step of every client keeps the whole invariant: files, rows, owners and IDs |
| MediaStore.RemoteRowsAreBacked | store.go:92-135 | in every reachable state a `remote_media_cache` row names a file with its length and hash, and the row never changes again |
| MediaStore.FetchersAgree | store.go:66-135 | winners and losers for one (origin, media ID) all answer with the stored row, hence one filesystem ID, and its file is intact |
| MediaStore.RowsPersist | db.go:332-370 | rows only appear, and a row with a length never changes |
| MediaStore.StepKeepsFile | store.go:94-135 | no step takes away the file of a remote row or puts one where it is missing |
| MediaStore.AtMostOneWinner | db.go:458-475 | over a run `CompleteLocalMedia` succeeds at most once for a media ID |
| MediaStore.OnlyTheWinnerTouches | upload.go:270-295 | the final path of a media ID with a row is touched only by its winner's rename |
| MediaStore.CompletedRows | upload.go:255-295 | a completed row lacks its file if and only if its winner is (or stopped) before the rename, or that rename failed earlier; a file that is there is whole |
| MediaStore.StoredStaysReadable | upload.go:124-145 | an upload that answered success has its file with the row's length and hash |
| MediaStore.NoLitter | store.go:94-135 | a new file no row describes belongs to a client that has not finished, whichever steps failed |
| MediaStore.NoTempLeft | upload.go:420-478 | a new temp file that is there is owned by exactly one client, and that client has not finished |
| MediaStore.RealPathsAreSound | paths.go:116-156 | the naming of paths.go gives the protocol distinct files for distinct places |
| UploadRuns.EventKeeps | upload.go:197-288 | every event keeps the store's invariant, one account per row, a PUT's media ID its user's, and the bytes of each upload between limit check and row whole |
| UploadRuns.EventRefines | upload.go:488-548 | every step of the store, limit check and tick of the clock is a step of Quota over the rows of the store, or none |
| UploadRuns.HistoryIsRun | upload.go:89-145 | without its book a history is a run of the write protocol, to the same end |
| UploadRuns.HistoryKeeps | db.go:442-475 | over a history rows only appear, a row with a length never changes, and neither does any row's owner or date |
| UploadRuns.RowsAreTheStores | db.go:501-513 | the rows the usage query reads are the store's, each once, with owner, date and length |
| UploadRuns.AllowsExactly | upload.go:516-548 | the check lets an upload pass if and only if it breaches no limit over those rows |
| UploadRuns.StoreKeepsWindows | upload.go:488-548 | over every history of the store that begins within a user's limits, the user's bytes in a window, summed over the store's own rows, stay within K times the limit if at most K uploads of that user overlap between check and row |
| Handlers.World.Take | store.go:66-135 | one effect of a handler is one step of the protocol, booked with it, and extends the recorded history |
| Handlers.World.Others | upload.go:255-295 | between two effects any other clients act, and none of them moves this one |
| Handlers.World.Receive | upload.go:450-462 | the shared copy into the temp file: an accepted one has the length and hash of all that was sent; one that fails met a broken connection or an effect that fails |
| Handlers.World.Download | store.go:148-181 | the temp file holds exactly the body, described by its length and hash; or it is removed and the handler fails, after a fault, for a broken connection or for a body over the limit |
| Handlers.World.Install | store.go:99-103 | the rename puts these bytes at the final path, or the temp file is removed |
| Handlers.FetchAndStore | store.go:66-135 | media whose file is there is answered with its row and nothing is read from the network, unless the lookup fails; otherwise it fails only after a fault, for an invalid server, a broken connection or a body over the limit, and a success answers with the row in the table, intact, and of these bytes unless a row was there first; a row whose file is missing is answered but never mended |
| Handlers.FindStored | store.go:66-78 | the early answer is given if the media is available when it is asked for and the lookup does not fail, and only if the file of the row was there at a moment since |
| Handlers.InsertRemote | db.go:332-370 | the row is inserted exactly if none is there, and otherwise left alone |
| Handlers.StoreRemote | store.go:115-135 | row second: a failure or a lost race removes this client's own file, and a loser answers with the winner's row |
| Handlers.RereadWinner | store.go:122-135 | the winner's row is still there to be read |
| Handlers.StoredUpload.Commit | upload.go:396-404 | the bytes are at their final path, or the temp file is gone and the handler has failed |
| Handlers.StoredUpload.Discard | upload.go:406-412 | the temp file is removed once; the final path is not touched |
| Handlers.Judge | upload.go:488-548 | an upload passes exactly if evaluateUploadLimits finds nothing against it over the rows of the store at that moment |
| Handlers.StoreAndCheck | upload.go:420-505 | an upload that a fault, its size or the limits over the store's rows refuse leaves no temp file; otherwise the bytes are sealed in one and the upload has passed at a moment since the start |
| Handlers.FaultsHappen | upload.go:89-300 | a handler counts a fault exactly if one of its effects fails |
| Handlers.HandlersKeepWindows | upload.go:89-300 | at every moment of what the handlers record, a user who began within the limits and has at most K uploads between check and row is within K times every limit |
| Handlers.HandleUpload | upload.go:89-145 | file before row; it fails only after a fault, for a broken connection, for a body over the size limit or one the limits refused at some moment since it began; success leaves the user's row and the file of exactly the bytes sent |
| Handlers.InsertLocal | upload.go:128-142 | the row of the file in place is written, or the file is removed |
| Handlers.LookUpReserved | upload.go:220-250 | a PUT goes on exactly if the media ID is known, the user's, without content and unexpired; otherwise the first of unknown, foreign, already uploaded and expired that holds is the reason, or the query failed |
| Handlers.OneReasonStands | upload.go:220-250 | at most one of the four reasons holds, and none of a pending, unexpired media ID of the user's |
| Handlers.HandleAsyncUpload | upload.go:197-300 | row before file; success leaves the user's row and the file of exactly the bytes sent, a conflict means the caller's own ID is completed, and a failure has one of the causes the code tests, a fault or a broken connection, with the refusal that stood at some moment since it began |
| Handlers.UpdateRow | db.go:458-475 | the row is completed exactly if it has no length yet, and otherwise left alone |
| Handlers.CompleteLocal | upload.go:270-288 | only the winner of the row goes on to the final path; losers and failures discard |
| Fetch.CopyBody | fetch.go:215-232 | at most one byte past the limit is written; accepted if and only if the body ends, within the limit, and the disk takes it, with the length and hash of the bytes on disk; too large if and only if the disk takes a byte past the limit |
| PathNames.RenderInjective | paths.go:116-122 | different clean component lists are different path strings |
| PathNames.CleanJoin | paths.go:116-118 | cleaning the base with components appended resolves those components on top of it |
| PathNames.BelowByPrefix | paths.go:119-121 | the string-prefix test is true exactly for paths component-wise below a base other than the root |
| MediaPathNames.JoinStaysInside | paths.go:116-122 | whatever the elements, with slashes or dots in them, an accepted path is the base or below it, and all such paths are accepted |
| MediaPathNames.JoinIsVerbatim | paths.go:76-156 | the components survive cleaning exactly when none is a dot name |
| MediaPathNames.ShardsArePlain | fsid.go:20-39 | letter-only IDs have no dot shards |
| MediaPathNames.PathsAreSynapses | paths.go:125-156 | base/local_content/aa/bb/rest and base/remote_content/server/aa/bb/rest |
| MediaPathNames.FilesAreDistinct | paths.go:125-156 | IDs without dot shards, server/ID pairs and temp names that differ have different files |
| MediaPathNames.SharedExactly | paths.go:76-131 | an accepted local ID shares its file with another valid ID if and only if its second or third shard is dot-dot |
| MediaPathNames.RemoteSharedExactly | paths.go:148-156 | a server and ID share their file with another pair if and only if any shard is dot-dot |
| MediaPathNames.DottedIDsCollide | paths.go:76-84 | two valid IDs with dot-dot shards share one path |
| MediaPathNames.MediaPaths.AllowUploadWrites | paths.go:261-263 | allowing uploads only widens the guard |
| MediaPathNames.WritableExactly | paths.go:265-290 | the write guard accepts exactly the rooted paths, clean or not, that lead below the base into a listed top directory |
| UploadLimits.LaterIsLess | db.go:501-513 | a later start never counts more bytes |
| UploadLimits.UploadedAppend | db.go:501-513 | a further row counts exactly if it is the user's, later than the start and has a length |
| UploadLimits.StableSortSorts | config.go:678-683 | limits come out longest window first, ties in configured order |
| UploadLimits.StableSortUnique | config.go:678-683 | those two facts determine the result |
| UploadLimits.ParseMediaUploadLimits | config.go:651-685 | one limit for each entry, with its size as bytes, its period as window and the fallback URI if it names none, longest window first and ties in order; or the index of the first entry that does not parse |
| UploadLimits.EvaluateUploadLimits | upload.go:530-548 | the loop computes the specified verdict; it queries each limit at most once, the first always, and a later one only if the figure in hand would refuse |
| UploadLimits.EvaluateRefines | upload.go:522-548 | carrying the figure forward gives the verdict of querying every window, for any usage that does not grow with a later start |
| UploadLimits.EvaluateOverRows | upload.go:516-548 | over the table the verdicts agree always, and nil means exactly that every limit is respected |
| UploadLimits.FirstBreachedIsFirst | upload.go:530-548 | the limit reported is the first in order that the upload breaches |
| UploadLimits.OrderMatters | upload.go:510-515 | with limits in the other order the carried figure lets a breach through |
| Quota.OverlapBoundsTheWindow | upload.go:488-548 | with at most K uploads of a user between check and row, every window stays within K times its limit at every moment |
| Quota.WindowNeverExceeded | upload.go:115-140 | a user whose uploads do not overlap never exceeds any window, sync and async mixed |
| Quota.OverlapCanExceed | upload.go:488-505 | for every K, a run of K overlapping uploads reaches K times the limit |
| Quota.CompletedAdds | db.go:458-475 | completing a reserved row, dated by its reservation, adds at most its bytes to its owner's window |
| PendingMedia.LocalMediaTable.CountPendingMedia | db.go:479-493 | counts the user's rows without a length created after the start, and finds the earliest date among them |
| PendingMedia.PendingIsCount | db.go:479-493 | the count over the table is the number of those rows |
| PendingMedia.LocalMediaTable.UploadedSizeForUser | db.go:501-513 | sums a user's completed bytes since a time |
| PendingMedia.LocalMediaTable.StoreLocalMediaID | db.go:442-449 | reserves a new ID; a taken one is an error and changes nothing |
| PendingMedia.HandleCreateMedia | upload.go:148-193 | refuses if and only if the user has the limit of pending IDs or more, with the time to the earliest expiry, and otherwise reserves one row dated now; a failed statement or a taken ID changes nothing |
| PendingMedia.RetryAfterIsExact | upload.go:160-175 | with nothing else happening a create is refused at every earlier millisecond, and succeeds at that one if and only if fewer than the limit remain |
| PendingMedia.RetryAfterTooShort | upload.go:166-170 | with two IDs pending under a limit of one the time answered is too short |
| PendingMedia.SerialRefusalsAreExact | upload.go:160-183 | in any run with creates serialised, a refusal's time is the first millisecond at which a create succeeds |
| PendingMedia.PendingStaysBounded | upload.go:160-183 | with creates serialised pending IDs never exceed the limit, and overlap by K adds at most K - 1 |
| WellKnown.ValidPeriodBounds | resolver.go:358-364 | an answer is kept for five minutes to 48 hours whatever the headers say |
| WellKnown.ValidPeriodByHeader | resolver.go:427-455 | no-store is five minutes; without max-age the Expires time decides, clamped, or five minutes if it does not parse; without either 24h, give or take a tenth |
| WellKnown.DirectiveIsLast | resolver.go:427-436 | a directive given twice counts with its last value |
| WellKnown.AtoiOfDecimal | resolver.go:441-442 | every int64 written in decimal is read back, with a sign or without, and nothing larger |
| WellKnown.MaxAgeClamps | resolver.go:427-445 | max-age is honoured up to the clamp if and only if it fits in int64 nanoseconds or wraps past the same end |
| WellKnown.LongMaxAgeIsCut | resolver.go:441-445 | max-age=9223372037 is kept for five minutes |
| WellKnown.FailurePeriodBounds | resolver.go:270-276 | a failure is cached at most 132 s exactly when a valid answer is remembered, and at least 54 min otherwise |
| WellKnown.RequestWellKnown | resolver.go:378-398 | what the last request makes of it; another is made only if retries are wanted, the last was unreachable, fewer than three were made and the pause was completed |
| WellKnown.FederationTransport.CachedWellKnown | resolver.go:290-303 | the cached delegation before expiry, fresh if and only if more than a fifth of its life is left |
| WellKnown.FederationTransport.FetchWellKnown | resolver.go:339-374 | a valid answer is kept for its headers' clamped period and remembered to its expiry plus 2h, an empty one forgets, a failure changes nothing; only a rejection is not temporary |
| WellKnown.FederationTransport.Refresh | resolver.go:248-287 | no request exactly while more than a fifth of the life of the entry is left; an answer replaces the entry, a rejection caches that there is no delegation, any other failure keeps a delegation still cached, untouched, and else caches none; other hosts stay as they are |
| Resolver.StepKeepsLock | resolver.go:313-335 | every step of every goroutine keeps the lock's invariant |
| Resolver.StepKeepsCache | resolver.go:237-287 | every step keeps cache, memory and goroutines consistent |
| ResolverRuns.AtMostOneHolder | resolver.go:313-335 | one holder per host at every moment of every run |
| ResolverRuns.NeverClosedTwice | resolver.go:321-326 | a channel that is about to be closed is not closed |
| ResolverRuns.NoStrandedWaiter | resolver.go:313-335 | a waiter's channel is closed, or in the map with a holder, or removed with its owner about to close it |
| ResolverRuns.OwnersFinish | resolver.go:237-287 | an owner is at most ten of its own steps from closing its channel, and nobody sets it back |
| ResolverRuns.DelegationsAreHonest | resolver.go:237-303 | a returned delegation was answered by that host, stored for 5m to 48h, and unexpired at the last cache check |
| ResolverRuns.EntryStays | resolver.go:280-285 | only a store for its host changes an entry |
| ResolverRuns.FailuresExtendNothing | resolver.go:262-285 | an entry naming a delegation is written only for a successful fetch |
| ResolverRuns.NoEarlyRefetch | resolver.go:242-253 | after a store no request for the host goes out before four fifths of the period it was stored for have passed |
| ResolverRuns.CachedIsAnswered | resolver.go:237-247 | a call answers from the cache at once, without the lock, if and only if more than a fifth of the life of the entry is left; one that gives up waiting answers with what is unexpired |
| ResolverRuns.FreeLockRemembers | resolver.go:366-372 | while no one holds the lock a cached delegation is remembered to its expiry plus 2h, less the gap of two clock readings |
| ResolverRuns.LaterFailuresAreShort | resolver.go:262-285 | from then until the next success a cached failure lasts at most 2m x 1.1 exactly while the memory lasts |
| ResolverRefresh.SectionIsOneRefresh | resolver.go:248-287 | however goroutines interleave, between taking and giving up a host's lock its entry and memory change as by one sequential refresh, by the last of the requests such a refresh makes, and its result is returned |
| Riff.WalkChunks | webpanim.go:105-121 | the parser's loop terminates in bounds and returns the chunks that tile the data |
| Riff.RawChunk | webpanim.go:125-136 | the bytes of a chunk with its header and pad |
| Riff.ParseIffTiles | webpanim.go:51-68 | a chunk list is the parser's result exactly when its chunks lie end to end and no further one follows |
| Riff.ParsePrintAll | webpanim.go:51-136 | after any header, parsing the printed chunks gives exactly those chunks with nothing left over |
| WebpAnim.IsAnimatedWebP | webpanim.go:27-37 | the animation bit of the first feature header decides |
| WebpAnim.PutUint24 | webpanim.go:164-168 | three little-endian bytes in place, the rest of the buffer unchanged |
| WebpAnim.BuildStillWebP | webpanim.go:141-162 | the container holds the image, preceded by VP8X and ALPH when there is alpha |
| WebpAnim.FirstWebPFrame | webpanim.go:73-102 | succeeds exactly on animations with a usable frame, with the first such frame's last image and alpha |
| WebpAnim.WrittenAnimationIsTaken | webpanim.go:27-162 | of any file with an animated ten-byte VP8X, whose first long enough ANMF carries chunks with a lossy or lossless image among them: a still is returned, byte for byte the last image, with the last alpha and the header of the frame if there is alpha |
| WebpAnim.StillIsNoLonger | webpanim.go:73-102 | the still is never longer than the animation |
| WebpAnim.StillIsWellFormed | webpanim.go:141-162 | the still parses, with nothing left over, to exactly its chunks; its RIFF size is its length less 8; it is not animated |
| TokenCache.TokenAuthenticator.Lookup | authclient.go:276-291 | a hit moves to the front, an expired entry goes from map and list, which keep agreeing |
| TokenCache.TokenAuthenticator.Store | authclient.go:293-311 | an update or a new front entry, with eviction from the back |
| TokenCache.NeverOutgrows | authclient.go:303-310 | over any operations no key is held twice and the size stays within maxEntries |
| TokenCache.HitsAreCurrent | authclient.go:276-291 | a hit is the verdict last stored for the key and is not past its expiry |
| TokenCache.SurvivesWhileFew | authclient.go:276-311 | a used entry stays while fewer than maxEntries other keys are used, and is gone once maxEntries are with none expiring between |
| TokenCache.HitWhileFew | authclient.go:276-311 | so an unexpired key answers with its last verdict under that condition, after any history |
| Proxy.CoversExactly | proxy.go:119-125 | every endpoint has its turn exactly when the counter does not wrap in the round or the pool size divides 2^64 |
| Proxy.Proxy.RoundsCoverExactly | proxy.go:143-148 | the same for all rounds one request can need |
| Proxy.Proxy.Pick | proxy.go:119-135 | the first least-loaded untried endpoint in rotation; none only if nobody met in the round is untried |
| Proxy.Proxy.RoundTrip | proxy.go:143-192 | each endpoint asked at most once, each when it is the first least busy of those not asked before, in rounds that begin one after another; all but the last unreachable; unreachable as a whole after all were asked exactly if no round met nobody untried, and otherwise after a round that leaves someone out; undisturbed, counters balance |
| Proxy.ReleasingBody.Close | proxy.go:206-216 | releases the endpoint once, however often it is called |
| ProxyRuns.CountersAreExact | proxy.go:162-186 | over every interleaving of the atomic operations a counter is the number of pending calls and unclosed bodies |
| ProxyRuns.ChoosesLeastBusy | proxy.go:119-135 | over every interleaving whoever is chosen is the first least busy, of those not asked, by the loads its scan looked at |
| ProxyRuns.LoadsAreRead | proxy.go:129 | those loads are the counters at the moments they were looked at |
| ProxyRuns.AsksAgainAfterDialError | proxy.go:160-171 | a request asks a further endpoint only after a call came back with no connection |
| ProxyRuns.MissLeavesSomeone | proxy.go:119-135 | a round gives everyone a turn if and only if no request with tries left can meet nobody untried in it |
| ProxyRuns.GaveUpExactly | proxy.go:143-191 | over every interleaving a request that gives up without an error of its own has asked everyone if and only if it left by the count of its tries; a last round that met nobody untried had no turn for somebody |
| ProxyRuns.UnreachableAfterAll | proxy.go:119-191 | with fewer than 2^64 endpoints, every such request of every run has asked everyone if and only if there are none or their number divides 2^64 |
| ProxyRuns.UnreachableBeforeWrap | proxy.go:119-135 | a request has asked everyone as long as the counter is short of its wrap, and always in a pool that is empty or whose size divides 2^64 |
| ProxyRuns.GivesUpTooSoon | proxy.go:119-151 | for every pool size that does not divide 2^64 a run in which a request gives up with the last endpoint never asked |
| ProxyRuns.AskedOnce | proxy.go:144-152 | a request never asks one endpoint twice |
| ThumbCache.CompareOrders | thumbcache.go:155-157 | the int64 difference orders two times exactly when it fits |
| ThumbCache.ThumbnailCache.Walk | thumbcache.go:126-145 | lists every file once and adds up their sizes |
| ThumbCache.ThumbnailCache.Sweep | thumbcache.go:122-171 | of the listed files, whatever others do meanwhile: freed plus kept is the listed total; within the limit unless all kept refused removal; oldest first; putting back the last removed would exceed the limit |
| Thumbnail.AspectFits | thumbnail.go:111-116 | fits the box, fills the side that binds, at least one pixel, proportions to under a pixel unless less than one was left |
| Thumbnail.AspectIsLargest | thumbnail.go:111-116 | no size in the box within those proportions is larger either way |
| Thumbnail.CropIsCentred | thumbnail.go:120-131 | exactly the requested size, inside the scaled image, centred to within a pixel |
| Thumbnail.CropCovers | thumbnail.go:120-131 | the scaled image covers the box with one side equal and proportions to under a pixel |
| Thumbnail.ClampIsEither | thumbnail.go:246-250 | the no-upscale clamp gives aspect's answer or exactly the source size |

## Left out

- HTTP routing, headers, CORS, logging, metrics, configuration wiring and signal handling: plumbing around the models.
- Image decoding, resampling and encoding, EXIF orientation, SHA-256, multipart reading, server-name parsing and federation signing: foreign libraries.
- DNS, TLS, PostgreSQL and YAML themselves: each is a nondeterministic outcome or an atomic step on a map.
- `singleflight` in store.go: all concurrent callers are allowed instead, a larger set of runs.
- Columns that no claim reads: media types, names, authentication and quarantine marks, last-access times and the batched access-time maps of db.go.
- `WriteThroughRemoteThumbnail`: it keeps its file if the row write fails, so it is outside the no-litter claim.
- Readers waiting for an upload or opening files: a reader may see an asynchronous row before its file, by design.
- `url_cache` paths: one separator is dropped there, so they are not injective; the guard never lets them be written.
- The resolver's SRV half and its fallback chain; splitting and trimming of Cache-Control text happens before the model's `Headers`.
- `0.2 * float64(ttl)` is modelled as an exact fifth rounded down, and jitter as a real number in 0.9 to 1.1: rounding of float64 is not modelled.
- Overflow of int64 byte counts and clocks in upload.go and db.go: figures there are far below 2^63.
- The clock may move between the two readings of a handler where a property says so; elsewhere one reading is one step.
- Proxy.Proxy.RoundTrip: a choice looks at all loads in one instant there; ProxyRuns looks at them one by one.
- UploadRuns.Allows: the queries of one limit check see the table at one moment there; in the code each is a statement of its own.
- The pending limit of `POST /create` is proved over its own table (`PendingMedia`), not over the rows of `UploadRuns`.
- ThumbCache.ThumbnailCache.Sweep: files that come and go during the walk itself are not modelled; before it and between removals they are.
- Handlers.World.Receive: the bytes of one body reach the temp file in one step; MediaStore lets a client stop after any part of them.
- Power loss: no directory is synced, so a rename can be lost with it.
