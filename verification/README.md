# ScreenSpace: models and proofs

ScreenSpace is a live-wallpaper application for macOS with a Go server behind it. This project
models seven small stateful cores of it in Dafny and proves what each keeps over whole runs.

| part | modules | source form |
|---|---|---|
| wallpaper lifecycle | `Wallpapers`, `WallpaperProtocol`, `WallpaperServer`, `WallpaperRuns` | a protocol of atomic steps, a class for the handlers and the service, and the link between the two |
| ban cache | `BanProtocol`, `BannedCache`, `BanRuns` | a protocol with a clock, classes for the cache, the middleware and the admin calls, and the link between the two |
| rate limiter | `RateLimiter` | a class, and runs of its specification |
| flow layout | `FlowLayout` | a loop over items, proved against a cursor specification |
| disk cache | `DiskCache` | a class over a directory of files |
| event log | `EventLog` | a class over a directory of named files |
| lists kept in several copies | `Favorites`, `Playlists` | classes for the service, the manager and the view models |

`Common` holds an option type, Go's integer conversions and the decimal text of a number.

Code that changes state step by step is a class whose methods are proved against a specification
function (`Serial`, `Step`, `Next`, `Written`, `AfterEviction`, ...). The theorems are about those
functions. In the two protocols every database statement, object-store call and cache operation is
one atomic step, calls in flight are part of the state, and a run is any sequence of steps; a step
whose guard fails changes nothing, so runs are not filtered. `WallpaperRuns.SerialIsInterleaving` and
`BanRuns.SerialIsInterleaving` tie the two views together: each method's effect is one schedule of the
protocol.

Outcomes of foreign calls (the prober, ffmpeg, the object store, database errors, the network, the
clock) are parameters, and every theorem holds for all of them unless it says otherwise.

## What the proofs show about the code

These are properties that the code, its comments or its names promise and that hold only in part.
Each has the exact condition under which it holds, or a lemma with the input on which it fails, or
both.

- The comment on Finalize says that the transition is enforced to be from pending to pending_review
  only (`server/internal/service/wallpaper.go:33-36`). The check reads first and the UPDATE is
  unconditional, so a slow second Finalize takes an approved row back to review
  (`SlowFinalizeUndoesApproval`), and an Approve racing a Reject leaves a rejection reason on an
  approved row (`ApproveRejectRace`); both happen from an empty database (`RacesAreReachable`). A
  run keeps to the lifecycle if and only if every status write finds the status its call read or the
  one it writes (`RunIsLegalExactly`), as it does while no row has two status writers in flight
  (`OneWriterPerRowSuffices`). Provenance of the storage key, and of the media columns from a probe
  that passed the checks, survive every interleaving and every prober.
- Probed dimensions pass through `int32`. In every run, a published row has the minimum height and a
  matching resolution text exactly when they fit (`PublishedRowsMeetLimitsExactly`); a height of
  2^32 would be stored as 0 (`HugeHeightSlipsThrough`). Size, duration, codec and keys are in order
  in any case.
- The message about long titles speaks of characters and the check counts bytes
  (`server/internal/handler/wallpaper.go:173-175`). For every limit it refuses some title of just that
  many characters (`AccentedTitleRefused`); it decides a title by its characters, whatever the limit,
  exactly when all of them are single bytes (`TitleLimitCountsCharactersExactly`).
- An accepted local copy is the whole object exactly when MaxFileSize is below 2^63 - 1: at that
  value the extra byte wraps the limit round (`AcceptanceMeansWholeCopy`).
- Finalize restores the temp directory exactly when it does not reach ffmpeg, or no file was there
  under a name that gets removed and no failing ffmpeg run left anything new (`Server.Finalize`): the
  clean-up is registered only after success, and only the clip's own name is known to be unused.
- A ban that has been written and evicted takes effect at once exactly when no middleware call still
  holds an older reading (`EvictionIsPromptExactly`); otherwise one TTL plus the lag between read
  and store bounds the delay, and the bound is attained.
- The cached check decides like one without a cache, over whole runs without overlap, if and only if
  no read fails for a user in good standing without a live entry (`RunRefinesExactly`). After such a
  failure the user is refused until the TTL has passed or a ban or unban evicts the entry
  (`FailedReadLastsOneTtl`, `EvictionEndsRefusal`). This rests on subjects and eviction keys having one
  spelling, which the tokens that the server issues do (`VariantOutlivesEviction` says why).
- The Retry-After hint is enough exactly when the window is a whole number of seconds, and then only
  for a retry strictly later than the hint (`HintSufficesExactly`, `RetryWithinWindowCanFail`); it is
  never longer than it need be (`HintIsNotTooLong`).
- The flow layout reports one trailing spacing. Its width keeps to the proposal exactly when every
  item leaves room for one more spacing (`WidthKeepsToProposalExactly`), so a row that fills the
  proposal is reported too wide unless the spacing is zero (`FullRowOverhangs`); and it exceeds the
  proposal by at most that one spacing exactly when no single item is wider than the proposal
  (`OverhangIsOneSpacingExactly`), which a caller can use by proposing one spacing less
  (`ReservedSpacingKeepsWidthExactly`).
- `cacheFile` can return the path of a file that its own eviction has removed, and a failing copy
  loses the file that was cached before (`CacheManager.CacheFile`). Which files survive an eviction is
  decided exactly by the tally that the older ones leave (`SurvivesExactly`).
- The event log's size is bounded exactly when the file count is at least one
  (`SizeIsBoundedExactly`); below that it never drops anything (`CountBelowOneKeepsEverything`).
- Paging rebuilds the list exactly when the server's cap covers the page size or the whole list
  (`PagingRebuildsExactly`). A failed reload resets the offset but keeps the list, so the second page
  comes to stand in the favourites twice (`FailedReloadRepeatsPage`). The favourites stay in order
  and free of repetition, over whole runs, if and only if each answered loadMore is a later attempt
  since the last load than the one answered before (`OrderKeptExactly`).
- A failed removal of a playlist file is ignored, and an update for an unknown id reaches the disk
  only; `RunAgreesExactly` says exactly in which runs disk and memory stay in step, and
  `LoadAgreesExactly` when a fresh load begins in step.

## Model

| member | source | states |
|---|---|---|
| Wallpapers.ValidateVideo | server/internal/service/wallpaper.go:125-139 | no error exactly when size and duration are within their limits, the height reaches the minimum and the codec is h264 or h265; each error only when its own check fails and the one before it passes |
| Wallpapers.KeyTextInjective | server/internal/handler/wallpaper.go:190-202 | the placeholder and the three keys of each id have pairwise distinct texts, so no key can be mistaken for another |
| Wallpapers.ResolutionTextInjective | server/internal/service/wallpaper.go:64 | the resolution text determines both dimensions, signs included |
| Common.ConversionsWrap | server/internal/service/wallpaper.go:67-68 | the conversions to 32 and 64 bits land in range and change a number by whole multiples of their modulus |
| Common.DecimalOfNat | server/internal/service/wallpaper.go:64 | a printed number reads back as that number, in digits only and without leading zeros |
| WallpaperProtocol.ProbedRowMeetsLimitsExactly | server/internal/service/wallpaper.go:64-76 | a row made from a probe that passed the checks is within the limits, with consistent text and its own asset keys, exactly when both dimensions fit an INT |
| WallpaperProtocol.HugeHeightSlipsThrough | server/internal/service/wallpaper.go:65-68 | a probed height of 2^32 passes the check and is stored as 0, below the minimum |
| WallpaperProtocol.ApplyGrows | server/db/queries/wallpaper.sql:44-84 | no step of any call takes back a row, an assigned key, a departure from pending, an object, an issued URL or a signed URL |
| WallpaperProtocol.UpdateRowOk | server/internal/service/wallpaper.go:92-98 | the final UPDATE leaves a row in order because object present implies URL issued implies key set |
| WallpaperProtocol.ApplyKeepsInv | server/internal/service/wallpaper.go:37-227 | every step of every call, whatever else is in flight and whatever the prober says, keeps the validity and provenance invariant |
| WallpaperProtocol.RunKeepsInv | server/internal/service/wallpaper.go:37-227 | so does every run |
| WallpaperProtocol.PublishedRowsAreValid | server/db/queries/wallpaper.sql:59-74 | from an empty database under every interleaving, a row that has left pending shows the media that the prober reported of that wallpaper in a reply that passed the checks, has its assets and its original stored, names the finalized key, and stays so in every continuation |
| WallpaperProtocol.PublishedRowsMeetLimitsExactly | server/internal/service/wallpaper.go:55-76 | in every run, such a row is within the limits on size, duration and codec and owns its asset keys; it also has the minimum height and a resolution text that matches its columns exactly when the probed dimensions fit an INT |
| WallpaperProtocol.SignedDownloadsHaveProvenance | server/internal/handler/wallpaper.go:190-261 | every download URL ever signed names the requested wallpaper's own original, which is stored and was uploaded through an issued URL |
| WallpaperProtocol.FinalizeStepsEffect | server/internal/service/wallpaper.go:49-79 | the remaining steps of a Finalize call in flight, uninterrupted, write the finalized row and add exactly the two assets, whatever the row's status has become |
| WallpaperProtocol.SlowFinalizeUndoesApproval | server/internal/service/wallpaper.go:45-76 | two overlapping Finalize calls can take an approved row back to pending_review |
| WallpaperProtocol.ApproveRejectRace | server/internal/service/wallpaper.go:191-224 | overlapping Approve and Reject can leave an approved row with a rejection reason |
| WallpaperProtocol.RacesAreReachable | server/internal/service/wallpaper.go:37-227 | both races happen in runs from an empty database, to every wallpaper with a valid video |
| WallpaperProtocol.StatusWriteIsLegalExactly | server/db/queries/wallpaper.sql:44-74 | a status write keeps the lifecycle and the reason rule exactly when the row still has the status read, or already the one written |
| WallpaperProtocol.RunIsLegalExactly | server/internal/service/wallpaper.go:37-227 | a run keeps a row to the lifecycle and the reason rule if and only if every write of its status finds the status its call read, or the one it writes |
| WallpaperProtocol.OneWriterPerRowSuffices | server/internal/service/wallpaper.go:45-227 | so it does in every run without two status writers on one row, whatever else overlaps |
| WallpaperServer.BoundedCopyDecidesAsWhole | server/internal/service/wallpaper.go:107-128 | for every limit, validating the copy of at most MaxFileSize + 1 bytes gives the verdict of the whole object |
| WallpaperServer.AcceptanceMeansWholeCopy | server/internal/service/wallpaper.go:107-128 | an accepted copy is never truncated, exactly when MaxFileSize is below 2^63 - 1 |
| WallpaperServer.LocalCopyIsPrefix | server/internal/service/wallpaper.go:107-108 | the local copy is the beginning of the object, of at most MaxFileSize + 1 bytes |
| WallpaperServer.TitleLimitCountsCharactersExactly | server/internal/handler/wallpaper.go:173-175 | the title check decides by the number of characters, whatever the limit, exactly when every character of the title is a single byte |
| WallpaperServer.AccentedTitleRefused | server/internal/handler/wallpaper.go:173-175 | for every positive limit a title of just that many characters is refused |
| WallpaperServer.Utf8LengthIsLeast | server/internal/handler/wallpaper.go:173 | a character counts as the fewest bytes of UTF-8 whose payload holds its code point |
| WallpaperServer.Server.Create | server/internal/handler/wallpaper.go:160-219 | titles are checked in bytes, then the category, each with its error; a refused request changes nothing; then row, key and URL, and each failure leaves exactly the earlier writes; the new row holds the arguments and nothing else |
| WallpaperServer.Server.Finalize | server/internal/service/wallpaper.go:37-89 | success exactly when every stage succeeds; every error; on success the media columns alone have changed, the thumbnail key holds the thumbnail and the preview key the preview; the stored assets on every path; the temp directory is as before exactly when ffmpeg is not reached, or no file was there under a name that gets removed and no failing ffmpeg run left anything new |
| WallpaperServer.Server.Process | server/internal/service/wallpaper.go:49-62 | the stages between read and update: which objects appear, which error is reported, and the temp directory on every path, names already in use included |
| WallpaperServer.Server.DownloadAndProbe | server/internal/service/wallpaper.go:92-122 | on success the only change is one temp file holding the bounded copy; on failure none |
| WallpaperServer.Server.GenerateAndUploadAssets | server/internal/service/wallpaper.go:142-176 | both assets are stored or exactly the first one or none, according to the failing stage; the files made are removed, and what a failing ffmpeg run leaves stays |
| WallpaperServer.Server.UploadAssets | server/internal/service/wallpaper.go:155-173 | the thumbnail file is stored under the thumbnail key and then the preview file under the preview key; a failure leaves exactly what was stored before it |
| WallpaperServer.Server.GetApproved | server/internal/service/wallpaper.go:179-188 | the row exactly when it can be read and is approved; otherwise not found |
| WallpaperServer.Server.Approve | server/internal/service/wallpaper.go:191-207 | succeeds exactly from pending_review with both database calls answered, changes the status only, and names the error otherwise |
| WallpaperServer.Server.Reject | server/internal/service/wallpaper.go:210-227 | succeeds exactly from pending_review with both database calls answered, sets status and reason together, and names the error otherwise |
| WallpaperServer.Server.Download | server/internal/handler/wallpaper.go:241-261 | signs the stored key of an approved row only; the counter alone changes, by one, and a failing counter does not withhold the URL |
| WallpaperServer.Server.EditMetadata | server/internal/handler/admin.go:129-156 | replaces title, category and tags of an existing row and nothing else, and succeeds without effect on a missing one |
| WallpaperRuns.SerialIsInterleaving | server/internal/service/wallpaper.go:37-227 | each operation that nothing overlaps has the effect of one schedule of the protocol's steps |
| WallpaperRuns.SerialRunIsInterleaving | server/internal/service/wallpaper.go:37-227 | every run of operations is a run of the protocol, so its invariants hold there too |
| WallpaperRuns.SerialStatusStep | server/internal/service/wallpaper.go:191-227 | one operation moves a row along one lifecycle edge at most, and pending to pending_review exactly on a successful Finalize |
| WallpaperRuns.SerialLifecycle | server/internal/service/wallpaper.go:33-227 | the statuses a row takes on are a prefix of pending, pending_review, then approved or rejected; one Finalize succeeds exactly if the row has left pending; a reason is set exactly if it is rejected |
| WallpaperRuns.DownloadsAreCounted | server/internal/handler/wallpaper.go:241-261 | each counter is the number of successful increments, every one made on an approved row |
| BanProtocol.ApplyKeepsInv | server/internal/middleware/banned.go:33-95 | every step that stores no reading older than the lag keeps: entries and calls rest on clearances, and no clearance is younger than a standing ban |
| BanProtocol.RunKeepsInv | server/internal/middleware/banned.go:33-95 | so does every run |
| BanProtocol.BoundedStaleness | server/internal/middleware/banned.go:33-95 | under every interleaving, a request admitted at t rests on a database read in [t - TTL - lag, t] that found the user not banned |
| BanProtocol.BanTakesHold | server/internal/handler/admin.go:207-222 | once a ban is written and not undone, no request of that user is admitted more than TTL + lag later |
| BanProtocol.BanOvertakesRead | server/internal/handler/admin.go:216-219 | in a run from the start a ban, eviction included, falls between a middleware call's read and its store |
| BanProtocol.StalenessBoundIsAttained | server/internal/middleware/banned.go:48-95 | for every lag a run from the start admits a request exactly TTL + lag after the ban |
| BanProtocol.EvictionIsPromptExactly | server/internal/middleware/banned.go:54-95 | after an eviction a banned user can be admitted again exactly when some call still holds an earlier not-banned reading |
| BannedCache.Cache.IsBanned | server/internal/middleware/banned.go:33-42 | a hit exactly while the entry is live; a miss deletes it and nothing else |
| BannedCache.Cache.Set | server/internal/middleware/banned.go:45-52 | exactly that entry, for one TTL from now |
| BannedCache.Cache.Evict | server/internal/middleware/banned.go:55-59 | exactly that entry goes |
| BannedCache.Service.BannedCheck | server/internal/middleware/banned.go:63-98 | the decision and the new cache for every kind of subject, cached or not, failing read or not |
| BannedCache.Service.SetUserBanned | server/internal/handler/admin.go:207-240 | flag and eviction change together or not at all |
| BannedCache.StepRepeatsExactly | server/internal/middleware/banned.go:63-98 | from a cache that repeats the database, the next one does so if and only if the operation is harmless: no failing read for a user in good standing without a live entry, no changed flag under an entry that the eviction misses |
| BannedCache.DecidesExactly | server/internal/middleware/banned.go:63-98 | and then a request is decided as without a cache if and only if it is harmless |
| BannedCache.RunRepeatsExactly | server/internal/middleware/banned.go:63-98 | the cache repeats the database all through a run if and only if each operation in it is harmless |
| BannedCache.RunRefinesExactly | server/internal/middleware/banned.go:63-98 | for the subjects that tokens are issued with, every request of a run is decided as without a cache if and only if no read fails for a user in good standing without a live entry |
| BannedCache.CacheRefinesQuery | server/internal/middleware/banned.go:63-98 | so when reads succeed, every entry equals the database after every run and every decision equals that of a check without a cache |
| BannedCache.EntryLasts | server/internal/middleware/banned.go:33-59 | no operation but an eviction of its own subject touches an entry before it expires |
| BannedCache.FailuresNeverAdmit | server/internal/middleware/banned.go:88-93 | whatever reads fail in the run, an admitted request is one that the uncached check admits |
| BannedCache.FailedReadLastsOneTtl | server/internal/middleware/banned.go:88-93 | after one failed read a user in good standing is refused exactly until the TTL has passed, in every continuation without an eviction of that user or another failed read |
| BannedCache.EvictionEndsRefusal | server/internal/handler/admin.go:207-240 | a ban or unban that succeeds makes the next check that can read decide by the flag just written |
| BannedCache.VariantOutlivesEviction | server/internal/middleware/banned.go:54-59 | why subjects must be canonical: under any other spelling an entry would decide its requests until it expired, over every ban and unban in between |
| BanRuns.SerialIsInterleaving | server/internal/middleware/banned.go:63-98 | each call that nothing overlaps has the effect of one schedule of the protocol's steps, and admits exactly when they do |
| BanRuns.SerialRunIsInterleaving | server/internal/middleware/banned.go:63-98 | every run of such calls is a run of the protocol |
| RateLimiter.Limiter.Allow | server/internal/middleware/ratelimit.go:35-50 | the answer and the new windows, for every limit and window |
| RateLimiter.Limiter.Limit | server/internal/middleware/ratelimit.go:53-85 | keyed by user where there is one, else by address; a refusal carries the largest number of whole seconds within the window |
| RateLimiter.SlidingBound | server/internal/middleware/ratelimit.go:35-50 | in every closed interval the grants to a key stay within a budget that grows with each window start that fits |
| RateLimiter.SlidingBoundIsAttained | server/internal/middleware/ratelimit.go:41-49 | for every limit, window and interval length some run reaches that bound |
| RateLimiter.SlidingWindowBound | server/internal/middleware/ratelimit.go:35-50 | at most max(1, max) * (ceil(L / window) + 1) grants in an interval of length L, and at most 2 * max(1, max) - 1 in one of one window |
| RateLimiter.CountIsHistory | server/internal/middleware/ratelimit.go:35-50 | a key's count is the number of grants since its window opened |
| RateLimiter.NoUnfairDenial | server/internal/middleware/ratelimit.go:45-47 | a refusal at t means that max(1, max) grants went to that key in [t - window, t] |
| RateLimiter.KeysAreIsolated | server/internal/middleware/ratelimit.go:40-49 | a key's answers in any run are those it gets in the sub-run of its own requests |
| RateLimiter.RetryAfterIsHonoured | server/internal/middleware/ratelimit.go:54-58 | for whole-second windows a refused client that waits longer than the hint and sends nothing else is granted (section 10.2.3 of RFC 9110) |
| RateLimiter.RetryWithinWindowCanFail | server/internal/middleware/ratelimit.go:41-47 | for every limit and window some refused client is refused again however it waits, up to one window |
| RateLimiter.HintIsNotTooLong | server/internal/middleware/ratelimit.go:54-70 | the hint is the largest number of whole seconds within the window, and some client that waits for just so long is refused again |
| RateLimiter.HintSufficesExactly | server/internal/middleware/ratelimit.go:54-70 | later than the hint is always late enough exactly when the window is a whole number of seconds |
| FlowLayout.Arrange | app/Sources/ScreenSpace/UI/Components/FlowLayout.swift:22-44 | the loop computes, for each item, the position that the items before it determine, and the total size |
| FlowLayout.PlaceSubviews | app/Sources/ScreenSpace/UI/Components/FlowLayout.swift:12-20 | every item is placed at its position moved by the origin of the bounds |
| FlowLayout.NoOverlap | app/Sources/ScreenSpace/UI/Components/FlowLayout.swift:30-41 | two items share a row with the spacing between them, or the later starts the spacing below the earlier |
| FlowLayout.Contained | app/Sources/ScreenSpace/UI/Components/FlowLayout.swift:30-43 | every item lies in the reported size, and one not first in its row ends within the proposed width |
| FlowLayout.WidthIsTight | app/Sources/ScreenSpace/UI/Components/FlowLayout.swift:39-43 | the reported width is some item's right edge plus one spacing |
| FlowLayout.HeightIsTight | app/Sources/ScreenSpace/UI/Components/FlowLayout.swift:38-43 | the reported height is the bottom edge of some item in the last row |
| FlowLayout.NothingHasNoSize | app/Sources/ScreenSpace/UI/Components/FlowLayout.swift:24-43 | a layout of nothing has no size |
| FlowLayout.NextPositionExactly | app/Sources/ScreenSpace/UI/Components/FlowLayout.swift:30-41 | each item stands one spacing to the right of the one before it, or, exactly if it does not fit there, at the left edge one spacing below everything before it; the first stands in the corner |
| FlowLayout.OverhangIsOneSpacingExactly | app/Sources/ScreenSpace/UI/Components/FlowLayout.swift:30-43 | the reported width exceeds the proposal by at most one spacing exactly when no single item is wider than the proposal |
| FlowLayout.WidthKeepsToProposalExactly | app/Sources/ScreenSpace/UI/Components/FlowLayout.swift:30-43 | the reported width keeps to the proposal exactly when every item, last in its row or not, leaves room for one more spacing |
| FlowLayout.ReservedSpacingKeepsWidthExactly | app/Sources/ScreenSpace/UI/Components/FlowLayout.swift:30-43 | proposing one spacing less than a width keeps the report within that width exactly when no item is wider than the proposal |
| FlowLayout.FullRowOverhangs | app/Sources/ScreenSpace/UI/Components/FlowLayout.swift:39-43 | a layout with a row that exactly fills the proposal is reported wider than proposed, unless the spacing is zero |
| FlowLayout.OneMoreRow | app/Sources/ScreenSpace/UI/Components/FlowLayout.swift:30-41 | laying out one acceptable row after anything breaks at most once |
| FlowLayout.GreedyIsOptimal | app/Sources/ScreenSpace/UI/Components/FlowLayout.swift:30-41 | no order-preserving split into rows that fit or hold one item has fewer rows |
| FlowLayout.GreedyIsASplit | app/Sources/ScreenSpace/UI/Components/FlowLayout.swift:30-41 | for positive widths the layout's own rows are such a split, so the minimum is reached |
| DiskCache.CacheManager.CurrentCacheSizeMB | app/Sources/ScreenSpace/Helpers/CacheManager.swift:44-55 | the whole megabytes of all files together, in whatever order they are listed |
| DiskCache.TotalWithout | app/Sources/ScreenSpace/Helpers/CacheManager.swift:51-54 | the total does not depend on the order of the listing |
| DiskCache.CacheManager.Sorted | app/Sources/ScreenSpace/Helpers/CacheManager.swift:66-72 | every file once, dates non-decreasing, unreadable dates first |
| DiskCache.CacheManager.EvictIfNeeded | app/Sources/ScreenSpace/Helpers/CacheManager.swift:57-81 | exactly the removable files of a prefix of that order are gone, the prefix being fixed by the tally; no removable file outlives one with a later date |
| DiskCache.CacheManager.CacheFile | app/Sources/ScreenSpace/Helpers/CacheManager.swift:30-42 | the directory on every path; the returned file exists exactly if it cannot be removed or the tally that the older files leave is within the limit, so it does if it is strictly newest and small enough, and does not if it alone exceeds the limit |
| DiskCache.TallyTracksSize | app/Sources/ScreenSpace/Helpers/CacheManager.swift:74-80 | the tally of floors lies between the true whole megabytes left and that plus the number of files passed |
| DiskCache.EvictionAchievesLimit | app/Sources/ScreenSpace/Helpers/CacheManager.swift:44-81 | if removals succeed the cache is within the limit afterwards, exactly when the limit is not negative |
| DiskCache.OverEvictionIsLimited | app/Sources/ScreenSpace/Helpers/CacheManager.swift:74-80 | what goes is a prefix, and the file with k before it goes only while at least limit + 1 - k megabytes are left |
| DiskCache.SurvivesExactly | app/Sources/ScreenSpace/Helpers/CacheManager.swift:75-79 | a removable file survives exactly when the tally left by the older ones is within the limit |
| DiskCache.OlderGoesFirst | app/Sources/ScreenSpace/Helpers/CacheManager.swift:66-78 | when a file goes, so does every removable file with an earlier date, and every one without a readable date if the file has one |
| DiskCache.NewestSurvives | app/Sources/ScreenSpace/Helpers/CacheManager.swift:66-80 | a file with a later date than every other survives if its whole megabytes plus the number of other files are within the limit |
| DiskCache.OversizedFileGoes | app/Sources/ScreenSpace/Helpers/CacheManager.swift:75-79 | a removable file of more whole megabytes than the limit never survives |
| EventLog.Log.MoveItem | app/Sources/ScreenSpace/Core/EventLog/EventLog.swift:90-96 | a rename succeeds exactly if its source exists and its target does not |
| EventLog.Log.Rotate | app/Sources/ScreenSpace/Core/EventLog/EventLog.swift:82-97 | the chain moves one on and the oldest goes; every rename tried finds its target vacant; other files stay, but for one named after a count below one, which goes |
| EventLog.BytesIsLength | app/Sources/ScreenSpace/Core/EventLog/EventLog.swift:68-78 | the size compared with the threshold is the length of the file: its entries, each with a newline |
| EventLog.Log.RotateIfNeeded | app/Sources/ScreenSpace/Core/EventLog/EventLog.swift:75-80 | rotates exactly when the active file has reached the threshold |
| EventLog.Log.Append | app/Sources/ScreenSpace/Core/EventLog/EventLog.swift:99-109 | the active file grows by the line, or begins with it |
| EventLog.Log.Write | app/Sources/ScreenSpace/Core/EventLog/EventLog.swift:49-55 | rotation, then the line; an entry that cannot be serialised changes nothing |
| EventLog.RotationDropsOldest | app/Sources/ScreenSpace/Core/EventLog/EventLog.swift:82-97 | a rotation drops exactly the old last file and keeps the joined rest in order |
| EventLog.WrittenJoins | app/Sources/ScreenSpace/Core/EventLog/EventLog.swift:49-55 | what is dropped, then what is kept, is what was kept before plus the line |
| EventLog.HistoryIsASuffix | app/Sources/ScreenSpace/Core/EventLog/EventLog.swift:49-109 | from any directory, for any count, after any writes, the joined files are a contiguous suffix of everything written |
| EventLog.RunStaysPacked | app/Sources/ScreenSpace/Core/EventLog/EventLog.swift:75-109 | numbered files fill from the first, each at least the threshold, none above threshold - 1 + line |
| EventLog.MissingMeansFull | app/Sources/ScreenSpace/Core/EventLog/EventLog.swift:82-97 | a line is missing only once the last numbered file is in use |
| EventLog.SizeIsBounded | app/Sources/ScreenSpace/Core/EventLog/EventLog.swift:75-109 | at most (count + 1) * (threshold - 1 + line) bytes in all, and at least count * threshold once a line has been dropped |
| EventLog.CountBelowOneKeepsEverything | app/Sources/ScreenSpace/Core/EventLog/EventLog.swift:82-97 | with a count below one nothing is ever dropped |
| EventLog.SizeIsBoundedExactly | app/Sources/ScreenSpace/Core/EventLog/EventLog.swift:75-109 | the size of the files has a bound over all runs exactly when the count is at least one |
| Favorites.Service.Toggle | server/internal/service/favorite.go:25-51 | on success the row is added in front or cut out, the rest keeping its order, and the answer says which; on failure nothing changes; rows stay distinct and refer to wallpapers |
| Favorites.ToggleTwice | server/internal/service/favorite.go:23-51 | toggling twice restores the table, but a favourite that was there moves to the front |
| Favorites.Service.ListByUser | server/internal/service/favorite.go:54-70 | if both queries are answered, the window of the joined list that the converted limit and offset select, with the unjoined count; otherwise nothing |
| Favorites.CountMatchesJoin | server/db/queries/favorite.sql:15-27 | the count equals the length of the joined list exactly when every favourite refers to an existing wallpaper |
| Favorites.ListingMatchesTable | server/db/queries/favorite.sql:15-27 | in a table that Toggle maintains, listing and count agree and the list is exactly that user's favourites, each once |
| Favorites.ListingIsNewestFirst | server/db/queries/favorite.sql:20-24 | the listing keeps the order of the table, newest first |
| Favorites.NewFavoriteComesFirst | server/db/queries/favorite.sql:20-24 | after a favourite is added the first page begins with it |
| Favorites.ParsePagination | server/internal/respond/respond.go:69-90 | an unusable limit gives the default, one within the cap is honoured, one above it becomes the cap; a usable offset is honoured, any other is 0 |
| Favorites.FavoritesViewModel.Load | app/Sources/ScreenSpace/Features/Favorites/FavoritesViewModel.swift:23-36 | all fields after success, failure or cancellation |
| Favorites.FavoritesViewModel.LoadMore | app/Sources/ScreenSpace/Features/Favorites/FavoritesViewModel.swift:38-48 | all fields after success, failure, cancellation or with nothing more to load |
| Favorites.PagingRebuildsExactly | app/Sources/ScreenSpace/Features/Favorites/FavoritesViewModel.swift:23-48 | loading, then loading more to the end, terminates with exactly the server's list, if and only if the cap covers the page size or the list |
| Favorites.PagingYieldsFavorites | server/internal/service/favorite.go:54-70 | for a table that Toggle maintains, the counts agree and paging to the end yields exactly the user's favourites, each once, newest first |
| Favorites.ViewHoldsWholePages | app/Sources/ScreenSpace/Features/Favorites/FavoritesViewModel.swift:23-48 | whatever fails or is cancelled, the favourites are the pages whose numbers a caller can note by counting its attempts, joined |
| Favorites.OrderKeptExactly | app/Sources/ScreenSpace/Features/Favorites/FavoritesViewModel.swift:23-48 | in every run the favourites are in the order of the server's list without repetition if and only if each answered loadMore was a later attempt, counted from the last load, than the one answered before |
| Favorites.MoreKeepsOrderExactly | app/Sources/ScreenSpace/Features/Favorites/FavoritesViewModel.swift:38-44 | an answered loadMore keeps the favourites in order exactly when at least as many attempts have been made since the last load as the number of the last page received |
| Favorites.FailuresSkipPages | app/Sources/ScreenSpace/Features/Favorites/FavoritesViewModel.swift:38-48 | unless a reload fails, the favourites are whole pages in the order of the list, no item twice, however many loadMore calls fail |
| Favorites.FailedReloadRepeatsPage | app/Sources/ScreenSpace/Features/Favorites/FavoritesViewModel.swift:26-40 | after a reload that fails, the next loadMore leaves the second page in the favourites twice |
| Playlists.PlaylistManager.constructor | app/Sources/ScreenSpace/Config/PlaylistManager.swift:43-58 | memory starts with the playlist of every file; it agrees with the disk exactly when every file is named after the id inside |
| Playlists.PlaylistManager.LoadAll | app/Sources/ScreenSpace/Config/PlaylistManager.swift:92-101 | the playlist of every decodable file once, in some order, whatever the files are called |
| Playlists.LoadAgreesExactly | app/Sources/ScreenSpace/Config/PlaylistManager.swift:92-101 | a list so loaded holds exactly what the disk holds, ids distinct, if and only if every file is named after the id inside |
| Playlists.PlaylistManager.Save | app/Sources/ScreenSpace/Config/PlaylistManager.swift:86-90 | that file and no other, or nothing when it throws |
| Playlists.PlaylistManager.Create | app/Sources/ScreenSpace/Config/PlaylistManager.swift:60-67 | disk and memory gain the playlist together, or neither does |
| Playlists.PlaylistManager.Delete | app/Sources/ScreenSpace/Config/PlaylistManager.swift:69-75 | memory loses every playlist of that id, the disk only if the removal succeeds |
| Playlists.RemovedKeepsOrder | app/Sources/ScreenSpace/Config/PlaylistManager.swift:73 | a delete cuts the playlist out of the list and keeps the others in their order |
| Playlists.PlaylistManager.Update | app/Sources/ScreenSpace/Config/PlaylistManager.swift:77-84 | the file is replaced and so is the first playlist of that id in memory; a throwing save changes nothing |
| Playlists.ReplacedInPlace | app/Sources/ScreenSpace/Config/PlaylistManager.swift:80-82 | an update puts the new playlist where the first one of its id was and touches no other |
| Playlists.TrimCutsSpaces | app/Sources/ScreenSpace/Features/Playlists/PlaylistsViewModel.swift:23-24 | a name is cut out of the spaces around it, neither begins nor ends with one, and is empty exactly for a blank |
| Playlists.PlaylistsViewModel.Load | app/Sources/ScreenSpace/Features/Playlists/PlaylistsViewModel.swift:18-20 | the third copy is the manager's list |
| Playlists.PlaylistsViewModel.Create | app/Sources/ScreenSpace/Features/Playlists/PlaylistsViewModel.swift:22-33 | a blank name does nothing; otherwise manager and view gain the playlist together or the error is set; equal lists stay equal |
| Playlists.PlaylistsViewModel.UpdateShuffle | app/Sources/ScreenSpace/Features/Playlists/PlaylistsViewModel.swift:35-44 | one playlist's shuffle flag changes everywhere, or an error is set and equal lists stay equal |
| Playlists.PlaylistsViewModel.Delete | app/Sources/ScreenSpace/Features/Playlists/PlaylistsViewModel.swift:46-54 | the view's list equals the manager's afterwards |
| Playlists.StepAgreesExactly | app/Sources/ScreenSpace/Config/PlaylistManager.swift:60-84 | from agreement an operation ends in agreement exactly when it is a create, an update that throws or names a known id, or a delete whose file goes away |
| Playlists.RunAgreesExactly | app/Sources/ScreenSpace/Config/PlaylistManager.swift:60-84 | memory and disk agree all through a run if and only if every operation in it is one of those |
| Playlists.CopiesAgree | app/Sources/ScreenSpace/Config/PlaylistManager.swift:60-101 | after any run of those, reloading from disk gives the playlists in memory up to order, ids distinct |
| Playlists.UnknownUpdateChangesDiskOnly | app/Sources/ScreenSpace/Config/PlaylistManager.swift:77-84 | an update for an unknown id changes the disk by exactly that playlist and memory not at all |

## Left out

- HTTP, routing, JSON, logging and the generated server code: no property over runs.
- The insides of Postgres, the object store, ffprobe and ffmpeg: each call is one atomic step whose outcome is a parameter. A statement that commits and then reports a failure is not modelled.
- Token signing, password hashing and the parsing of UUID text: ids are abstract values or strings; a token subject is canonical, another spelling of an id, or malformed.
- Creation of users in `BannedCache`: an id without a row is refused and that refusal is cached; ids are generated by the database, so no token names one that comes to exist later. `BanProtocol` has registration as a step.
- Time stamps, and listings other than favourites. A title is Unicode text; invalid encodings are not modelled.
- The seed command and the SQL statements that no handler calls: runs start from an empty database and rows are never deleted.
- Counters, sums of file sizes and offsets at or beyond the source's integer range, except where a lemma is about just that (`Int32`, `Int64`).
- The content of an original that is replaced through its upload URL after Finalize has read it, and the expiry of that URL: the protocol tracks which objects exist.
- Floating-point rounding, infinities other than an absent proposal, and NaN, in layout and durations: reals are used.
- Mutexes: each operation of the cache and the limiter is one atomic step, which is what they provide. The limiter's entries are values in a map, so aliasing of an entry through its pointer is not captured.
- Directory listings that fail, file sizes that cannot be read, clearing the cache, and the look-up of a cached file, which is one existence test; a file whose removal fails is modelled.
- Failing opens and writes of the log file, and file-system failures in rotation other than an existing target or a missing source.
- Playlist files that do not decode: they are not part of the directory.
- Overlapping calls of one view model, the detail fetch, and lists that change between two page requests.
- ILIKE matching and the order among equal time stamps: listings have one fixed order.
- The numeric parsing of query parameters: a parameter is absent or unreadable, or a number.
- SwiftUI views, players, windows, power and sleep observers, keychain and URL sessions: foreign calls.
- RunAgreesExactly: like CopiesAgree, assumes fresh ids for created playlists, as UUIDs are.
