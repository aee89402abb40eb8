# FenPOS: archive rotation, dithering, caches, budgets, pairing and paging

A Dafny model of the parts of FenPOS that keep state under concurrency, crashes or in-place arithmetic, with proofs
about every run, every input and every reachable state. `dafny verify dfyconfig.toml` checks all of it.

| file | what it models |
|---|---|
| `Calendar.dfy` | UTC months as the ECMAScript date functions define them, in whole milliseconds |
| `Rotation.dfy` | archive rotation as a machine that may fail or die between any two steps, for both sources |
| `ArchivePeriod.dfy` | `archivePeriod` for log lines, statement by statement; each effect is an action of that machine |
| `CanonicalText.dfy` | the text an audit event's hash is taken over |
| `AuditChain.dfy` | the audit hash chain, its walk, and `drainAudit` and an append with others between their statements |
| `AuditAppends.dfy` | appends, their retries and rotations of the audit record, interleaved over whole runs |
| `Period.dfy` | the retention month walk and the period keys, with `Date.UTC` as it really behaves |
| `ArchiveFiles.dfy` | which file names are finished archives, and which of those pruning removes |
| `ReportedTime.dfy` | how far an agent is believed about when something happened |
| `LogSweep.dfy` | the log sweep: what the archives' file names promise, and which month it is refused at |
| `LogArrivals.dfy` | log lines dated, delayed and inserted while rotations run: what blocks every later sweep, and when |
| `Dither.dfy` | Floyd-Steinberg error diffusion: error bounds and conservation of tone |
| `DitherScan.dfy` | the same scan in place over one array, packing bits into another, and the decoder |
| `Raster.dfy` | flattening, luminance, the projected height, and `ditherToRaster` from end to end |
| `Numbers.dfy` | `Math.min` and `Math.max` |
| `OrderedMap.dfy` | a JavaScript `Map` as a sequence of entries in insertion order |
| `Lru.dfy` | the raster cache's bytes, order and eviction; the face cache |
| `RasterService.dfy` | `rasterFor` and `derive` with callers, derivations and writers interleaved |
| `KeylessBudget.dfy` | the keyless log budget: its map of mutable records, its ledger and its rate |
| `Pairing.dfy` | pairing codes and agents: the transactions, and their interleavings |
| `Pagination.dfy` | cursor pagination over a list that changes between requests |

How to read it. A **machine** is a `State`, an `Action`, `Enabled` and `Apply`; `Legal(s, run)` and `After(s, run)` are
a whole run. A **class** (`Host`, `AuditDb`, `RasterCache`, `KeylessLog`, `Database`, `ArchiveDirectory`) holds the
fields the source mutates, and its methods are proved against the functions the theorems are about. Fields such as
`segments`, `history`, `grants`, `begun`, `faults` and `appended` are records for the statements; no step decides by them. In
`Rotation.dfy` a file's name is its month, its kind and, for a provisional one, the attempt that drew it; the strings
are in `Period.dfy` and `ArchiveFiles.dfy`, where distinct months are shown to have distinct keys.

Where the source and its comments part, the model follows the source and a lemma says where and exactly when:

* The module comment of `rotate.ts` allows one case in which a `*.partial` holds rows that are no longer live: a
  rename that fails, which is logged. The process dying between the live delete and the rename is a second, and it is
  silent (`Rotation.WhatStrandsRows`).
* A row dated into or before a month that is already archived stops log retention: every sweep is refused at that month
  until the file goes (`LogSweep.SweepLogs`), and which step lets it come about is `LogArrivals.WhatBlocks`. None does
  while every row inserted once a rotation has begun is dated at or past its boundary
  (`LogArrivals.RowsOnTimeNeverBlock`). Agents are believed a day back. With a clock that goes forward every row is on
  time while none takes longer from its dating to its insert than retention exceeds that day
  (`LogArrivals.PromptRowsNeverBlock`); at the least retention, a day, one millisecond is enough
  (`LogArrivals.ARowThatBlocks`). A server clock that goes back does it too. A row that comes in while a later month is
  being archived is filed under that month (`LogSweep.NameIsTrueWhen`).
* `periodsFullyBefore` guards against invalid dates because they would make it walk forever. It also walks forever
  when a valid date lies at or beyond September 275760 (`Period.OtherwiseNeverEnds`), and it treats the years 0 to 99
  as 1900 to 1999 (`Period.ExactUnlessEarly`, `Period.YearFiftyIsListedWrongly`). Archives of years without four digits
  are never listed (`ArchiveFiles.FinishedIsListed`).
* The comment on `MAX_PAPER_DOTS` says a source refused there is refused at every narrower paper. The converse is
  what holds (`Raster.AdmittedAlwaysPrints`, `Raster.RefusedThoughItWouldPrint`).
* "Nothing is lost" of a keyless flood: the debt of a closed window is dropped by any other address's call, and that of
  an open one when the cap takes it (`KeylessBudget.DropsExactly`; `KeylessBudget.NeighboursDropDebt` is such a run).
* The second expiry check of a redemption compares against the same moment as the first, so it cannot refuse
  (`Pairing.ExpiryIsNotCheckedAgain`), and a code can be granted after it lapsed (`Pairing.GrantedAfterExpiry`). The
  branch for an agent deleted mid-redemption is unreachable (`Pairing.AgentIsNeverMissing`). A paired agent comes to
  have a live code exactly when a reissue that passed its check commits while the agent is paired
  (`Pairing.OpensOnlyByLateIssue`; `Pairing.PairedWithACodeOutstanding` is such a run).
* A bookmark deleted between its check and its query gives a silently short walk (`Pagination.SilentlyShort`).
* The unique index on an audit event's predecessor catches a stale append only among live rows. The record stays one
  chain exactly while no append names a predecessor whose successor has been archived (`AuditChain.StaleAppend`,
  `AuditAppends.OneChainIffNoStaleInsert`). That takes an append longer than half the retention window, of which
  the shortest is a day (`AuditAppends.PromptAppendsNeverFork`; in `AuditAppends.AnAppendThatForks` it is longer by a
  millisecond, and the rotation is of December 1969).

## Model

| member | source | states |
|---|---|---|
| Rotation.NoRowIsLost | fenpos/lib/archive/rotate.ts:202-232 | after any run, with any step failing and the process dying anywhere, every row ever inserted is live, or on disk in a checked partial, a plain archive or a complete gzip, or in a log archive pruned after its age |
| Rotation.RunKeepsInv | fenpos/lib/archive/rotate.ts:202-263 | every action of every run keeps the protocol's invariant: rows, files, removed segments, publication and the single pass |
| Rotation.EachRowMovesOnce | fenpos/lib/archive/rotate.ts:344-418 | each row leaves the live table in at most one live delete, and never comes back |
| Rotation.OnePassAtATime | fenpos/instrumentation-runtime.ts:252-277 | the shared flag keeps passes apart over every run, crashes included |
| Rotation.PublishedMeansMoved | fenpos/lib/archive/rotate.ts:295-327 | no finished name holds a row that is still live, a gzip without its plain file is complete, and names are free until the live delete |
| Rotation.FailureIsFree | fenpos/lib/archive/rotate.ts:213-225 | a failure or a crash before the live delete removes no row and leaves the retry admitted |
| Rotation.DeleteIsBacked | fenpos/lib/archive/rotate.ts:398-417 | at the live delete the rows that go are exactly those in the checked provisional file, in increasing key order |
| Rotation.WhatStrandsRows | fenpos/lib/archive/rotate.ts:38-43 | rows come to be only in a provisional file nobody will name exactly by a failed rename or by a crash after the delete |
| ArchivePeriod.Host.ArchivePeriod | fenpos/lib/archive/rotate.ts:202-232 | for log lines: a refusal changes nothing; a failure leaves rows live and names free; success moves every row that was live before the boundary, and none from it on, into the file answered with; no other month's file changes, comes or goes; when nothing fails the month's whole gzip is the one new file; others insert, and the process may die, between any two statements |
| ArchivePeriod.Host.DrainLogs | fenpos/lib/archive/rotate.ts:355-418 | with inserts arriving between statements: what is copied is what is deleted, every row live before the boundary at the start is among it, later arrivals are archived and deleted or neither |
| ArchivePeriod.Host.NextPage | fenpos/lib/archive/rotate.ts:365-396 | each turn of the paging loop extends the copy to the page's last id and leaves fewer rows pending, so the loop ends |
| ArchivePeriod.FindManyIsPage | fenpos/lib/archive/rotate.ts:366-370 | the page query returns the next rows by id, all of them or a full page |
| ArchivePeriod.DeleteBatches | fenpos/lib/archive/rotate.ts:410-412 | deleting batch by batch removes exactly the collected ids |
| ArchivePeriod.Host.Promote | fenpos/lib/archive/rotate.ts:315-327 | the rename moves the whole file or changes nothing |
| ArchivePeriod.Host.Compress | fenpos/lib/archive/rotate.ts:535-563 | whatever fails inside, the file answered with holds all the rows, and is a complete gzip if it is the gzip; when nothing fails it is the gzip, and the plain file is gone |
| ArchivePeriod.Host.StartPass | fenpos/instrumentation-runtime.ts:258-270 | a tick starts a pass exactly when none is in progress, and otherwise changes nothing |
| Calendar.YearLength | fenpos/lib/archive/period.ts:66 | the closed form behind `Date.UTC` agrees with counting days under the leap-year rule, for every year |
| Calendar.MonthLength | fenpos/lib/archive/period.ts:64-66 | each month ends where the next begins, across leap years and year ends |
| Calendar.MonthIsUnique | fenpos/lib/archive/period.ts:11-13 | no instant is in two months |
| Calendar.MonthOf | fenpos/lib/archive/period.ts:11-13 | every instant is in a month, and this is it |
| Calendar.BoundaryNamesEndedMonth | fenpos/lib/archive/rotate.ts:203-205 | one millisecond before a month's first instant names the month that ended |
| Period.PeriodsFullyBefore | fenpos/lib/archive/period.ts:49-79 | invalid dates are refused; otherwise the walk ends and lists the consecutive months up to the first that stops it |
| Period.OtherwiseNeverEnds | fenpos/lib/archive/period.ts:63-69 | outside the inputs on which the walk ends, no month however late ever stops it |
| Period.ExactUnlessEarly | fenpos/lib/archive/period.ts:49-79 | the periods due are exactly the months fully aged, each with its own end and key, if and only if no aged month of the years 0 to 99 is met |
| Period.EarlyMonthIsLate | fenpos/lib/archive/period.ts:66 | a month of the years 0 to 99 is due only when the month 1900 years later has aged |
| Period.YearFiftyIsListedWrongly | fenpos/lib/archive/period.ts:63-71 | at a cutoff in 2026: a month of the year 50 that has aged, its boundary and the key a rotation gives it both those of 1950 |
| Period.WalkNamesItsMonths | fenpos/lib/archive/period.ts:71 | each key equals the key of the millisecond before its boundary if and only if its month is not of the years 0 to 99 |
| Period.KeyIsInjective | fenpos/lib/archive/period.ts:11-13 | two months never share a key |
| ArchiveFiles.FinishedIsListed | fenpos/lib/archive/read.ts:50 | a finished archive's name is recognised, as its source and period, exactly when its year has four digits |
| ArchiveFiles.ExecIs | fenpos/lib/archive/read.ts:50 | of all names exactly those of the shape `<source>-dddd-dd.db.gz` are archives, of that source and period |
| ArchiveFiles.UnfinishedIsNeverListed | fenpos/lib/archive/read.ts:52-83 | no provisional or uncompressed file is ever listed |
| ArchiveFiles.ArchiveDirectory.ListArchives | fenpos/lib/archive/read.ts:68-83 | lists every finished archive in the directory once, with its size, and nothing else |
| ArchiveFiles.ArchiveDirectory.PruneLogArchives | fenpos/lib/archive/prune.ts:43-64 | exactly the expired files go and are reported, once each, up to one that cannot be removed; it throws exactly when there is one |
| ArchiveFiles.PrunedIffAged | fenpos/lib/archive/prune.ts:53-57 | a log archive is removed if and only if its whole month is older than the cutoff |
| ArchiveFiles.OthersAreNeverPruned | fenpos/lib/archive/prune.ts:48-51 | audit archives and unfinished files survive every cutoff |
| LogSweep.SweepLogs | fenpos/lib/logs/retention.ts:46-64 | however it ends: rows live at the start and older than the last boundary done are each in the archive of their own month, on disk, and the rest are live; it ends only if no month due had its archive already, with the number of rows it filed; it is refused exactly at the first due month that had, having archived those before it; and fails only at one that had not, when a step failed |
| LogSweep.NameIsTrueWhen | fenpos/lib/archive/rotate.ts:203-206 | with rows coming in while it runs, one rotation's file name is true if and only if no row concerned was older than the month it names, save those that came in too late to be taken along |
| ReportedTime.PlausibleTime | fenpos/lib/link/reported-time.ts:61-89 | the plausible moment nearest to the one reported, or now if it cannot be read |
| LogSweep.LateRowsFollowTheSweep | fenpos/lib/link/reported-time.ts:61-89 | a row inserted after a sweep is dated past every month that sweep archived, when retention exceeds the day agents are believed back by the time from the row's dating to its insert |
| LogSweep.MaintenancePass | fenpos/instrumentation-runtime.ts:258-270 | a tick during a pass changes nothing; otherwise the pass sweeps, ends unless a step fails or a month due is archived already, and the flag is down again however it ended |
| LogArrivals.RowsOnTimeNeverBlock | fenpos/lib/logs/retention.ts:46-57 | over every run, with failures and crashes: while rows inserted once a rotation has begun are dated at or past its boundary, nothing live is as old as a month that has its archive, so no sweep is refused |
| LogArrivals.PromptRowsNeverBlock | fenpos/lib/logs/ingest.ts:180-196 | and they are, while no row takes longer from its dating to its insert than retention exceeds a day |
| LogArrivals.WhatBlocks | fenpos/lib/archive/rotate.ts:252-263 | exactly which step of a run makes a live row as old as an archived month: an insert dated into or before one, or the rename that publishes a month past a live row's |
| LogArrivals.ARowThatBlocks | fenpos/lib/logs/ingest.ts:180-196 | the bound is sharp in every month from the year 100 on: a run at a day's retention in which a row takes one millisecond and blocks every later sweep |
| AuditChain.WalkSegment | fenpos/lib/audit/verify.ts:238-280 | the batched walk accepts exactly the verified chains and answers with where it stands, how many rows verified and their range; else it names the first row that breaks, how many verified before it, and whether the anchor, the link or the hash fails there |
| AuditChain.WalksInTurn | fenpos/lib/audit/verify.ts:204-223 | walking two segments in turn, the second from where the first ended, is walking them as one |
| AuditChain.VerifiedConcat | fenpos/lib/audit/verify.ts:258-277 | a chain verifies exactly when its front verifies and its rest verifies from where the front ends |
| AuditChain.SameEndSameEvents | fenpos/lib/audit/chain.ts:103-118 | tamper-evidence: two chains that verify from one place and end on one hash hold the same events in the same order |
| CanonicalText.HashedApart | fenpos/lib/audit/chain.ts:87-118 | no field can forge the structure around it: events hashed over one text agree in every field and in the predecessor |
| AuditChain.RemoveKeepsChain | fenpos/lib/archive/rotate.ts:433-522 | the front of one chain verifies from the anchor, and its removal leaves one chain, moved anchor included |
| AuditChain.AuditDb.DrainAudit | fenpos/lib/archive/rotate.ts:433-522 | with creates, failures and the process's death between its statements: moves the rows up to its boundary, as they were, exactly when they verify and nothing failed; otherwise moves nothing |
| AuditChain.AuditDb.RemoveAuditThrough | fenpos/lib/audit/retention.ts:140-169 | drops exactly the prefix, moves the anchor to its last row, and claims the epoch for its first row if none was claimed, and only then |
| AuditChain.AuditDb.AppendEvent | fenpos/lib/audit/append.ts:34-80 | with creates and rotations between its reads and its create: a recorded event carries the draft's moment and fields, names the tail or the anchor as read by that attempt, and is newer than any before it; nothing else is added; an attempt is refused exactly when a live row names what it read, and giving up takes five refusals |
| AuditChain.StaleAppend | fenpos/lib/audit/append.ts:121-128 | an append that read a former tail is let in, and breaks the chain, exactly when the row that overtook it has been archived |
| AuditAppends.OneChainIffNoStaleInsert | fenpos/lib/audit/append.ts:58-76 | however appends, retries, rotations and crashes interleave: archives then live rows are the events recorded, and they are one chain if and only if no accepted insert named a stale tail |
| AuditAppends.ArchivesAndLiveVerify | fenpos/lib/audit/verify.ts:238-280 | and then each archive verifies from where the ones before it end, the live rows from the anchor |
| AuditAppends.EventsAreTheirCalls | fenpos/lib/audit/append.ts:34-80 | over every run: each event on record has the fields and the moment of one call, no call is recorded twice, and whichever was told so was recorded |
| AuditAppends.PromptAppendsNeverFork | fenpos/lib/audit/append.ts:34-76 | while no event takes half the retention window from its append's call to its insert, the record is one chain |
| AuditAppends.AnAppendThatForks | fenpos/lib/audit/append.ts:58-76 | the bound is sharp: a run whose slowest append takes half the window and a millisecond, is let in stale after the month of the event that overtook it is archived, and forks the record |
| AuditAppends.AppendIsARun | fenpos/lib/audit/append.ts:58-76 | the machine's append, from its first read to its insert with any steps of others between, leaves the ledger as AppendEvent's contract says |
| AuditAppends.DrainIsARun | fenpos/lib/archive/rotate.ts:433-522 | and its rotation as DrainAudit's |
| Dither.CellsBounded | fenpos/lib/assets/dither.ts:376-407 | for luminances in 0 to 255 every decided pixel's error is at least -127 and below 128, and every cell stays within its value plus its received share of those bounds, at every step and size |
| Dither.ReceivesAtMostOne | fenpos/lib/assets/dither.ts:391-404 | no cell is handed more than sixteen sixteenths |
| Dither.DecidedIsFinal | fenpos/lib/assets/dither.ts:380-404 | a decided pixel is never revised |
| Dither.ToneIsConserved | fenpos/lib/assets/dither.ts:380-404 | at every step: initial luminance is 255 for each paper dot, plus what remains, plus what fell off the edges |
| Dither.DroppedByRows | fenpos/lib/assets/dither.ts:390-404 | exactly how many sixteenths fall off the edges, row by row |
| Dither.PrintedToneIsClose | fenpos/lib/assets/dither.ts:376-407 | printed tone differs from the image's by at most 88(H-1) + 72(W-1) + 128 |
| DitherScan.FloydSteinberg | fenpos/lib/assets/dither.ts:376-407 | the in-place scan leaves the diffused luminances, and bit (x, y) is set exactly for an inked dot, padding zero |
| DitherScan.Decode | fenpos/lib/assets/dither.ts:179-185 | reading the packed rows back gives the decisions |
| DitherScan.PackingIsUnique | fenpos/lib/assets/dither.ts:376-388 | one grid of dots has one packing |
| DitherScan.HandedOnIsDiffused | fenpos/lib/assets/dither.ts:390-404 | the four guarded additions are the diffusion the bounds are about |
| Raster.FlattenOntoWhite | fenpos/lib/assets/dither.ts:327-340 | in place: every pixel opaque, every colour the whole number nearest its blend with white by the pixel's own alpha |
| Raster.BlendedIsOne | fenpos/lib/assets/dither.ts:333-335 | what flattening promises of a colour determines it, for every colour and alpha |
| Raster.FlattenedTwice | fenpos/lib/assets/dither.ts:327-340 | flattening a flattened bitmap changes nothing |
| Raster.TransparentIsPaper | fenpos/lib/assets/dither.ts:311-318 | whatever colour hides behind a transparent pixel, its tone is paper's |
| Raster.Luminance | fenpos/lib/assets/dither.ts:351-358 | 2126, 7152 and 722 ten-thousandths of each pixel's red, green and blue |
| Raster.ProjectedHeightDots | fenpos/lib/assets/dither.ts:174-176 | the nearest whole number of dots, halves up |
| Raster.TooTallFrom | fenpos/lib/assets/dither.ts:260-265 | the exact widths at which a source is refused |
| Raster.AdmittedAlwaysPrints | fenpos/lib/assets/asset-service.ts:1188-1196 | a source admitted at the widest paper is never refused for height at any narrower one |
| Raster.RefusedThoughItWouldPrint | fenpos/lib/assets/asset-service.ts:163-167 | a source refused at the widest paper that a narrower one would print |
| Raster.DitherToRaster | fenpos/lib/assets/dither.ts:251-273 | each error exactly when its condition holds, in order; otherwise a raster of the asked width, at most 65535 dots high, whose bits are the bounded decisions on the tones of the image flattened first and resized after, and whose paper carries them |
| Lru.RasterCache.Remember | fenpos/lib/assets/asset-service.ts:724-745 | the byte counter stays the sum of what is held and within the cap; the shortest front that makes room goes, and nothing for a raster larger than the cap |
| Lru.RasterCache.Lookup | fenpos/lib/assets/asset-service.ts:644-652 | a hit answers with the entry held and makes it the most recent, losing nothing |
| Lru.EvictionIsShortest | fenpos/lib/assets/asset-service.ts:738-744 | what is evicted is the shortest front of the order that makes the rest fit |
| Lru.NewEntrySurvives | fenpos/lib/assets/asset-service.ts:735-744 | a key not held before survives its own storing |
| Lru.StoredAgainSurvivesIff | fenpos/lib/assets/asset-service.ts:730-744 | a key held before survives exactly when it and everything more recent fit |
| Lru.StoredAgainMayGo | fenpos/lib/assets/asset-service.ts:730-744 | a key stored again that evicts itself |
| Lru.EvictsLeastRecentlyUsed | fenpos/lib/assets/asset-service.ts:646-651 | after any run, what a store evicts was used less recently than all it keeps |
| Lru.FaceCache.Keep | fenpos/lib/assets/asset-service.ts:905-911 | at most sixteen faces, the most recent ones |
| RasterService.CallsAreLinearizable | fenpos/lib/assets/asset-service.ts:631-678 | every call that returns got the dither, at its width, of bytes its row held at an instant of the call, by hit, by joining or by deriving, under every interleaving |
| RasterService.RefusedHadNoImage | fenpos/lib/assets/asset-service.ts:635-642 | a refused call's name, at an instant of the call, named nothing or no image |
| RasterService.HeldIsAHit | fenpos/lib/assets/asset-service.ts:644-652 | a call whose key is held is answered with it, and it becomes the most recent; nothing is lost |
| RasterService.OpenIsJoined | fenpos/lib/assets/asset-service.ts:654-657 | a call whose key is not held waits for the derivation open for that key, whoever opened it |
| RasterService.NoneOpenIsOpened | fenpos/lib/assets/asset-service.ts:659-660 | and opens one exactly when there is none |
| RasterService.AwaitAnswers | fenpos/lib/assets/asset-service.ts:654-677 | whoever waited gets what the derivation settled with |
| RasterService.SoundAnswers | fenpos/lib/assets/asset-service.ts:693-706 | a raster stored under an older revision's key, derived from newer bytes, still answers whoever resolved that revision |
| RasterService.OneDerivationPerKey | fenpos/lib/assets/asset-service.ts:654-675 | between two forgettings at most one derivation of a key is unsettled |
| RasterService.FailureIsNotKept | fenpos/lib/assets/asset-service.ts:662-675 | a rejection reaches only calls begun before its cleanup |
| RasterService.RejectedForACause | fenpos/lib/assets/asset-service.ts:693-706 | a call is rejected only because its row was gone or its bytes did not dither at an instant since its key was resolved, or because that derivation broke |
| RasterService.DerivationsGoForward | fenpos/lib/assets/asset-service.ts:693-706 | a derivation's own steps take it on to an end, and nobody else's step touches it |
| RasterService.CallsGoForward | fenpos/lib/assets/asset-service.ts:631-678 | a call's own steps take it on, and nobody else's step touches it |
| RasterService.CleanupTakesOnlyItsOwn | fenpos/lib/assets/asset-service.ts:670-675 | a late cleanup leaves every other derivation in flight, and its own never behind |
| RasterService.WhatIsStoredIsHeld | fenpos/lib/assets/asset-service.ts:708-745 | unless the cache was forgotten between two derivations of its key, a derivation stores a key not held, which therefore survives |
| RasterService.StoringDropsTheFront | fenpos/lib/assets/asset-service.ts:724-745 | storing drops the shortest front of the order that makes room, and nothing else |
| RasterService.TooLargeIsNotStored | fenpos/lib/assets/asset-service.ts:724-728 | a raster larger than the whole cap reaches its callers, and nothing is dropped for it |
| RasterService.ForgetForgets | fenpos/lib/assets/asset-service.ts:757-761 | after a forgetting nothing is held and no derivation under way is joined |
| KeylessBudget.KeylessLog.ClaimKeylessLogRow | fenpos/lib/api/keyless-log-budget.ts:68-94 | a row exactly when there is no record, its window has closed or fewer than five are written, carrying what is owed then and only then; and the whole new map, with the caller's record charged even when the sweep took it out |
| KeylessBudget.KeylessLog.EvictExpired | fenpos/lib/api/keyless-log-budget.ts:104-119 | what is left is the open windows, the oldest gone if there are too many |
| KeylessBudget.RunKeeps | fenpos/lib/api/keyless-log-budget.ts:26-49 | after any run: at most ten thousand records, one to five rows each, and none owes before its budget is spent |
| KeylessBudget.RunKeepsTime | fenpos/lib/api/keyless-log-budget.ts:111 | with a clock that goes forward the map is in order of expiry and every window in it is open |
| KeylessBudget.RefusalsAreConserved | fenpos/lib/api/keyless-log-budget.ts:68-119 | over any run, for any address: claims are rows, reported refusals, debt outstanding and debt dropped |
| KeylessBudget.AllRefusalsAreConserved | fenpos/lib/api/keyless-log-budget.ts:68-119 | the same over all addresses at once: the calls themselves are accounted for |
| KeylessBudget.OwnDebtIsCarried | fenpos/lib/api/keyless-log-budget.ts:69-83 | a caller whose window has closed gets a row carrying exactly what it owed |
| KeylessBudget.FirstFiveAreRows | fenpos/lib/api/keyless-log-budget.ts:68-94 | the budget is a fixed window: while the cap takes no window of an address, its refusal is a row exactly when it is among the first five of the minute its earlier calls began |
| KeylessBudget.DropsExactly | fenpos/lib/api/keyless-log-budget.ts:68-119 | for a map of any size, exactly which debts a call drops: those of the other windows that have closed or that the cap takes, and the caller's own if the cap takes it while its budget is spent |
| KeylessBudget.NeighboursDropDebt | fenpos/lib/api/keyless-log-budget.ts:14-22 | a run whose debt is dropped unreported |
| KeylessBudget.RowsAreBounded | fenpos/lib/api/keyless-log-budget.ts:26-39 | in T milliseconds since its first claim an address is recorded at most 5(T/60000 + 1) times, and five more for each open window the cap took |
| KeylessBudget.RowsAreBoundedUncapped | fenpos/lib/api/keyless-log-budget.ts:26-39 | an address whose open window the cap never takes is recorded at most 5(T/60000 + 1) times |
| KeylessBudget.RoomForAll | fenpos/lib/api/keyless-log-budget.ts:111-118 | the cap takes no open window while fewer than ten thousand are open at once |
| Pairing.OneGrantPerCode | fenpos/lib/agents/pairing.ts:124-152 | no code is granted twice, over every interleaving |
| Pairing.OneCodePerAgent | fenpos/lib/agents/pairing.ts:71-84 | an agent never has two codes outstanding |
| Pairing.StepsByCode | fenpos/lib/agents/pairing.ts:78-199 | over every step of every run, exactly when a code goes, is consumed or is added, and what it then is; every other code is as it was |
| Pairing.StepsByAgent | fenpos/lib/agents/agent-service.ts:87-241 | exactly when an agent comes or goes, or its token is written or taken; every other agent is as it was |
| Pairing.StepsByOp | fenpos/lib/agents/pairing.ts:99-168 | no step moves another's operation |
| Pairing.IssuesWereAllowed | fenpos/lib/agents/agent-service.ts:117-127 | whoever is about to issue a code found the agent there and without a token, at the moment the code dates from |
| Pairing.ClaimersRead | fenpos/lib/agents/pairing.ts:109-122 | whoever is about to claim a code read it under the text brought, neither consumed nor lapsed when the redemption began |
| Pairing.ReplacedNeverGrants | fenpos/lib/agents/pairing.ts:78-81 | a code replaced by a reissue is never granted afterwards, even to a redeemer that had read it |
| Pairing.GoneNeverGrants | fenpos/lib/agents/pairing.ts:194-199 | nor is one purged, or deleted with its agent |
| Pairing.ConsumedIffGranted | fenpos/lib/agents/pairing.ts:131-151 | a code is consumed if and only if a grant wrote its agent's token, and then at that grant's moment |
| Pairing.TokenIsTheLatest | fenpos/lib/agents/agent-service.ts:180-188 | an agent's token is the one its latest grant handed out, and no two grants share one |
| Pairing.RevokedUntilPairedAgain | fenpos/lib/agents/agent-service.ts:153-188 | an agent without a token has one again only once a later grant names it |
| Pairing.PurgeTakesOnlyTheLapsed | fenpos/lib/agents/pairing.ts:185-199 | whoever asks after a purge finds the same codes redeemable, and consumed codes stay |
| Pairing.OutstandingIsNewer | fenpos/lib/agents/agent-service.ts:117-127 | a code outstanding was issued after every grant to its agent |
| Pairing.OpensOnlyByLateIssue | fenpos/lib/agents/agent-service.ts:117-127 | over every step of every run: an agent comes to be paired with a code outstanding if and only if a reissue that passed its check commits while the agent is paired |
| Pairing.ExpiryIsNotCheckedAgain | fenpos/lib/agents/pairing.ts:128-134 | for a code still there and unconsumed the repeated expiry check never refuses |
| Pairing.GrantsBeganInTime | fenpos/lib/agents/pairing.ts:120-122 | every grant answers a redeemer that began before the code expired |
| Pairing.GrantedAfterExpiry | fenpos/lib/agents/pairing.ts:128-130 | a run that grants a code after it lapsed |
| Pairing.AgentIsNeverMissing | fenpos/lib/agents/pairing.ts:159-165 | a code that can be claimed has its agent, so that branch is never taken |
| Pairing.PairedWithACodeOutstanding | fenpos/lib/agents/agent-service.ts:117-127 | a run that leaves a paired agent with a code outstanding |
| Pairing.ReadIsAnswer | fenpos/lib/agents/pairing.ts:109-122 | the read a redemption begins with has one answer, and the machine takes it |
| Pairing.Database.IssuePairingCode | fenpos/lib/agents/pairing.ts:78-81 | both statements or neither, unless the agent is gone or the text is taken: a code goes exactly if it is this agent's and unconsumed, the new code is the only one added, and every other code and every agent is as it was |
| Pairing.Database.ClaimCode | fenpos/lib/agents/pairing.ts:127-152 | consumes the code and writes the token together, or changes nothing; no other code or agent is touched |
| Pairing.Database.Unpair | fenpos/lib/agents/agent-service.ts:180-188 | the token is gone, and nothing else of this agent or any other |
| Pairing.Database.RedeemPairingCode | fenpos/lib/agents/pairing.ts:99-168 | with others between its read and its transaction: succeeds exactly when the read finds a live code of that text and the transaction finds it still claimable; then that code is consumed and the token written, and otherwise it changes nothing |
| Pairing.Database.PurgeExpired | fenpos/lib/agents/pairing.ts:194-199 | a code goes if and only if it is unconsumed and has lapsed; every other code and every agent is as it was; the count is of those that went |
| Pairing.Database.DeleteAgent | fenpos/lib/agents/agent-service.ts:236-241 | no code of the agent remains, every other agent and code is as it was, and an unknown agent changes nothing |
| Pagination.ReadPageParams | fenpos/lib/api/pagination.ts:34-55 | the page size is the limit asked for, or the ceiling when that is lower, or the smaller of default and ceiling when none was asked; refused exactly for a limit that is no whole number of at least one; a blank cursor is none |
| Pagination.FindManyIs | fenpos/app/api/v1/jobs/route.ts:49-53 | what the query returns for a bookmark that is shown, hidden or gone |
| Pagination.PageHoldsWhatFollows | fenpos/lib/api/pagination.ts:97-103 | behind a shown bookmark a page holds the next rows, as many as were asked for if there are, and a cursor exactly when there are more |
| Pagination.PageIsOwedIff | fenpos/lib/api/pagination.ts:57-83 | a page is the one owed if and only if its bookmark is shown at the query or nothing follows it |
| Pagination.WalkGoesForward | fenpos/lib/api/pagination.ts:97-103 | whatever changes between requests, a walk's rows are in order and none comes twice |
| Pagination.FinishedWalkIsComplete | fenpos/lib/api/pagination.ts:78-103 | a walk that finishes and whose bookmarks held returns every row that survived it |
| Pagination.WalkIsCompleteOrRefused | fenpos/lib/api/pagination.ts:78-103 | when nothing changes between a request's check and its query, a walk that finishes returned every survivor exactly once, in order |
| Pagination.RefusedOnlyForALostBookmark | fenpos/lib/api/pagination.ts:78-83 | a refused walk names its reason: the bookmark it began with, or the last row it returned, was no longer visible at some request's check |
| Pagination.ShrinkingWalkEnds | fenpos/lib/api/pagination.ts:97-103 | over a list that only shrinks the walk ends |
| Pagination.SilentlyShort | fenpos/lib/api/pagination.ts:57-66 | a bookmark deleted between check and query: a walk that finishes without two rows that were there throughout |

## Left out

- Dither.CellsBounded: over real numbers; the rounding of `Float64` is idealised away here and in every statement about luminances.
- CanonicalText.HashedApart: a moment is its ISO text; strings are of Unicode scalar values, so lone surrogates are left out.
- Raster.DitherToRaster: the decoded bitmap is an input and the resize a function promised to give a whole bitmap of the asked width; the decoder, the resampler and the formats accepted are jimp's.
- Raster.FlattenOntoWhite: takes whole pixels only, as every bitmap of jimp's is.
- AuditChain.WalkSegment: the hash is a collision-free digest of one text for all of an event's fields (`CanonicalText.HashedApart` is about that text); finding the archive files to walk, and the join to the anchor and the epoch are not modelled.
- AuditChain.AuditDb.DrainAudit: the copy in the file is the rows read; what a crash leaves on disk is covered by the machine of `Rotation.dfy`, which takes both sources.
- AuditAppends.PromptAppendsNeverFork: takes the clock for one that does not go backwards; `AuditAppends.OneChainIffNoStaleInsert` does not use it.
- ArchivePeriod.Host.ArchivePeriod: the log source only, in this statement-by-statement form; log ids are natural numbers in the order of their text, and other writers insert finitely often while a rotation drains.
- LogSweep.SweepLogs: with archiving on, and where no month of the years 0 to 99 is met; the strict delete without archives and the `VACUUM` after either are not modelled.
- Period.PeriodsFullyBefore: requires the inputs on which the source's loop ends, since a method here must end; `Period.OtherwiseNeverEnds` is the other half.
- ArchiveFiles.ArchiveDirectory.ListArchives: the temporary copies `readArchive` makes are left out.
- LogArrivals.PromptRowsNeverBlock: takes the clock for one that does not go backwards, and the window for the least in force during the run; lines this server dates itself are the case of no report.
- AuditAppends.OneChainIffNoStaleInsert: the window is the least in force during the run.
- Lru.FaceCache.Keep: the memory of `fontFace` only; its two reads, and parsing a face, are not interleaved with writers as `rasterFor`'s are.
- RasterService.CallsAreLinearizable: takes for granted that every write to a row gives it a larger `updatedAt`; two writes in one millisecond would share a key.
- RasterService.WhatIsStoredIsHeld: the byte counter is proved in `Lru.dfy`; this machine carries only the entries.
- KeylessBudget.RunKeepsTime: needs a clock that does not go backwards; the ledger and the size bound do not.
- Pairing.ReplacedNeverGrants: a token stands for its hash and is never drawn twice; agents' names, what they report beyond a hostname, and failing an unpaired agent's jobs are left out.
- Pagination.ReadPageParams: what `Number` makes of a string is a parameter.
- Pagination.FinishedWalkIsComplete: rows keep their place, as jobs do; an asset renamed during a walk moves, and is not covered.
- The settings reads, the clock, random names and codes are parameters or fresh values; logging is left out.
- Uploads, imports, renames and replacements of assets are single writes; their validation (kinds, sizes, names) would only add case splits settled by one branch.
- Network code, request logging, authentication, the panel, and job delivery are not part of this model.
