# Proofs about downloading, queueing and naming

This project models the parts of the media downloader that are hardest to get right and proves what they promise:
the resumable parallel download, the shared rate limiter, the persisted job queue with its concurrent runs, and the
byte, text and arithmetic cores beside them. `dafny verify dfyconfig.toml` checks everything.

## How the modules fit together

- `Ranges`, `Download`, `DownloadSafety`, `DownloadTheorems`: the parallel range download. `Ranges` is the int64
  arithmetic that cuts a resource into parts. `Download` is a step relation over the producer, the bounded channel,
  the workers, the two contexts, the one-slot error channel, the part files and the joining goroutine; the server,
  the file system and the caller's cancellation are its environment, and a run may be killed and started again at any
  point, keeping any of its part files. `DownloadSafety` proves the invariant, `DownloadTheorems` the results:
  correctness after any number of earlier runs, honest errors, one writer per part, termination, progress, and
  exactly when a resumed download can still succeed.
- `Fetch`, `FetchRefinement`: the copy loops as imperative code on files and a running hash, and the proof that the
  loop of `fetchRangeToFile` does to a part file exactly what some run of the protocol's worker does.
- `RateLimiter`: the token bucket, with the bound on every window of every history of concurrent callers.
- `Times`: calendar, RFC 3339 text and its textual order. `Store`: the job table, its upsert and its listing.
- `Queue`: the queue object and one tick. `Interleaving`: ticks and runs as fine steps; it proves that a run has its
  staging directory to itself, which is what the download's model takes for granted about its destination.
  `Retries`: how often jobs are run and when, over whole histories of queries, launches, saves and failures. `RunJob`:
  one run from launch to clean-up. `Publish`: many runs publishing at once.
- `Boxes`, `Playlist`, `Hls`, `Label`, `Hosts`, `Ranking`: the MP4 box scan, the HLS playlist parser, the segmented
  download composed of it and the copy loops, name cleaning and number formatting, host health, and the ranking of
  sources. `Paths`: the two halves of a path and the sidecar's name.

Code that updates variables or objects is modelled by methods with loops and by classes, each tied by its contract to
a specification function or to the property itself; concurrent code is modelled by steps on values.

## What turned out not to hold, and when it does

- The parts cover the resource if and only if `total + size - 1` fits in int64 or one part is enough
  (`Ranges.TilesIff`); a resource of the greatest int64 length is planned as one part of eight megabytes.
- An over-long part file makes every later run that finds it fail, and an over-long reply leaves one behind
  (`DownloadTheorems.OverlongReplyStrands`). A resumed download can succeed if and only if no part file is too long,
  the parts cover the resource and there is a worker (`DownloadTheorems.CanSucceedIff`).
- A caller alone needs at most two passes for a chunk if its sleeps last as long as asked for in seconds
  (`RateLimiter.RestedFinishes`). But the sleep is cut to whole nanoseconds, so the second pass can come too early
  (`RateLimiter.SecondPassCanFail`): for a caller woken exactly then it succeeds if and only if nothing was cut off
  (`RateLimiter.WokenOnTimeIff`). With the sleeps as cut three passes are enough (`RateLimiter.AloneFinishes`).
- Stored times compare like times if and only if their whole seconds differ or the earlier fraction's digits do not
  begin the later one's (`Times.TextOrderIff`).
- Between the listing of a job and the check of the running set the job can finish; it is then launched again from its
  old row (`Interleaving.StaleRelaunch`); a launch from anything but the current row always has that cause
  (`Interleaving.StaleOnlyIfWritten`). Such stale launches cost one run each, and at most double the number of runs
  (`Retries.RunsAreBounded`); both bounds are reached (`Retries.BoundIsReached`, `Retries.DoubleIsReached`).
- Without stale launches no job is run more than `MaxAttempts + 1` times if it was added without a negative count of
  attempts; if it was added with one and is given up, it has been run more often (`Retries.WithinAllowedIff`,
  `Retries.NegativeAttemptsRunMore`).
- A retry waits for its delay, to within a second, when it is launched from its current row (`Retries.RetriesWait`); a
  stale launch can come at the very moment of the failure (`Retries.StaleRetryNeedNotWait`).
- Readers of the library never see a partial file if and only if no two runs remux beside the same target, no
  target is the file another run remuxes into, and no target is named `.hermit.json`, the name under which every run
  writes its sidecar in place (`Publish.PublishedWholeIff`, `Publish.NoClashIff`, `Publish.SeenUnderSidecar`).
- A comment put into an accepted playlist changes nothing if and only if it does not come between a rendition's
  attributes and its address; there it is taken for the address, and the playlist is rejected whatever stands around
  (`Playlist.CommentHarmlessIff`, `Playlist.CommentBeforeAddress`).
- A quoted list of codecs is cut at its first comma, so an AV1 codec that comes second is not seen
  (`Playlist.CodecListIsCut`).
- An address relative to a base that names a host alone loses the host: it is kept if and only if the base has a path,
  or the address begins with the host's name anyway (`Hls.HostIsKeptIff`). Slashes at the end of a base count for nothing
  (`Hls.SlashIsDropped`).
- The chosen rendition has the greatest score if and only if some score is not negative or the first one is the
  greatest (`Playlist.ChoiceIsBestIff`, with an input in `Playlist.NegativeBandwidthsMislead`).
- The text of a number reads back if and only if the number is not the least 64-bit one (`Label.ReadsBackIff`).
- On the deferred path a failing sidecar leaves the file in place and yet queues the job again while attempts remain,
  and fails it afterwards (`RunJob.FailedSidecarLeavesTheFile`); on the other path it leaves the row done. The kind of
  an earlier failure stays in the row of a job that is done later.
- After a deferred run that is done the target holds the source's bytes unless the target is named like the sidecar;
  then it holds the sidecar (`RunJob.DoneHoldsTheSource`).

## Model

| member | source | states |
|---|---|---|
| Ranges.PartSize | internal/fetch/download.go:118-121 | the part size is positive, and differs from the configured one exactly if that is not positive |
| Ranges.CountCases | internal/fetch/download.go:122-125 | the number of parts is the quotient rounded up, or 1 once the rounding sum leaves int64 |
| Ranges.QuotientTruncates | internal/fetch/download.go:122-122 | the remainder of the division has the sign of the dividend |
| Ranges.PartBounds | internal/fetch/download.go:138-145 | for every index sent, the wrapping arithmetic gives a non-empty range inside the resource, at idx*size |
| Ranges.PlanChained | internal/fetch/download.go:122-145 | the ranges follow each other without gap or overlap from byte 0 on |
| Ranges.TilesIff | internal/fetch/download.go:118-145 | the ranges tile the resource iff the rounding sum fits int64 or one part is enough |
| Ranges.HugeTotalIsCutShort | internal/fetch/download.go:118-125 | a concrete resource whose plan does not cover it |
| Download.Workers | internal/fetch/download.go:34-48 | a new downloader keeps a request for 1 to 8 workers, and settles on 4 for fewer and on 8 for more |
| DownloadSafety.WorkerInv | internal/fetch/download.go:133-177 | every step of every worker keeps the invariant of the running download |
| DownloadSafety.StepWritesNext | internal/fetch/download.go:305-323 | a worker appends to its file exactly the next bytes of the resource |
| DownloadSafety.AllFinished | internal/fetch/download.go:190-202 | with the error slot empty and the context live after the join, every part was counted and is whole |
| DownloadSafety.JoinInv | internal/fetch/download.go:190-204 | the join moves on only with all parts whole, and reports nothing false |
| DownloadSafety.CopyInv | internal/fetch/download.go:204-223 | after n parts the destination and the hash hold exactly the bytes the first n parts cover |
| DownloadSafety.OnlyWhileWaiting | internal/fetch/download.go:178-191 | producer and workers move only before the join is over |
| DownloadSafety.StepInv | internal/fetch/download.go:127-234 | every step of any goroutine, and every crash and restart, keeps the whole invariant |
| DownloadSafety.RunInv | internal/fetch/download.go:105-234 | the invariant holds after every history |
| DownloadTheorems.SuccessIsTheResource | internal/fetch/download.go:105-234 | after any interleaving and any earlier failed or killed runs, success means destination, byte count, digest and part count are the resource's |
| DownloadTheorems.ErrorsAreNotEchoes | internal/fetch/download.go:147-202 | no reported error is an echo of the download's own cancel, cancellation is the caller's, and the two sanity checks never fire on a plan that fits int64 |
| DownloadTheorems.FirstFaultIsReturned | internal/fetch/download.go:147-195 | the fault returned is that of the run's first report, and after a report nothing but a fault is returned |
| DownloadTheorems.OneWriter | internal/fetch/download.go:133-177 | a part file grows only at the hands of the one worker that holds its index, while the call is running |
| DownloadTheorems.QuietAfterReturn | internal/fetch/download.go:190-233 | after the call has returned, on success or failure, no file changes any more |
| DownloadTheorems.StepFalls | internal/fetch/download.go:127-234 | a measure over unsent, buffered and held indices and live goroutines falls at every step |
| DownloadTheorems.RunsAreFinite | internal/fetch/download.go:105-234 | the measure bounds the length of every run |
| DownloadTheorems.Progress | internal/fetch/download.go:133-202 | in every reachable state that is not final some goroutine can take a step in which nothing fails |
| DownloadTheorems.BlockedIffNoWorkers | internal/fetch/download.go:132-191 | the download hangs iff it has no workers and nobody cancels, also when all workers died with the channel full |
| DownloadTheorems.CanFinish | internal/fetch/download.go:105-234 | with a worker, steps in which nothing fails lead from every reachable state to the end |
| DownloadTheorems.BenignRunSucceeds | internal/fetch/download.go:105-234 | a run in which nothing fails and every reply is exact ends with success |
| DownloadTheorems.TooLongStays | internal/fetch/download.go:268-270 | a part file longer than its part keeps the run from ever succeeding |
| DownloadTheorems.CanSucceedIff | internal/fetch/download.go:105-234 | part files left by earlier runs can be completed iff the plan tiles the resource, there is a worker, and no file is too long |
| DownloadTheorems.DownloadCanSucceed | internal/fetch/download.go:105-234 | a download that starts afresh can succeed for every resource and part size that fit and any concurrency asked for |
| DownloadTheorems.OverlongReplyStrands | internal/fetch/download.go:268-316 | a history from no files to an over-long part file, from which no later run succeeds, with any number of workers |
| Fetch.OutFile.Write | internal/fetch/download.go:309-311 | a write appends its block, or the part that fits, and says so |
| Fetch.Hasher.Write | internal/fetch/download.go:85-85 | the running hash is fed the block after everything before it |
| Fetch.ReadInto | internal/fetch/download.go:303-324 | the loop appends, counts and fails as the recursive specification of the reply says |
| Fetch.ReceiveInto | internal/fetch/download.go:288-324 | a refused reply changes nothing, an accepted one appends what the loop takes from it |
| Fetch.FetchRangeToFile | internal/fetch/download.go:263-325 | file, count and error are those of the specification, for every partial file, reply and full disk |
| Fetch.FetchSucceedsIff | internal/fetch/download.go:263-325 | a fetch succeeds iff nothing is missing, or it opens and a 206 without a range or with one from the first missing byte on brings an unbroken body that fits and is not too long; then the body is appended whole |
| Fetch.FetchFails | internal/fetch/download.go:263-325 | which failure is reported, in the order of the checks, with the bytes unchanged up to the header and a prefix of the body appended after it |
| Fetch.CompleteReply | internal/fetch/download.go:263-325 | a reply with exactly the missing bytes completes the part |
| Fetch.CopyBody | internal/fetch/download.go:347-368 | the whole body reaches the file, the hash and the count in order, or exactly one of the two failures is reported with a prefix written |
| Fetch.CopyStream | internal/fetch/download.go:327-373 | success iff there is a reply, it is 200, unbroken and fits, and the destination can be created and closed; then the destination is its body, for any chunking |
| Fetch.CopyLocal | internal/fetch/download.go:60-96 | success iff the source opens, the destination can be created, and neither reading, writing nor the context stops the loop; otherwise at most a prefix is written |
| Fetch.CopySegment | internal/fetch/download.go:408-445 | one segment is appended whole iff there is a reply, and it is 200, unbroken and fits |
| Fetch.CopyAll | internal/fetch/download.go:405-445 | the segments are appended in order iff all are sound and fit |
| Fetch.CopySegments | internal/fetch/download.go:393-449 | success iff there are segments, all are sound and fit, and the destination can be created and closed; then the output is their bodies concatenated in order, for any chunking |
| Fetch.CopyPart | internal/fetch/download.go:211-222 | one part is appended whole iff it opens, can be read and fits |
| Fetch.CopyParts | internal/fetch/download.go:208-223 | the parts are appended in order iff all can be read and fit |
| Fetch.AssembleParts | internal/fetch/download.go:204-229 | success iff all parts can be read, fit and add up to the total, and the destination can be created and closed; then destination and hash are their concatenation |
| FetchRefinement.CopiedIsNext | internal/fetch/download.go:303-324 | from an honest reply the loop takes exactly the resource's next bytes |
| FetchRefinement.ReceiveKeepsPrefix | internal/fetch/download.go:288-324 | whatever the reply, the file stays a prefix of the resource and an error-free count is its length |
| FetchRefinement.FetchKeepsPrefix | internal/fetch/download.go:263-325 | whatever fails, a part file stays a prefix of the resource from its start, and one of the right size is right |
| FetchRefinement.CopyIsWorkerRun | internal/fetch/download.go:303-324 | the copy loop does what some run of the protocol's reading worker does |
| FetchRefinement.FetchIsWorkerRun | internal/fetch/download.go:147-155 | the whole fetch refines the protocol's worker, file and error alike |
| RateLimiter.BoundedRate.constructor | internal/fetch/client.go:84-89 | a new limiter is full, with a positive size |
| RateLimiter.BoundedRate.Refill | internal/fetch/client.go:97-105 | tokens come in for the time since the last refill, never more than the size |
| RateLimiter.BoundedRate.Take | internal/fetch/client.go:96-117 | one critical section refills, caps and grants the next chunk as specified, and the tokens stay in range |
| RateLimiter.BoundedRate.Attempt | internal/fetch/client.go:95-117 | a pass after any calls of others grants a full chunk, the last piece, or nothing |
| RateLimiter.BoundedRate.Wait | internal/fetch/client.go:91-122 | the chunks granted add up to exactly n in the end, each of them at most the size and full except the last |
| RateLimiter.TakenPays | internal/fetch/client.go:98-115 | one critical section turns time into at most as many tokens, and tokens into grants |
| RateLimiter.TokensInRange | internal/fetch/client.go:84-115 | over every history the tokens stay between 0 and the size |
| RateLimiter.Potential | internal/fetch/client.go:91-122 | grants of a window plus tokens left never exceed the allowance up to now, although the refill is lazy |
| RateLimiter.WindowBound | internal/fetch/client.go:91-122 | in every window of every history of any callers at most size*(1 + length) bytes are granted |
| RateLimiter.WindowBoundIsTight | internal/fetch/client.go:91-122 | a history that meets the bound exactly |
| RateLimiter.NothingIsLost | internal/fetch/client.go:96-117 | over every history tokens left and bytes granted are the tokens at the start and all that came in, or the size and all that came in since the bucket was last full |
| RateLimiter.BurstIsGranted | internal/fetch/client.go:106-113 | calls at one instant that the tokens cover are all granted and take exactly their bytes |
| RateLimiter.RetryIff | internal/fetch/client.go:110-120 | after a refusal the next attempt succeeds iff the time since makes up for the missing tokens |
| RateLimiter.WokenOnTimeIff | internal/fetch/client.go:110-120 | for a caller woken exactly when it asked to be, the second pass succeeds iff the sleep was a whole number of nanoseconds |
| RateLimiter.SecondPassCanFail | internal/fetch/client.go:116-120 | a caller alone who sleeps exactly as asked and is refused again |
| RateLimiter.ThirdPassSucceeds | internal/fetch/client.go:110-120 | one more reading of a running clock is then enough |
| RateLimiter.SecondIsGranted | internal/fetch/client.go:110-120 | after a refusal and a sleep of the seconds asked for the second pass is granted |
| RateLimiter.RestedFinishes | internal/fetch/client.go:91-122 | a caller alone whose sleeps last the seconds asked for is done after at most two passes per chunk |
| RateLimiter.AloneFinishes | internal/fetch/client.go:91-122 | with sleeps cut to whole nanoseconds it is done after at most three passes per chunk |
| RateLimiter.ChunksHold | internal/fetch/client.go:95-96 | the chunks counted there are the fewest that hold so many bytes |
| Times.CivilIsValid | internal/db/store.go:16-21 | the calendar date of every instant of the years 0000 to 9999 is valid and counts back to it |
| Times.DateByArithmetic | internal/db/store.go:16-21 | date and clock time of every instant by arithmetic alone, with years and months counted from March |
| Times.InRangeIff | internal/db/store.go:16-21 | the times the model speaks of are those of years up to 9999 |
| Times.ZeroTimeIs | internal/db/store.go:16-32 | the zero time is the first instant of year 1 and is stored as the empty text |
| Times.TextFields | internal/db/store.go:16-21 | where the fields of a stored time stand, and what separates them |
| Times.FractionDigits | internal/db/store.go:16-21 | a fraction is the nine digits without the zeros at the end |
| Times.TextReadsBack | internal/db/store.go:14-32 | every valid date and time, to the nanosecond, is parsed from its text |
| Times.StoredTimeReadsBack | internal/db/store.go:16-32 | every time of those years, and the unset time, is read back as it was stored |
| Times.TextLessIff | internal/db/store.go:289-299 | text is compared by its first difference, and a text comes before its extensions |
| Times.TextOrderIff | internal/db/store.go:289-299 | stored text sorts like time iff the seconds differ or the earlier fraction does not begin the later one |
| Times.WholeSecondSortsLast | internal/db/store.go:289-299 | a whole second sorts after every later time within it |
| Times.DueWithinASecond | internal/db/store.go:289-292 | a retry found due by the textual comparison is less than a second away |
| Store.BeforeIsTransitive | internal/db/store.go:299-299 | the order by priority and stored creation time is transitive and asymmetric |
| Store.ListingIsFair | internal/db/store.go:289-299 | only due rows are listed, in order, no due row before a listed one is left out, and a short listing is complete |
| Store.ListingTells | internal/db/store.go:277-299 | the same spelled out: queued, retry time not later than now, lowest priority number and then earliest creation first, 200 rows if the number asked for is no good |
| Store.ShortListingTells | internal/db/store.go:277-299 | a listing shorter than that holds every due job |
| Store.ListedOnce | internal/db/store.go:295-299 | no job is listed twice |
| Store.Table.InsertJob | internal/db/store.go:205-227 | a conflicting row is queued again under its id and every other row stays; otherwise a row with a new id is added |
| Store.Table.UpdateJob | internal/db/store.go:237-248 | only the row with the job's id is set, all but its episode, and a job without a row changes nothing |
| Store.Table.ListDue | internal/db/store.go:276-323 | the answer is the first rows of a sorted list of exactly the due ones |
| Queue.RetryBackoff | internal/queue/queue.go:292-304 | the loop's early exit changes nothing: the delay is the doubling one, for every attempt |
| Queue.DelayDoubles | internal/queue/queue.go:292-304 | the delay is the smaller of 30 s times a power of two and 30 min |
| Queue.Queue.constructor | internal/queue/queue.go:34-40 | a new queue runs nothing and does not know its battery |
| Queue.Queue.SetBattery | internal/queue/queue.go:42-47 | the battery reading is replaced and nothing else |
| Queue.Queue.CheckBattery | internal/queue/queue.go:49-61 | downloads are allowed iff charging, or the level is known and above the minimum |
| Queue.Queue.Limit | internal/queue/queue.go:82-96 | the limit is the configured one of the power state or, if that is not positive, two |
| Queue.Queue.Launch | internal/queue/queue.go:104-117 | the loop launches exactly the listed jobs not running, in order, and its own limit check never stops it |
| Queue.Queue.LaunchDue | internal/queue/queue.go:97-117 | the launch is fair if the query is answered: no due job that is left behind sorts before a launched one, within the limit |
| Queue.Queue.Tick | internal/queue/queue.go:77-118 | nothing happens behind the gate, at the limit or without an answer to the query, otherwise a fair launch |
| Queue.LaunchIsFair | internal/queue/queue.go:97-117 | passing over running jobs keeps a listing's fairness, and a due job is left behind only at the limit |
| Queue.FairLaunchTells | internal/queue/queue.go:97-117 | the same spelled out for a launched job and a due one left behind |
| Queue.Queue.AfterFailure | internal/queue/queue.go:275-288 | the assignments make the job queued again with its delay while attempts remain, and failed otherwise |
| Queue.Queue.FailJob | internal/queue/queue.go:275-290 | a failure rewrites the job's row, queued again with its delay or failed, and no other |
| Interleaving.StepInv | internal/queue/queue.go:77-127 | every fine step of pump, runs and environment keeps the invariant |
| Interleaving.OneRunPerJob | internal/queue/queue.go:104-127 | at most one run is live per job id, its id is in the running set, and its directory is its own |
| Interleaving.DirChangesByOwner | internal/queue/queue.go:120-127 | the directory of a job changes only at the hands of its one live run, before that gives its id back |
| Interleaving.LaunchesStayWithinLimit | internal/queue/queue.go:82-117 | no launch takes the live runs above the limit its tick computed, and the check inside the loop is never taken |
| Interleaving.StaleRelaunch | internal/queue/queue.go:100-116 | a history in which a job that is done is run again from its old row |
| Interleaving.StaleOnlyIfWritten | internal/queue/queue.go:100-116 | a job launched while its row is no longer as listed has had that row written between the query and the launch |
| Retries.StepInv | internal/queue/queue.go:77-135 | rows, runs, the last answer and failure times belong together after every step, also when a listed job is launched late |
| Retries.FailureRowIsFailure | internal/queue/queue.go:275-290 | the failure step writes the row that `FailJob` writes |
| Retries.RunsAreBounded | internal/queue/queue.go:77-135 | in every history a job is run at most once more than it can fail, plus once for every stale launch, and never more than twice as often; one that is given up has had at least all the runs it can have without stale launches |
| Retries.WithinAllowedIff | internal/queue/queue.go:275-290 | a job without a stale launch is run at most MaxAttempts + 1 times if it was inserted without negative attempts, and when it has been given up only then |
| Retries.RetriesWait | internal/queue/queue.go:275-304 | a retry launched from its current row starts no earlier than the last failure plus its delay less one second, and its attempts are the runs so far but for the stale ones |
| Retries.BoundIsReached | internal/queue/queue.go:275-290 | for every setting and job a history without stale launches that uses all its runs |
| Retries.NegativeAttemptsRunMore | internal/db/store.go:205-220 | a job added with minus one attempts is run more often than the setting allows |
| Retries.DoubleIsReached | internal/queue/queue.go:100-131 | for every setting and job a history in which stale launches double the runs |
| Retries.StaleRetryNeedNotWait | internal/queue/queue.go:100-131 | a history in which a job queued for later is launched at the moment of its failure |
| Paths.SidecarIff | internal/scrub/scrub.go:50-61 | a file is some file's sidecar iff it is named `.hermit.json`, and then it is its own |
| Paths.PathParts | internal/scrub/scrub.go:50-61 | a path is a directory, empty or with its slash, and a name without slash |
| Paths.PathPartsAre | internal/scrub/scrub.go:50-61 | and in one way only |
| Publish.OwnStep | internal/queue/queue.go:187-231 | unless it is its own sidecar, a run changes its target only by a rename, to a whole file, and its remux output only as ffmpeg writes it |
| Publish.StepInv | internal/queue/queue.go:186-237 | without a clash every step, sidecar writes included, keeps targets whole and remux output intact |
| Publish.SidecarGrows | internal/scrub/scrub.go:56-61 | while only its run writes it, a sidecar holds what has been written of it |
| Publish.SidecarIsWritten | internal/scrub/scrub.go:50-61 | an undisturbed run ends with its whole sidecar, and changes nothing else on the way |
| Publish.PublishedWholeIff | internal/queue/queue.go:186-237 | no reader finds a partial file under a target in any interleaving iff no run remuxes or writes a sidecar in its way |
| Publish.NoClashIff | internal/queue/queue.go:174-179 | that is so iff no target is named `.hermit.json` and no two runs remux in each other's way |
| Publish.SeenUnderSidecar | internal/scrub/scrub.go:56-61 | a target that is a run's sidecar is seen empty, even with that one run |
| Publish.SeenWhileRemuxed | internal/queue/queue.go:207-220 | a target that is another run's remux output is seen empty |
| Publish.SeenAfterTruncation | internal/queue/queue.go:207-220 | of two runs remuxing beside one target the second truncates what the first renames |
| Publish.DeferredSafeIff | internal/queue/queue.go:186-198 | deferred runs are safe, even if they share targets, iff none of these is named `.hermit.json` |
| Publish.DeferredIsSafe | internal/queue/queue.go:186-198 | the same direction whatever files are empty |
| RunJob.Save | internal/queue/queue.go:133-136 | a save writes all of the row or nothing |
| RunJob.Fail | internal/queue/queue.go:275-290 | the failure exit records the failure, if it can, in this job's row only |
| RunJob.Prepare | internal/queue/queue.go:131-170 | the steps before the download end with the kind of the first failure, and pass only with source, space, directory and download |
| RunJob.WriteSidecar | internal/scrub/scrub.go:50-61 | the sidecar is written whole, cut off by a failing write, or not at all |
| RunJob.PublishDeferred | internal/queue/queue.go:186-198 | rename, sidecar and row are as promised for every failure in between |
| RunJob.FailedSidecarLeavesTheFile | internal/queue/queue.go:187-194 | with only the sidecar failing, the file is in place while the row is queued again iff attempts remain, and failed otherwise |
| RunJob.PublishFile | internal/queue/queue.go:221-237 | the same for the other path, where the row is done before the sidecar is written |
| RunJob.FinishRun | internal/queue/queue.go:180-237 | everything after the download is as promised on both paths |
| RunJob.RunJob | internal/queue/queue.go:120-238 | whatever has become of the row since the listing: only this job's row changes, the library changes only by the whole published file, the removal of remux output and the sidecar, done means published and described, and with all saves written row and library are the ones the answers of the outside determine |
| RunJob.RowTells | internal/queue/queue.go:120-238 | with all saves written the row is done iff every step succeeded, except the sidecar on the remuxing path, and otherwise names the failure of the first step that did not |
| RunJob.LibraryTells | internal/queue/queue.go:186-237 | and name by name what the library holds: target, sidecar, no remux output, the rest as before |
| RunJob.DoneHoldsTheRemux | internal/queue/queue.go:206-237 | on the remuxing path done means that the target is ffmpeg's output as it came, or the download without it, and that the output's own name is gone |
| RunJob.DoneHoldsTheSource | internal/queue/queue.go:166-198 | on the deferred path, done for a ranged source means digest and byte counts are the source's, and the target is the source, or the sidecar if it is named like it |
| Boxes.Bytes8ReadBack | internal/mux/mux.go:69-76 | a big-endian 64-bit size, and each of its two 32-bit halves, is read back from its bytes |
| Boxes.BoxesChain | internal/mux/mux.go:64-98 | the boxes found stand one after the other inside the file, so the offset strictly grows |
| Boxes.HugeSizeStops | internal/mux/mux.go:76-80 | a 64-bit size of 2^63 or more ends the scan |
| Boxes.ReadSize | internal/mux/mux.go:65-86 | reading a header gives the parser's size, or 0 where the scan gives up |
| Boxes.BoxPositions | internal/mux/mux.go:52-100 | the loop finds what the recursive parser finds, for every file |
| Boxes.ScanFinds | internal/mux/mux.go:87-99 | a position is found iff there is a box of its kind, and is that of one |
| Boxes.ScanDecides | internal/mux/mux.go:33-41 | the two positions decide exactly whether no moov is reached or some mdat precedes the first moov |
| Boxes.NeedsFaststart | internal/mux/mux.go:24-50 | true iff the file begins like an MP4 file and no moov is reached or some mdat precedes the first one |
| Boxes.PrintedBoxesAreFound | internal/mux/mux.go:64-98 | boxes written with 32-bit, 64-bit or to-end-of-file sizes are found in order and in place |
| Boxes.FoundWasWritten | internal/mux/mux.go:64-98 | conversely every file is a written list of the boxes found and a rest in which no box begins |
| Boxes.BigEndian | internal/mux/mux.go:69-76 | sizes have their most significant byte first |
| Boxes.PrintedDecision | internal/mux/mux.go:24-50 | the decision about a written file is the one its list of kinds says |
| Boxes.PrintedWithoutFtyp | internal/mux/mux.go:30-32 | a written list that does not begin with `ftyp` is left alone |
| Playlist.SplitOfJoin | internal/fetch/m3u8.go:48-48 | splitting undoes joining, for commas and for lines |
| Playlist.SpacesAre | internal/fetch/m3u8.go:36-36 | the code points that are trimmed from lines and attributes |
| Playlist.EdgesGo | internal/fetch/m3u8.go:36-54 | what stands around a trimmed text goes, and no more |
| Playlist.ReadAttributes | internal/fetch/m3u8.go:46-65 | the attribute loop folds the attributes in order |
| Playlist.ParsePlaylist | internal/fetch/m3u8.go:30-82 | the loop computes the recursive reading of the lines, with both errors |
| Playlist.NeverBoth | internal/fetch/m3u8.go:77-81 | no accepted playlist has both segments and variants, and it is media iff it has segments |
| Playlist.AttribsReadBack | internal/fetch/m3u8.go:46-65 | every rendition's attributes are parsed back from their line |
| Playlist.InfLineReads | internal/fetch/m3u8.go:45-65 | a written rendition in full, tag and attributes |
| Playlist.BareRendition | internal/fetch/m3u8.go:45-69 | a rendition without attributes has none, and bandwidth 0 |
| Playlist.ScanSigned | internal/fetch/m3u8.go:57-59 | a bandwidth is read with its sign, up to what follows its digits |
| Playlist.ScanFails | internal/fetch/m3u8.go:57-59 | a number beyond 64 bits is not read, nor what does not begin like one |
| Playlist.CodecListIsCut | internal/fetch/m3u8.go:48-61 | a quoted list of codecs keeps its first one only |
| Playlist.LineTooLongIff | internal/fetch/m3u8.go:31-76 | lines are rejected for their length iff one has 65536 bytes or more |
| Playlist.ByteLengthCounts | internal/fetch/m3u8.go:31-35 | a line's length in UTF-8 by its code points |
| Playlist.PrintedReadsBack | internal/fetch/m3u8.go:30-82 | any written list of comments, segments and renditions is parsed back in order and number, or rejected iff it has both |
| Playlist.CommentHarmlessIff | internal/fetch/m3u8.go:66-71 | a comment anywhere in an accepted playlist changes nothing iff it does not come between a rendition's attributes and its address; there the playlist is rejected |
| Playlist.CommentBeforeAddress | internal/fetch/m3u8.go:66-71 | a comment before an address gets the playlist rejected whatever comes before and after |
| Playlist.PassedOver | internal/fetch/m3u8.go:36-44 | a blank line or a tag without use is harmless anywhere in any lines |
| Playlist.ScoreIs | internal/fetch/m3u8.go:105-110 | the longer resolution patterns add nothing to the score, for every text |
| Playlist.FullHdWinsIff | internal/fetch/m3u8.go:105-114 | 1080 is preferred to 720 iff its bandwidth is less than thirty steps behind |
| Playlist.ChooseVariant | internal/fetch/m3u8.go:87-117 | the choice is the first eligible rendition of the greatest score, or the first if all scores are negative |
| Playlist.PickBest | internal/fetch/m3u8.go:102-116 | the loop finds that rendition |
| Playlist.ChoiceIsBestIff | internal/fetch/m3u8.go:102-116 | the choice is the best iff some score is not negative or the first is the greatest; so for all non-negative bandwidths |
| Playlist.ChoiceIsUnique | internal/fetch/m3u8.go:102-116 | there is only one such choice |
| Playlist.NegativeBandwidthsMislead | internal/fetch/m3u8.go:103-115 | two renditions of which the worse is chosen |
| Playlist.Av1IsLastResort | internal/fetch/m3u8.go:91-100 | an AV1 rendition is chosen iff there is no other |
| Playlist.Av1Iff | internal/fetch/m3u8.go:93-94 | a rendition is AV1 iff its codec has `av1` or `av01` somewhere, in small letters or capitals |
| Playlist.CodecsNamed | internal/fetch/m3u8.go:93-94 | AV1 profiles are AV1, and an AVC codec is not |
| Hls.FetchPlaylist | internal/fetch/download.go:452-473 | a playlist is the parsed text, if it comes and is accepted |
| Hls.LeadsOnce | internal/fetch/download.go:376-392 | the playlists lead to at most one list of segments and one address |
| Hls.ResolvedBeside | internal/fetch/m3u8.go:120-130 | a relative address takes the place of what follows the base's last slash, an absolute one stays |
| Hls.SlashIsDropped | internal/fetch/m3u8.go:120-130 | a slash at the end of the base changes nothing |
| Hls.ResolvedBelow | internal/fetch/m3u8.go:125-128 | a base without slash is taken for a directory |
| Hls.HostIsKeptIff | internal/fetch/m3u8.go:120-130 | a relative address stays on its base's host iff the base has a path or the address begins with the host's name |
| Hls.FindMedia | internal/fetch/download.go:376-392 | it is found if there is one: the playlist itself, or the one of its chosen rendition |
| Hls.DownloadHls | internal/fetch/download.go:375-450 | success iff the playlists lead to segments that are all served whole and fit; then output and hash are their bytes in the order of the playlist |
| Hls.WrittenMediaLeads | internal/fetch/download.go:376-395 | a written media playlist leads to exactly its segments in order |
| Hls.WrittenMasterLeads | internal/fetch/download.go:381-395 | a written master playlist leads on to the segments of its chosen rendition |
| Label.CleanIsClean | internal/label/label.go:20-36 | the result has no illegal, control, format or emoji code point, no run of spaces, and no space or dot at its ends |
| Label.CleanTells | internal/label/label.go:13-36 | the same by code points, for every position of the result |
| Label.PlainTells | internal/label/label.go:13-36 | conversely the code points that stay, with every class that goes listed in full |
| Label.ColonIsSpaced | internal/label/label.go:24-25 | between clean names a colon becomes a spaced dash |
| Label.IllegalIsDashed | internal/label/label.go:26-26 | and each of the eight illegal characters a dash |
| Label.UnchangedIffClean | internal/label/label.go:20-36 | a name is left as it is iff it is clean |
| Label.CleanTwice | internal/label/label.go:20-36 | cleaning is idempotent on every text |
| Label.CleanKeeps | internal/label/label.go:20-36 | everything that no pass removes or puts in is kept in order and number |
| Label.Itoa | internal/label/label.go:86-106 | the digits written from the end of the buffer are the decimal text, for every 64-bit number |
| Label.WriteDigits | internal/label/label.go:94-100 | the loop leaves the decimal digits at the end of the buffer, and none for a number that is not positive |
| Label.ReadsBackIff | internal/label/label.go:86-106 | the number is read back from its text iff it is not the least one |
| Hosts.Registry.constructor | internal/provider/registry.go:37-42 | a new registry knows no host |
| Hosts.Registry.RecordHost | internal/provider/registry.go:206-241 | a report changes the entry of its own host as specified, and no other |
| Hosts.OwnReportsOnly | internal/provider/registry.go:213-240 | an entry depends on the reports about its own host only, over every history |
| Hosts.LastTimes | internal/provider/registry.go:213-229 | the times of the last success and failure, the number of reports and the first host are remembered |
| Hosts.AverageMoves | internal/provider/registry.go:214-224 | a report moves the average a fifth of the way to one or to zero, from 0.7 at first |
| Hosts.AverageBounds | internal/provider/registry.go:214-224 | the average stays in [0,1] and is at least 0.7*0.8^f after f failures |
| Hosts.LowTakesFive | internal/provider/registry.go:237-239 | a low average takes five failures, so the guard on the number of samples decides nothing |
| Hosts.NoEarlyBan | internal/provider/registry.go:237-239 | no host is banned before its fifth failure |
| Hosts.BannedIffLow | internal/provider/registry.go:237-239 | a failure bans for a day from then iff the average is low |
| Hosts.BanIsOfLastLow | internal/provider/registry.go:237-239 | the ban is that of the last failure that left the average low |
| Hosts.BansStay | internal/provider/registry.go:225-239 | a success leaves a ban alone, and a failure never shortens one |
| Hosts.SevenFailuresBan | internal/provider/registry.go:213-239 | any seven failures in a row leave the host banned, whatever came before |
| Hosts.SixFailuresNeedNot | internal/provider/registry.go:213-239 | a history with six failures in a row and no ban |
| Hosts.LatencyBetween | internal/provider/registry.go:230-236 | the latency figure is unset or between any bounds of the positive latencies reported |
| Hosts.LatencyMoves | internal/provider/registry.go:230-236 | the first positive latency is taken as it is, a later one is averaged with the figure so far |
| Ranking.BannedIffNegative | internal/provider/scoring.go:14-62 | a source scores -1 iff its host is banned, and at least 0.195 otherwise |
| Ranking.WorstScore | internal/provider/scoring.go:14-62 | 0.195 is reached |
| Ranking.ScorePrefers | internal/provider/scoring.go:14-62 | a source no worse in any respect never scores less, and one with a better picture or codec scores more |
| Ranking.ScoreOfBanned | internal/provider/scoring.go:46-52 | a source scores -1 iff its host is known and its ban is not over |
| Ranking.PictureIsWorth | internal/provider/scoring.go:15-23 | 1080 is worth 0.135 more than 720, and 720 is worth 0.09 more than the rest |
| Ranking.CodecIsWorth | internal/provider/scoring.go:25-35 | HEVC, AVC, other codecs and AV1 are 0.02, 0.08 and 0.13 apart |
| Ranking.LatencyAndSizeAreWorth | internal/provider/scoring.go:37-59 | a millisecond below two seconds is worth 0.00005, no measurement counts like a second, a known size is worth 0.05 |
| Ranking.HostIsWorth | internal/provider/scoring.go:46-54 | a known host's average is worth 0.15 of itself, an unknown host counts like 0.7 |
| Ranking.OneScore | internal/provider/scoring.go:61-61 | one score in full, from which the differences give every other |
| Ranking.FullHdAvcFirstIff | internal/provider/scoring.go:14-62 | a full-HD AVC source is ranked before a 720 HEVC one iff host, latency and size do not make up for 0.115 |
| Ranking.SortStable | internal/provider/registry.go:144-144 | the result is in non-increasing score, and sources of equal score keep their order |
| Ranking.StableSortIsUnique | internal/provider/registry.go:144-144 | there is only one such result |
| Ranking.ScoreSources | internal/provider/registry.go:139-142 | every source of a provider is scored with the health its host has at that moment and appended |
| Ranking.ResolveAll | internal/provider/registry.go:118-146 | the errors name exactly the providers that failed, and the rest is stably sorted by score |
| Ranking.RankingKeepsSources | internal/provider/registry.go:126-145 | the ranking holds every source offered, as often as it was offered, and nothing else |
| Ranking.HistoryIsHealthy | internal/provider/registry.go:213-240 | whatever was reported, no average is negative |
| Ranking.BannedComeLast | internal/provider/scoring.go:46-61 | sources whose hosts were banned when they were scored come after all others |

## Left out

- HTTP transport, redirects and the allow-list, provider clients, RPC, casting, VPN, player, terminal and command line:
  input and output, or thin wrappers over libraries that are not part of this model.
- SHA-256 is a function given as a parameter, ffmpeg and the network are answers given beforehand, the SQL engine is a
  sequence of rows in which a new id is one more than the greatest, and ties in the listing's order are left open.
- The resource and the part size of a destination do not change between its runs, and the bytes of an accepted 206 reply
  are the resource's bytes from the requested start on, possibly fewer or more than asked for.
- Every fetch returns in the end, and a read yields at least one byte, an error or the end.
- `os.Stat` is taken to succeed on a part file that exists when a fetch begins.
- Real numbers stand for floating point in the limiter, the host average and the scores.
- RateLimiter.AloneFinishes: assumes a clock that advances between passes; fairness between callers is not promised by the code.
- Times.StoredTimeReadsBack: the parser is modelled for the form with a final `Z` that `formatTime` writes, not for offsets.
- Retries.RetriesWait: no job is inserted again, which would start its count of attempts afresh, and database writes
  succeed.
- Retries.RunsAreBounded: the same.
- RunJob.RunJob: `failJob`'s message, `StartedAt` and the names of directories are not modelled; one time stands for the
  end of the run.
- RunJob.DoneHoldsTheSource: says nothing about the remux path, where the digest is of the bytes before the remux.
- Publish.PublishedWholeIff: assumes that no file in question is empty, since an empty file is its own beginning; writes
  go by name, also where a clash has renamed the file away under its writer; a sidecar is promised whole only to a run that is not disturbed.
- Store.Table.ListDue: models the query for queued jobs, the only one the queue makes; a query without an answer is a
  parameter of the tick.
- Hls.DownloadHls: what the servers answer does not change during the download.
- Interleaving.OneRunPerJob: `SetBattery` and the configuration are environment steps that may come at any moment.
- Boxes.BoxPositions: the file does not change while it is scanned, and reads fail only past its end.
- Playlist.ParsePlaylist: text is decoded code points, and the target duration, which nothing reads, is left out.
- Playlist.PrintedReadsBack: attribute values contain no comma and no quote at their ends, since the parser splits at every
  comma; `Playlist.CodecListIsCut` says what becomes of those that do.
- Label.CleanIsClean: text is decoded code points, and format characters are those of Unicode 15; `truncateTitle`, file names and redaction are left out.
- Hosts.Registry.RecordHost: the host part of an address is given, an address without one reports the empty host.
- Ranking.ResolveAll: the order in which providers are asked is arbitrary but given, and no provider is removed meanwhile.
- Restart recovery: a job left in downloading is never listed again, so there is nothing to prove about it.
- Disk headroom arithmetic, reclaiming space, size and duration parsing, migrations, search and media tables: easy members.
