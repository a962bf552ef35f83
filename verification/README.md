# Verified model of locally-euclidean

locally-euclidean is a small append-only blob store: bucket, file name, bytes. Files are
rows of a PostgreSQL table, their bytes are large objects, every open file handle owns one
database transaction, uploads are streamed chunk by chunk, and expired files are collected
in the background. This project models that service in Dafny, from one poll of a handle's
future up to all requests running at once, and proves that the layers fit.

Run `dafny verify dfyconfig.toml` in this directory.

## Layers

- `LargeObjects.dfy`: a large object seen through a descriptor, with sparse writes and the
  integer casts of the offsets. `Tables.dfy`: the tables, the unique indexes and the trigger
  that unlinks an object with its row; `Consistent` says that rows and objects are in
  bijection and names unique.
- `Polls.dfy`: one poll of a blob handle as a function of the handle, the committed object
  and a `Tick`, which is the way the database meets that poll: not yet, under way, executed
  but unanswered, answered, failed, or executed with the answer lost. Reads and writes may
  be short. `BlobHandles.dfy`: the handle class, whose poll methods are proved equal to that
  function, and the loops that poll one operation until it is Ready (`seek`, `read_exact`,
  `write_all`, `shutdown`), proved to be the operations of a plain file with a cursor for
  every finite script of ticks. `HandleRuns.dfy`: laws over arbitrary runs of one handle.
- `FileHandles.dfy`, `Api.dfy`, `Explore.dfy`, `Maintenance.dfy`: file handles, the write
  handlers, reading back, garbage collection. The handlers are proved against the functions
  `Put` and `Append` of `Service.dfy`, for every failure of every query. `Expiry.dfy`: when a
  created file is collected.
- `MatchProperties.dfy`, `ClientProperties.dfy`: what `Put` and `Append` mean for a client.
  `Clients.dfy`: clients that keep calling the handlers themselves, whatever fails.
- `Interleaving.dfy`, `Refinement.dfy`: all requests as one transition system whose steps are
  single statements, handle openings, chunks and commits; its invariant; its refinement of a
  store that is a list of bodies per name. `Histories.dfy`, `Creation.dfy`, `Delivery.dfy`:
  whole runs, what becomes of one file from its row insert on, and chunked uploads whose
  retries overlap. `HandleSteps.dfy`, `Alone.dfy`: the steps are the calls on a file handle,
  and a request run alone is `Put`, `Append` or an explore, the functions the handlers are
  proved against.

## Decisions

- Handles on one file are serialised, as `storage/src/lib.rs:86-87` documents. The code does
  not enforce it (the test at `storage/src/postgres/mod.rs:448` is ignored), so the guard of
  the step `OpenHandle` states it. Inserting a row and opening its handle are two steps, as
  in `storage/src/postgres/mod.rs:239-256`.
- Deleting a file while a handle is open makes every later query of that handle fail.
- Row identifiers and object identifiers are never used twice.
- An answer can be lost after its query ran: a failed close may have committed. Contracts
  say so, and say separately what holds when no answer is lost (`AllAnswered`).
- The append rule is a parameter. `Shipped` is the code's (`server/src/api.rs:240`): compare
  whenever the offset is at most the size, otherwise append at the end. `Readme` is the one
  README.md documents: append when the offset is the size. They agree only as
  `ShippedAgreesWithReadme` says: the shipped rule refuses an append at the end of the file
  (`ShippedRefusesAppendAtEnd`), accepts one past it, and replaying that one grows the file
  (`ReplayCount`).
- The note at `server/src/api.rs:192-208` describes a file system; the code writes in a
  transaction that is rolled back unless it is closed, and the model follows the code.
- `MIB` at `storage/src/postgres/blob.rs:64` is two mebibytes, so one read asks for at most
  sixteen.

## Model

| member | source | states |
|---|---|---|
| LargeObjects.OverlayAt | storage/src/postgres/blob.rs:375-385 | byte by byte, what a write at any offset leaves, the zero-filled gap included |
| LargeObjects.OverlayTwice | storage/src/postgres/blob.rs:375-385 | two adjacent writes are one write of both parts, so short writes add up |
| LargeObjects.CastsKeepBits | storage/src/postgres/blob.rs:345-373 | the casts of counts and offsets keep the bits and read them as signed 32 and 64 bit numbers |
| Tables.Database.SelectFile | storage/src/postgres/mod.rs:218-231 | finds a row exactly if there is one of that bucket and name |
| Tables.Database.InsertRow | storage/src/postgres/mod.rs:237-254 | one row with an empty object, or nothing at all, not even an orphaned object, when the name is taken |
| Tables.Database.DeleteRows | migrations/20250530003124_initial_schema.sql:59-62 | deleting rows one by one with the trigger removes exactly those rows and exactly their objects |
| Tables.InsertKeepsConsistent | migrations/20250530003124_initial_schema.sql:47-65 | inserts, refused ones included, keep names unique and rows and objects in bijection |
| Tables.DeleteKeepsConsistent | migrations/20250530003124_initial_schema.sql:59-65 | deleting any rows keeps names unique and rows and objects in bijection |
| Polls.PollKeepsInFlight | storage/src/postgres/blob.rs:109-285 | polling a pending operation keeps it in flight or ends it, its query run exactly once (not at all if it fails), and never panics |
| Polls.EveryWayHappens | storage/src/postgres/blob.rs:109-285 | what each way the database can meet a poll looks like from outside: pending before or after execution, answered, failed, or the answer lost |
| Polls.ShortAnswers | storage/src/postgres/blob.rs:363-385 | a read may give, and a write take, any non-empty first part |
| Polls.ReadPoll | storage/src/postgres/blob.rs:110-158 | a read that is Ready gave bytes at the cursor, none only at the end, and fits the buffer |
| Polls.SeekPoll | storage/src/postgres/blob.rs:162-204 | a seek that is Ready gave the true offset and moved the cursor there |
| Polls.WritePoll | storage/src/postgres/blob.rs:208-244 | a write that is Ready laid a first part of the data at the cursor and counted it right |
| Polls.ClosePoll | storage/src/postgres/blob.rs:255-285 | a close that is Ready committed what the transaction saw, or nothing, the latter only if it reports an error |
| BlobHandles.BlobHandle.PollRead | storage/src/postgres/blob.rs:110-158 | the loop goes round at most twice and does one poll of the pending read, or of a new one for what there is room for, up to 16 MiB; it is the raw call of that name |
| BlobHandles.BlobHandle.PollComplete | storage/src/postgres/blob.rs:176-204 | an idle handle repeats its last offset, a seeking one is polled, any other panics |
| BlobHandles.BlobHandle.PollWrite | storage/src/postgres/blob.rs:208-244 | the loop goes round at most twice and does one poll of the pending or a new write |
| BlobHandles.BlobHandle.PollShutdown | storage/src/postgres/blob.rs:255-285 | the loop goes round at most twice and does one poll of the pending or a new close; it is the raw call of that name |
| BlobHandles.BlobHandle.Seek | storage/src/postgres/blob.rs:161-205 | for every script of ticks the awaited seek returns the true offset, counted from the start, the cursor or the end, or leaves a handle that cannot commit; it fails once the object is unlinked |
| BlobHandles.BlobHandle.ReadExact | server/src/api.rs:124-131 | for every script of ticks and short reads, exactly the next n bytes, or an end of file exactly because fewer are left |
| BlobHandles.BlobHandle.WriteAll | storage/src/postgres/mod.rs:94-98 | for every script of ticks and short writes, all of the data at the cursor, or a handle that cannot commit |
| BlobHandles.BlobHandle.Shutdown | storage/src/postgres/blob.rs:387-403 | success commits exactly what the handle saw; failure commits nothing unless an answer was lost |
| HandleRuns.CommitsAtMostOnce | storage/src/postgres/blob.rs:255-285 | over any run of poll calls, cancelled ones included, the committed object changes at most once, at a call that closes the handle for good and commits what its transaction saw |
| HandleRuns.ClosedStaysClosed | storage/src/postgres/blob.rs:273-282 | once the transaction is taken the handle stays shut down and commits nothing more |
| HandleRuns.ClosedAnswersIsShutdown | storage/src/postgres/blob.rs:288-308 | every operation submitted on a closed handle ends in IsShutdown without effect |
| HandleRuns.CancelledCloseShutsDown | storage/src/postgres/blob.rs:255-285 | over any run, a close that got as far as the lock and was then cancelled has shut the handle down: whatever is submitted later ends in IsShutdown and commits nothing |
| HandleRuns.ReadPanicsOnMisuse | storage/src/postgres/blob.rs:115-157 | in every state any calls and cancellations lead to, a read can panic exactly if another kind of operation is pending or the pending read can still deliver more than there is room for; never if polled again with its buffer |
| HandleRuns.OthersPanicOnMisuse | storage/src/postgres/blob.rs:176-285 | in every such state seek, write and close panic exactly if another kind of operation is pending; no conversion of an answer fails |
| HandleRuns.AppendOnly | storage/src/postgres/mod.rs:85-98 | after any appends, seeks and reads a handle that can commit holds its opening content followed by the appended data |
| FileHandles.FileHandle.Append | storage/src/postgres/mod.rs:94-98 | the data lands exactly at the end, wherever the cursor was, or nothing can be committed |
| FileHandles.FileHandle.Commit | storage/src/postgres/mod.rs:116-119 | success commits the handle's content, failure nothing unless an answer was lost |
| FileHandles.OpenFile | storage/src/postgres/mod.rs:218-234 | reports a missing file exactly if the lookup ran and it is missing; opens a fresh handle on the committed content exactly if the file is there and both queries work |
| FileHandles.CreateFile | storage/src/postgres/mod.rs:237-257 | the row is there whenever the statement ran, whether or not the handle could be opened; refused exactly if the name is taken, handed out exactly if both transactions work |
| Expiry.CreatedFileLives | storage/src/postgres/mod.rs:237-254 | a file created at `now` in a bucket with a time to live survives, with its bytes, every sweep up to `now + ttl`, and every sweep if there is none |
| Expiry.CreatedFileGoes | storage/src/postgres/mod.rs:293-310 | a sweep after `now + ttl` collects it unless more than 1000 files are due |
| Api.CheckRangeMatches | server/src/api.rs:113-145 | for every chunking, every script of ticks and every position, the verdict the body deserves against the rest of the file, or an I/O error |
| Api.Upload | server/src/api.rs:163-173 | commits base and whole body or nothing; a broken stream or failed query leaves none of it |
| Api.PutWrite | server/src/api.rs:151-190 | any response but Internal is the specified one with the specified store, a missing bucket is answered BucketDoesNotExist and nothing else is; whatever fails, the store is as before, has the empty file, or has all of the body; the name is taken once the insert has run |
| Api.AppendOpened | server/src/api.rs:229-257 | under the shipped rule every seek the append handler starts goes to the end or to an offset within the file, unchanged by the cast to i64, for every offset a client can send |
| Api.PostAppend | server/src/api.rs:214-260 | any response but Internal is the specified one with the specified store; when exactly BucketDoesNotExist and FileDoesNotExist are answered; whatever fails, the file has all of the body or none |
| MatchProperties.VerdictCharacterised | server/src/api.rs:113-145 | Matches exactly if the complete body is what the file holds from there; otherwise the first failing chunk decides between the two mismatches |
| MatchProperties.ChunkingIndependence | server/src/api.rs:163-257 | response and store of PUT and append depend only on the bytes of a complete body |
| MatchProperties.VerdictDependsOnChunking | server/src/api.rs:138-143 | which of the two mismatches is found does depend on the chunking |
| ClientProperties.PutsOnExisting | server/src/api.rs:175-187 | PUTs to an existing file change nothing and succeed exactly if complete and equal to it |
| ClientProperties.FirstCreatorWins | server/src/api.rs:163-187 | a complete creating PUT fixes the content; every later PUT succeeds exactly if it has the same bytes, and changes nothing |
| ClientProperties.AbortedPutTakesTheName | server/src/api.rs:163-187 | on the empty file a creating PUT leaves when it comes to nothing, every later PUT with bytes in it conflicts and none changes the store |
| Clients.PutAgainAndAgain | server/src/api.rs:151-190 | the same of the handler: whatever made a creating PUT leave just its empty file, and whatever fails later, no PUT with bytes in it succeeds |
| ClientProperties.AppendActsOnContent | server/src/api.rs:229-259 | an append changes only the content of its own file, as specified |
| ClientProperties.ReplayCount | server/src/api.rs:240-257 | replaying an append past the end appends ceil(gap / size) times and then always conflicts (or fails, if the file is full before it reaches the offset); it is never acknowledged as a replay |
| ClientProperties.ShippedAgreesWithReadme | server/src/api.rs:240 | for every request, broken ones included, the exact condition under which the shipped rule does what README.md documents |
| ClientProperties.ShippedRefusesAppendAtEnd | server/src/api.rs:240-248 | a concrete append at the end of the file that the shipped rule refuses and the documented one accepts |
| ClientProperties.ReadmeContract | README.md:54-59 | for every offset and body: when the documented rule is Done, when it conflicts, and that only an append at the end changes the file |
| ClientProperties.AtLeastOnceIsExactlyOnce | README.md:54-59 | resending each chunk until acknowledged, with any losses, leaves every chunk in the file once; each response, and that none is a conflict |
| Clients.UploadInChunks | README.md:54-59 | the same of the handler, with every query, every answer and every response free to fail: the file holds the acknowledged chunks once each and at most the next one, no request conflicts, and one faultless try for each chunk is enough |
| Explore.StreamFile | server/src/explore.rs:62-65 | the streamed chunks are non-empty, at most 65536 bytes, and together the content, or a first part of it if the stream breaks off |
| Explore.GetExplore | server/src/explore.rs:36-91 | the length header is the size of the content the body streams, and exploring changes nothing |
| Explore.PutThenExplore | server/src/explore.rs:53-72 | whatever fails: after a creating PUT that succeeded, an explore that gets to streaming announces the length of what was sent and streams a first part or all of it; and when it is sure to get there |
| Maintenance.SelectBatch | storage/src/postgres/mod.rs:296-302 | at most 1000 files, all with a `delete_after` strictly before now, and a due file is left out only by 1000 that are due no later |
| Maintenance.DeleteOldFilesBatch | storage/src/postgres/mod.rs:293-310 | a sweep with its objects, or nothing if the statement fails |
| Maintenance.SweepTakesWhatIsDue | storage/src/postgres/mod.rs:293-310 | what a sweep is: only due files go, at most 1000, and none that is due stays unless 1000 went; all else keeps its row and its bytes |
| Maintenance.MaintenanceTask | server/src/tasks.rs:10-35 | sweeps at every tick, errors or not, until it is cancelled, and deletes nothing afterwards |
| Maintenance.Drain | server/src/tasks.rs:19-32 | each executed sweep takes 1000 of the files whose `delete_after` lies before a given time, until exactly none is left, however far the clock moves on |
| Maintenance.UnexpiredSurvive | storage/src/postgres/mod.rs:296-302 | a file without a `delete_after`, or with one no sweep is later than, keeps its row and its bytes |
| Interleaving.StepKeepsInv | storage/src/postgres/mod.rs:213-258 | every step of every request in any order keeps rows and objects in bijection, committed content equal to the bodies committed, handles exclusive, and uncommitted content equal to base plus chunks sent |
| Interleaving.CommitAppendsBody | server/src/api.rs:165-172 | a commit adds the whole body of its request at the end of the committed content |
| Refinement.ChangeRefines | storage/src/postgres/mod.rs:237-310 | inserting a row, committing a body, deleting files and creating a bucket are each one step of that list-of-bodies store |
| Refinement.StepRefines | server/src/api.rs:229-259 | every step refines a store that is the list of committed bodies per name, which only creating, committing and collecting change |
| Refinement.SuccessIsBacked | server/src/api.rs:163-187 | a request is answered Done only by a step that commits its whole body, has found it in the file, or has read the file to the end |
| Histories.RunRefines | server/src/api.rs:151-260 | every step of every run, all requests interleaved, is its labelled step of that store |
| Histories.ContentIsCommittedBodies | server/src/api.rs:163-173 | in every state a fresh service reaches a file is there exactly if it was created and not collected since, and holds the bodies committed since, in commit order |
| Histories.RunKeepsInv | storage/src/postgres/mod.rs:213-258 | by induction over the run, the invariant (names unique, rows and objects in bijection, content the bodies committed) holds in every reachable state |
| Histories.ContentOnlyGrows | storage/src/postgres/mod.rs:85-98 | over any run earlier committed content is a prefix of later content for as long as the file lives |
| Histories.CollectedOnlyWhenDue | storage/src/postgres/mod.rs:296-302 | over any run, a file that is gone was taken by a collection that ran after its `delete_after` |
| Creation.LogGains | storage/src/postgres/mod.rs:116-119 | over any part of a run, the bodies an object gains are exactly those of the commits to it, in order |
| Creation.OpenHandleFreezes | storage/src/lib.rs:84-90 | for as long as a request has its handle open no step commits to the file, and its committed content stays the same |
| Creation.CommittedBlock | server/src/api.rs:165-172 | over any run a committed body is one block at the end, after exactly what was committed when its handle was opened |
| Creation.CreatorsBlock | storage/src/postgres/mod.rs:239-256 | in front of a creator's block is what others committed between its row insert and its handle opening; it is the whole content exactly if they committed no bytes |
| Creation.DoneCreatorCommitted | server/src/api.rs:165-172 | a creating PUT answered Done has opened its handle and committed its body in between |
| Creation.CreatedFileLives | storage/src/postgres/mod.rs:237-254 | over any run, a created file is there until a collection runs after its creation time plus its time to live |
| Creation.CollectedFails | storage/src/postgres/blob.rs:259-284 | whatever a request does next whose file has been collected under it is answered Internal and changes nothing |
| Creation.AbortedCreationTakesTheName | storage/src/postgres/mod.rs:239-256 | until bytes are committed to the file or it is collected, it stays empty and every PUT with bytes in it ends in Conflict or is dropped, whatever else runs |
| Delivery.OverlappingRetries | README.md:54-59 | over runs, with any requests for a file's chunks overlapping and retries running however late, the file always holds its old content and some first chunks, once each and in order |
| Delivery.EveryChunkOnce | README.md:54-59 | once each chunk is acknowledged to some request for it, the file is its old content and every chunk exactly once |
| Delivery.SentChunkNeverConflicts | README.md:54-59 | while a client is sending a chunk, those before having arrived, no request for it is answered Conflict, whatever older requests still run |
| HandleSteps.AppendIsNextChunk | storage/src/postgres/mod.rs:94-98 | an acknowledged append on the handle is the writer's step; where the step finds no room the append fails |
| HandleSteps.ReadExactIsNextChunk | server/src/api.rs:121-134 | an answered exact read is the comparison's step, mismatches and end of file included |
| HandleSteps.LastReadIsEndOfBody | server/src/api.rs:138-143 | the last one-byte read decides as the step that ends the comparison |
| HandleSteps.CloseIsEndOfBody | storage/src/postgres/blob.rs:387-403 | an acknowledged close is the commit step; a failed one is it too, or has changed nothing |
| HandleSteps.CreateIsInsert | server/src/api.rs:157-163 | the lookup of the bucket and the insert of the row are the step that tells a missing bucket, a taken name and a new file apart |
| HandleSteps.SweepIsCollect | storage/src/postgres/mod.rs:293-310 | every sweep of the maintenance task is a step of the transition system |
| HandleSteps.FailureIsDrop | storage/src/postgres/blob.rs:387-388 | a request can be broken off in every state, and leaves everything as it was |
| HandleSteps.OpenForPut | server/src/api.rs:163-183 | a handle just opened is the uploading phase; after the seek to the start it is the comparing one |
| HandleSteps.OpenForAppend | server/src/api.rs:229-241 | the seek for the size and the seek to the offset lead to the phase the transition system enters |
| HandleSteps.OpenForExplore | server/src/explore.rs:53-60 | the seek to the end answers the size and the rewind leads to the streaming phase |
| HandleSteps.ReadIsEmit | server/src/explore.rs:62-65 | a read of the streamed response is the step that emits as many bytes of the content |
| Alone.PutRunIsPut | server/src/api.rs:151-190 | a PUT run without interruption in the transition system is the PUT the handler implements |
| Alone.AppendRunIsAppend | server/src/api.rs:214-260 | an append run without interruption in the transition system is the append the handler implements |
| Alone.ExploreRunIsExplore | server/src/explore.rs:36-91 | an explore run without interruption can send exactly the chunkings of the content, as the handler does, and changes nothing |
| Alone.WindowOpens | storage/src/postgres/mod.rs:239-256 | the row insert of a creating PUT leaves an empty file that anybody can open before the creator does |
| Alone.AppendInTheWindow | storage/src/postgres/mod.rs:239-256 | an append that runs between the creator's row insert and its handle puts its bytes first, and both are answered Done |

## Left out

- The SQL text, sqlx and PostgreSQL itself: statements are atomic steps on tables and large objects; snapshots, locks and the connection pool are not modelled.
- The async runtime: wakers, fairness and the mutex; what is kept is Pending, Ready and polling again. The loops of `read_exact`, `write_all`, `seek` and `shutdown` belong to tokio, which is not part of this repository; they are written as tokio documents them.
- What the database does with a query whose future was dropped: a dropped query either ran before the next call or not at all.
- Running out of object identifiers, after which PostgreSQL would use them again.
- Objects larger than an `i64` offset can address: a write past that size fails; PostgreSQL's own limit is lower.
- PutWrite and PostAppend: each is one call without other requests in between; interleaving is the transition system of `Interleaving.dfy`, tied to them by `HandleSteps.dfy` and `Alone.dfy`.
- AtLeastOnceIsExactlyOnce: stated for uploads whose total stays within what an `i64` can address; beyond that the append that does not fit fails and can never be acknowledged; `UploadInChunks` and `EveryChunkOnce` have no such bound.
- SentChunkNeverConflicts: speaks of the chunk being sent; a stale retry of an earlier chunk, which nobody waits for any more, compares the rest of the file with its chunk and may conflict.
- Endless operation: the scripts of ticks and of wake-ups of the maintenance task are finite, but arbitrary.
- Bucket identifiers: a bucket is its name, and the conversion of its time to live from months and days is not modelled.
- Timestamps, content types, response texts, 200 against 201, bucket listing, routing, configuration, upload limits and the mapping of log names to file names.
