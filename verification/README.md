# Ovayra Phase 0: a verified model

This project models the parts of the Ovayra Phase 0 spikes whose correctness is hard to see
from any single function, and proves what they promise. Everything below holds for all
inputs, all fault schedules or all interleavings, as the case may be. Code that changes state
is modelled by classes and methods with loops, each tied to a function of its inputs or of its
old state; the theorems are about those functions and about whole runs.

Five engines, and two theorems across them:

- **Resumable upload** (`UploadServer`, `UploadClient`, `UploadContinue`, `Envelope`,
  `UploadSessions`, `CrossProcess`, `LibraryWitness`, `Polling`). A client pushes an input in chunks to a server
  that throttles, fails and loses answers; it stops, restarts from an encrypted checkpoint in
  another process, finalizes, analyses and cleans up. The server is a state driven by an
  arbitrary schedule of faults. The assumptions about it are those of `UploadServer.Answer` and
  `UploadServer.NextState`: a 2xx keeps the whole body, a 429 keeps nothing, a 5xx or a lost
  answer may keep any prefix, an upload at another offset than the true one or after the final
  piece is refused, a query reports the true count, and a request has settled before the next.
- **Preview frame bridge** (`FrameBridge`, `Framing`, `Latency`). Any number of publishers share a
  one-slot mailbox and one "closure queued" flag with the UI loop. The protocol is a state
  machine of its atomic steps; the classes carry the steps out on the shared objects.
- **FFmpeg progress** (`Progress`, `ProgressBlocks`, `ProgressPrint`, `ProgressDrain`). An incremental, bounded,
  self-resetting parser must agree with parsing the whole output at once.
- **Acceptance gate** (`Proofs`, `MatrixKeys`, `Gate`, `GateTheorems`, `GateMeaning`,
  `GateFaults`, `GateOrder`, `GateExchange`, `GateWitness`, `EvidenceGate`). Loops over '|'-joined string keys decide exact cover of a matrix of 33 rows
  and 75 slots, and relations between records.
- **Text engines and policy state** (`Strings`, `Tokenizer`, `BuildPolicy`, `BuildLayout`,
  `Scanner`, `Quarantine`). The shell-like tokenizer and the build-configuration policy, the
  substring scanners of the evidence linter, and the process-wide hardware quarantine.

`CrossProcess.StageThenResumes` runs one staging process and any number of resuming processes
against one server and returns what each of them returned and left behind;
`CrossProcess.WholeRun` is the theorem about such runs, `CrossProcess.StopsKeepOrder` extends it to
processes that are stopped on the way, and `CrossProcess.EmittedProofsPassExactly` says when the gate
accepts what they emit; `GateExchange.RunKeepsAcceptance` says it of a whole list of records in which
the emitted ones take the place of those of their target.

Methods and the functions that specify them say the same thing twice, so the main ones have a third
description that names neither: `UploadServer.Deciding` and `UploadClient.Delivered` tell from the
faults alone when a request or a piece gets through, `GateMeaning.AcceptedExactly` tells from the
fields of the records alone what the gate accepts, `Quarantine.Story` tells what becomes of a policy,
`Scanner.CleanExactly` speaks of positions in the text, and `GateFaults` of the first fault.

Where a theorem assumes something about routines that are parameters here, a lemma shows that the
assumptions can be met: `LibraryWitness.LibraryExists` for the cipher, the encodings and the digest,
`ProgressPrint.ReportableBlocksExist` for the text routines and the printer of speeds.

## What turned out different from the promise

Where a law fails, the model keeps what the code does. Each point names the lemma or method that
shows the failure on an input, and the one that says exactly when the law holds.

- Matrix keys are not injective on rows that pass the qualifier check: `a|b` with no backend and
  `a` with backend `b|` share a key (`MatrixKeys.CollidingRows`). A row is identified by its key
  exactly when no qualifier contains a bar (`MatrixKeys.KeyIdentifiesRowExactly`). Validation still
  accepts exactly the canonical matrix.
- The gate's verdict can depend on the order of the records
  (`GateWitness.StrayRecordMakesOrderMatter`). Some order of a list is accepted exactly when it covers
  the matrix and, for every target, some records the gate may look at are related; every order
  exactly when all of them are (`GateOrder.SomeOrderIsAccepted`, `GateOrder.EveryOrderIsAccepted`). So
  order is irrelevant exactly when the first implies the second (`GateOrder.OrderIsIrrelevantExactly`).
- An accepted list can have more than 75 records (the same lemma of `GateWitness`). It has at least
  75, and exactly 75 if and only if every record is for a component its own row requires
  (`GateTheorems.AcceptanceCounts`).
- A build configuration whose last token ends in white space is refused in the very form the
  build scripts print it in, because trimming the record cuts the escaped character off
  (`BuildLayout.TrailingSpaceIsRefused`; exact condition in `BuildLayout.PrintedLineVerdict`). Every
  configuration has another form that is judged right (`BuildLayout.WrittenLineVerdict`).
- A quoted empty token, which a shell would keep, is dropped (`Tokenizer.EmptyTokenIsLost`): a line
  of spellings lexes to the tokens it spells exactly when none of them is empty
  (`Tokenizer.AnySpellingIsRead`).
- A refused submission to the event loop can leave a frame in the slot with nobody to wake the
  UI thread (`FrameBridge.RefusalStrandsAFrame`). Whatever the event loop answered to the submissions
  of a run, a system at rest is sure to have an empty slot exactly when the last submission was
  not refused (`FrameBridge.QuietMeansEmptyExactly`).
- A resume that succeeds while the server is not at the staged offset writes a proof the gate
  refuses: acceptance of the proof of a successful resume holds exactly when the observed offset is
  the staged one, the model is the pinned one and the status is 200
  (`CrossProcess.EmittedProofsPassExactly`; over whole runs, `CrossProcess.WholeRun`).
- A checkpoint can be reported as retained for recovery when nothing can be recovered with it:
  the session was finalized, but the answer was lost (`CrossProcess.FinalizedButRetained`). A resume
  gets a remote file only from a checkpoint it can read and a server it can continue, open, not
  beyond the input and aligned, and from every such one if no further fault occurs
  (`UploadSessions.ResumeAnalyze`).
- In a release build, where 64-bit arithmetic wraps around, the backoff is exact exactly up to attempt
  57 (`UploadClient.BackoffIsExactUpTo57`), so a policy never overflows exactly when it allows at most
  59 attempts, while the attempt count is an eight-bit number
  (`UploadClient.PolicyNeverOverflowsUpTo59`). A debug build panics where the release build wraps.
- The gate adds applied and dropped frames as 64-bit numbers. In a release build it can therefore
  accept a preview record that claims more of them than were read (`GateWitness.WrappedCountPasses`);
  in a debug build, which is what the documented commands run (docs/phase-0/README.md:33), the
  addition panics on such a record. For the preview records of a list accepted in a release build,
  applied plus dropped is at most read exactly when the sum fits 64 bits
  (`GateWitness.AcceptedCountsAddUpExactly`).
- A 5xx answer to the final piece is repeated without asking for the offset. If the server had kept
  something of it, the finalization fails and the server stays as the first answer left it; a 429 or a
  5xx that kept nothing does no harm (`UploadClient.FinalizeChunk`, `UploadClient.Retry`).

## Model

| member | source | states |
|---|---|---|
| UploadServer.Wire.Send | crates/spike-gemini/src/client.rs:458-493 | One exchange: uses up one step of the fault schedule, moves the server as the assumptions above say, and answers accordingly or not at all. |
| UploadClient.RetryDelay | crates/spike-gemini/src/client.rs:556-566 | No delay, whether asked for by the server or computed, exceeds the policy's cap. |
| UploadClient.DelayIsAskedFor | crates/spike-gemini/src/client.rs:556-566 | Up to the cap, a delay is the seconds the server asks for, or else 100 ms doubled with every attempt. |
| UploadClient.BackoffIsExactUpTo57 | crates/spike-gemini/src/client.rs:556-566 | In a release build, the 64-bit backoff is 100 * 2^attempt exactly for attempts up to 57. |
| UploadClient.PolicyNeverOverflowsUpTo59 | crates/spike-gemini/src/client.rs:518-532 | No delay a policy can come to wait overflows, wrapping in a release build, exactly when it allows at most 59 attempts. |
| UploadClient.Retry | crates/spike-gemini/src/client.rs:513-534 | The result, the server and the step reached are those of the deciding attempt: the first that is neither throttled nor a server error that kept nothing, or the last; exactly the prescribed delays lie between the attempts; every upload sent is the same request; if a server error kept something of an upload the call fails and nothing more is kept. |
| UploadClient.QueryOffset | crates/spike-gemini/src/client.rs:295-312 | Succeeds exactly if the deciding attempt is answered with the count, and reports the true one; changes nothing. |
| UploadClient.StartUpload | crates/spike-gemini/src/client.rs:185-227 | Succeeds exactly if the deciding attempt is answered with a URL and a granularity that is absent or not zero; the session is that one, empty and open. |
| UploadClient.AttemptChunk | crates/spike-gemini/src/client.rs:243-278 | One turn does exactly what becomes of the piece says: taken, or lost or failed but kept whole, is success; throttled, or lost or failed with nothing kept, is another turn from an unchanged server; anything else is an error. |
| UploadClient.UploadChunk | crates/spike-gemini/src/client.rs:229-280 | Succeeds exactly if one of its turns gets the piece through, after that many uploads; every upload is sent while the server still is where it was on entry; success from the true offset means the chunk was appended exactly once; at most n uploads, n*n queries and n*n - 1 delays; a misaligned chunk fails. |
| UploadClient.HarmlessTurnsDelay | crates/spike-gemini/src/client.rs:243-280 | Fewer than n turns that were throttled, or lost or failed with nothing kept, followed by one that is taken or kept whole, deliver a piece. |
| UploadClient.FinalizeChunk | crates/spike-gemini/src/client.rs:282-293 | Succeeds exactly if the deciding attempt is taken and answered with a file, and returns that file; success means the last piece was appended whole and the session closed; the server never gets more than a prefix of it, and nothing if the offset is wrong or the session closed; a lost answer, or a 5xx that kept something, makes it fail with the server as that exchange left it. |
| UploadContinue.TilingCovers | apps/ovayra-spike/src/gemini_orchestration.rs:330-354 | Pieces that follow each other put together are the input from the first offset on: no gap, no overlap, nothing out of range. |
| UploadContinue.PiecesAreAligned | apps/ovayra-spike/src/gemini_orchestration.rs:329-345 | From an aligned first offset on, every piece but the final one starts at a multiple of the granularity. |
| UploadContinue.SendPiece | apps/ovayra-spike/src/gemini_orchestration.rs:331-348 | One turn of the loop sends the next full piece and goes on exactly behind it, also when it asks the server where that is; from the true offset it succeeds exactly if the piece, and that query, get through. |
| UploadContinue.SendFinal | apps/ovayra-spike/src/gemini_orchestration.rs:350-354 | The rest of the input, as the final piece: succeeds exactly if it is taken and answered with the file, and the server then holds all. |
| UploadContinue.PiecesAreFew | apps/ovayra-spike/src/gemini_orchestration.rs:330-354 | All pieces but the last are full, so there are no more of them than fit the rest of the input. |
| UploadContinue.ContinueAndFinalize | apps/ovayra-spike/src/gemini_orchestration.rs:322-355 | From whatever offset it is given: it sends consecutive pieces of the input, full-sized except the final one, each non-final piece at the true offset; the server only moves by them; for each piece at most n uploads, n*n + n queries and n*n + n - 2 delays; success means they were appended to an open session, now closed; from the true offset it succeeds exactly if every piece gets through under the schedule of faults; it fails when the answer to an only final piece is lost or a 5xx kept some of it, and never succeeds or ends with a granularity of zero and bytes left. |
| UploadContinue.SmoothCompletes | apps/ovayra-spike/src/gemini_orchestration.rs:322-355 | Without faults every piece of an open session gets through. |
| Envelope.SealedRecordsOpen | crates/spike-platform/src/envelope.rs:73-138 | Sealing fails exactly for plaintexts over the limit, and whatever was sealed opens again to the same plaintext. |
| Envelope.OpensOnlySealed | crates/spike-platform/src/envelope.rs:105-138 | A record opens to a plaintext exactly if it is what sealing makes of that plaintext under its 12-byte nonce: no other version, size or nonce length, and nothing that was altered. |
| Envelope.LoadOrCreate | crates/spike-platform/src/envelope.rs:52-71 | A key once stored is the key every later call gets, of 32 bytes; if there is none the fresh one is stored and returned; failures leave the store alone and are told apart; success exactly when the store works and the stored key has the right length. |
| Envelope.CheckpointFileHidesPlaintext | apps/ovayra-spike/src/main.rs:1103-1122 | Whatever key, nonce and ciphertext, the written checkpoint file contains neither of the two marks the stage command looks for. |
| UploadSessions.RecordStage | apps/ovayra-spike/src/main.rs:1097-1125 | Succeeds exactly if the key can be had, the payload is small enough and everything can be written; then the file opens to the session and offset under the stored key, and the typed stage proof is written. |
| UploadSessions.StageChunk | apps/ovayra-spike/src/main.rs:1070-1096 | Succeeds exactly if a session is started, the input is longer than a chunk, the first chunk gets through and the count is answered. |
| UploadSessions.Stage | apps/ovayra-spike/src/main.rs:1060-1128 | Succeeds exactly if that does and everything can be written; then the server holds exactly the first chunk of the input, open, the checkpoint says so, and the granularity is not zero; at no moment did the new session hold anything but a prefix of the input; nothing remote is deleted. |
| UploadSessions.Fail | apps/ovayra-spike/src/gemini_orchestration.rs:373-397 | A failure is recorded, and becomes an evidence-write failure exactly when that fails; nothing else changes. |
| UploadSessions.CleanUp | apps/ovayra-spike/src/gemini_orchestration.rs:229-319 | The deletion of the remote file is asked for once and before that of the checkpoint, which goes exactly when the first succeeded and it could be removed; success exactly when nothing went wrong and the typed proof was written; otherwise the category is the first failure in order, or that of a failure record that could not be written, and a record that is written says what became of file and checkpoint. |
| UploadSessions.FirstFailureCounts | apps/ovayra-spike/src/gemini_orchestration.rs:229-270 | Which category exactly: a failed analysis before an empty one, that before a failed deletion of the remote file, that before one of the checkpoint. |
| UploadSessions.LateRecordSays | apps/ovayra-spike/src/gemini_orchestration.rs:229-319 | What exactly the failure record says about the analysis and the two deletions. |
| UploadSessions.Conclude | apps/ovayra-spike/src/gemini_orchestration.rs:214-320 | From what the continuation came to: a recorded failure, or analysis and both deletions in order, with the outcome and the proof of the whole call. |
| UploadSessions.Locate | apps/ovayra-spike/src/gemini_orchestration.rs:114-213 | Before anything is sent: the payload and the server's true count when the upload can go on from there, otherwise the exact failure with category, staged and found offset, recorded; the server is not changed. |
| UploadSessions.EarlyReasons | apps/ovayra-spike/src/gemini_orchestration.rs:114-213 | Each early category exactly under its condition: an unreadable checkpoint, a count not answered, a count beyond the input, a count off the granularity. |
| UploadSessions.ResumeAnalyze | apps/ovayra-spike/src/gemini_orchestration.rs:101-320 | Over every combination of outcomes: before a remote file exists nothing is deleted and the result is the exact failure; a remote file means the rest of the input was appended and the session closed; success exactly when everything worked, with the offsets and the proof it reports. A remote file comes exactly from a readable checkpoint when the server can be continued, the count is answered and every piece gets through; a lost answer to an only final piece loses it. |
| UploadSessions.SmoothCanComplete | apps/ovayra-spike/src/gemini_orchestration.rs:160-228 | Without faults that is so for every server that can be continued. |
| CrossProcess.CheckpointOpens | crates/spike-gemini/src/client.rs:416-452 | What the staging process wrote opens in the resuming process to the same session, granularity and staged offset. |
| CrossProcess.Resume | apps/ovayra-spike/src/main.rs:1131-1164 | The resuming process gets the staged key and payload and leaves the store alone; what `resume_analyze_with_evidence` guarantees carries over to the command, with the staged session in place of the key and the file. |
| CrossProcess.EmittedRecordsSay | apps/ovayra-spike/src/gemini_orchestration.rs:271-300 | Field by field what the staged and the resumed record say: the upload row of the target, the same checkpoint, the offsets, whether they agree, model and status. |
| CrossProcess.GeminiRowIsCanonical | crates/spike-contracts/src/matrix.rs:10-48 | Every target has that row in the matrix. |
| CrossProcess.EmittedProofsPassExactly | crates/spike-contracts/src/matrix.rs:311-438 | The staged and the resumed proof claim the same row of the matrix and pass the record checks and the relationship check exactly when the observed offset is the staged one, the model is the pinned one and the status is 200. |
| CrossProcess.StageThenResumes | apps/ovayra-spike/src/main.rs:1060-1164 | For every fault schedule and any number of resuming processes: what staging left, and for each process what it returned and the state it left, including the evidence file, each following from the one before as the commands promise. |
| CrossProcess.WholeRun | apps/ovayra-spike/src/main.rs:1060-1164 | At every moment of such a run the server holds nothing but a prefix of the input, at most one process got a remote file, whose deletion was asked for once, and the checkpoint is gone only if the whole input was finalized and the remote file deleted; each process that returned success was that one, and the proof it left in the evidence file passes the gate with the staged one exactly under the condition above. |
| CrossProcess.StopsKeepOrder | apps/ovayra-spike/src/gemini_orchestration.rs:101-320 | All this at every moment also when each resuming process may be stopped after any upload, after the remote deletion or after the checkpoint deletion, and the next one starts from what there is then. |
| CrossProcess.FinalizedButRetained | apps/ovayra-spike/src/gemini_orchestration.rs:214-228 | A run in which the session is closed with the whole input, the client fails, the record says the checkpoint is retained for recovery, and no later process succeeds. |
| LibraryWitness.PrintIsInjective | apps/ovayra-spike/src/main.rs:1103-1122 | A checkpoint file has one reading: two records written the same way are the same. |
| LibraryWitness.LibraryExists | crates/spike-gemini/src/client.rs:416-452 | The assumptions about cipher, payload encoding, record parser and digest can be met together. |
| Polling.PollUntilReady | crates/spike-gemini/src/client.rs:324-347 | The wait ends in the first round that decides it or is answered at or after the deadline, with success exactly for an active file and the error that the answer calls for; with a non-zero interval it always ends, after at most one request more than the timeout holds intervals, rounded up; with a zero one it goes on exactly as long as no round ends it; the pauses asked for do not exceed the timeout, nor the interval each. |
| Polling.EndIsUnique | crates/spike-gemini/src/client.rs:324-347 | The round in which a wait ends is determined by what it meets. |
| FrameBridge.LatestFrame.Publish | crates/spike-media/src/preview.rs:136-141 | The new frame is in the slot, and a frame it replaces is counted as dropped. |
| FrameBridge.LatestFrame.Take | crates/spike-media/src/preview.rs:149-154 | Empties the slot and returns what was in it. |
| FrameBridge.ApplySchedule.TryQueue | apps/ovayra-spike/src/preview_app.rs:142-144 | Wins exactly when the flag was clear, and leaves it set. |
| FrameBridge.ApplySchedule.Clear | apps/ovayra-spike/src/preview_app.rs:146-152 | Leaves the flag clear. |
| FrameBridge.Bridge.Publisher | apps/ovayra-spike/src/preview_app.rs:211-249 | Each publisher step on the shared objects is the step of the state machine. |
| FrameBridge.Bridge.UiThread | apps/ovayra-spike/src/preview_app.rs:228-243 | Each step of the UI closure on the shared objects is the step of the state machine. |
| FrameBridge.StepKeepsOneClosure | apps/ovayra-spike/src/preview_app.rs:142-152 | Every step keeps the flag set exactly while one closure is reserved, waiting or about to clear it. |
| FrameBridge.StepKeepsWakeup | apps/ovayra-spike/src/preview_app.rs:211-249 | Every step keeps a waiting frame awaited by a publisher, a closure or the UI thread, unless a refusal left it behind. |
| FrameBridge.StepKeepsConserved | crates/spike-media/src/preview.rs:136-154 | Every step keeps the count of frames: published is taken, dropped, in the slot or being replaced, and applied is at most taken. |
| FrameBridge.EveryInterleaving | apps/ovayra-spike/src/preview_app.rs:211-249 | In every interleaving of any number of publishers with the UI thread: never two closures, frames conserved, every frame taken was applied, is about to be, or was taken when the window was gone, and applied plus dropped at most read, also in 64-bit arithmetic. |
| FrameBridge.EveryFrameIsAccountedFor | apps/ovayra-spike/src/preview_app.rs:211-249 | At rest every frame read was applied, dropped, taken when the window was gone, or is in the slot; if every closure found the window, none was taken in vain. |
| FrameBridge.LastReadIsShown | apps/ovayra-spike/src/preview_app.rs:211-249 | With the single reader, the last submission not refused and every closure finding the window, the frame shown last is at rest the frame read last. |
| FrameBridge.ErrorsAreRefusals | apps/ovayra-spike/src/preview_app.rs:244-248 | At rest the errors counted are exactly the refusals. |
| FrameBridge.NoFrameIsStranded | apps/ovayra-spike/src/preview_app.rs:222-249 | In a system at rest a frame is left only if the last submission was refused and nothing was taken since; if none was refused, every frame read was taken or dropped. |
| FrameBridge.QuietMeansEmptyExactly | apps/ovayra-spike/src/preview_app.rs:222-249 | For every sequence of answers of the event loop: all runs with these answers that come to rest have an empty slot exactly when the last answer is not a refusal. |
| FrameBridge.RefusalStrandsAFrame | apps/ovayra-spike/src/preview_app.rs:244-248 | For any frame, a run in which a refused submission leaves it in the slot of a system at rest. |
| FrameBridge.AppliedInOrder | apps/ovayra-spike/src/preview_app.rs:541-551 | With the single reader, the applied frames are frames it was given, in the same order and none twice. |
| FrameBridge.AppliedAreBlocks | crates/spike-media/src/preview.rs:354-371 | If the reader is given the frames cut from the child's output, every applied frame is a block of that output, later ones later in it, and their sequence numbers strictly increase as long as the counter does not saturate. |
| Latency.Metrics.RecordApplied | apps/ovayra-spike/src/preview_app.rs:167-173 | The window holds exactly the last 4096 of all latencies ever recorded, and the counter their number, saturating. |
| Latency.Metrics.PercentileMillis | apps/ovayra-spike/src/preview_app.rs:175-187 | The percentile of the window, whenever its rank is in range, which is when the code does not panic. |
| Latency.PercentilesAreInRange | apps/ovayra-spike/src/preview_app.rs:175-187 | Percentiles up to 100, and all of at most one sample, are in range; from 200 on only those are. |
| Latency.PercentileIsCount | apps/ovayra-spike/src/preview_app.rs:175-187 | The percentile is at most t exactly when more samples than its rank are at most t, that is, when a hundred times their number exceeds the percentile times one less than all: no sorting and no rounding in the statement. |
| Framing.ReadFrame | crates/spike-media/src/preview.rs:383-404 | A whole frame is the next block of the stream; nothing only at its very end; a partial frame exactly reports the remainder. |
| Framing.ReadAndWait | crates/spike-media/src/preview.rs:354-381 | Whatever the sizes of the reads, the callback gets the consecutive blocks of the stream numbered from one; a remainder is reported exactly; a frame is never refused; the count comes back exactly for whole frames and a child that ended well, and how it ended is looked at only then. |
| Framing.BlocksConcatenate | crates/spike-media/src/preview.rs:354-371 | The frames put together are the consumed part of the stream. |
| Progress.ProgressParser.Reset | crates/spike-media/src/progress.rs:86-90 | The parser is as good as new. |
| Progress.DecimalRoundTrip | crates/spike-media/src/progress.rs:151-165 | A number written in decimal, with or without a plus sign, is read back exactly when it fits 64 bits. |
| Progress.OnlyDecimalsAreRead | crates/spike-media/src/progress.rs:151-165 | Nothing else is read as a number: at most one plus sign, digits, and a value of 64 bits. |
| Progress.BlockLimit | crates/spike-media/src/progress.rs:92-100 | A block is refused as too large exactly when its lines, each with its line feed, count more than 64 KiB. |
| Progress.ProgressParser.TakeLine | crates/spike-media/src/progress.rs:68-149 | One terminated line: the reference step on the buffered and the new bytes, with the same error. |
| Progress.ProgressParser.Push | crates/spike-media/src/progress.rs:43-66 | Agrees with feeding the bytes one at a time: result, error and state; after any error the parser is a fresh one. |
| Progress.EveryPushKeepsBounded | crates/spike-media/src/progress.rs:50-123 | Every reachable state has no newline among at most 64 KiB of pending bytes, stores only the three known keys, and their sizes stay within a counter of at most 64 KiB. |
| Progress.PushCommutesWithConcatenation | crates/spike-media/src/progress.rs:43-66 | Pushing a then b succeeds exactly when pushing a + b does, with the same events, state or error. |
| Progress.AnyChunkingAgrees | crates/spike-media/src/progress.rs:43-66 | Any list of chunks gives what their concatenation gives. |
| ProgressBlocks.SplitIsExact | crates/spike-media/src/progress.rs:43-66 | Splitting at newlines loses nothing and leaves none inside a line. |
| ProgressBlocks.PushIsParseWhole | crates/spike-media/src/progress.rs:43-84 | From any reachable state a push is parsing everything buffered and new at once, line by line. |
| ProgressBlocks.ParserRefinesBlocks | crates/spike-media/src/progress.rs:92-149 | The parser with its map and counter does what one that keeps the raw lines since the last marker does: each event depends on those lines alone, the last value of a key wins, and errors fall on the same line. |
| ProgressBlocks.ReadBlocksAppend | crates/spike-media/src/progress.rs:92-149 | Reading more lines continues from the open block and nothing else. |
| ProgressPrint.EventIsRead | crates/spike-media/src/progress.rs:129-190 | The values stored for an event make up that event again, if the text of its own speed reads back as that speed: each number in its own field, a value that is not known missing or printed as such, the finished flag from the marker. |
| ProgressPrint.BlockIsRead | crates/spike-media/src/progress.rs:92-149 | A printed block, with up to 32 KiB of fields the parser does not know, with or without the fields that are not known, and with either line ending, gives exactly its event and leaves the parser fresh. |
| ProgressPrint.PrintedEventsAreReported | crates/spike-media/src/progress.rs:43-190 | Whatever events are printed, each with its speed in a text that reads back as it, and in whatever pieces the output arrives, exactly these events are reported, in order. |
| ProgressPrint.ReportableBlocksExist | crates/spike-media/src/progress.rs:129-190 | Some text routines, printer and block with a speed and an unknown field meet what the theorem asks. |
| ProgressDrain.SummaryIsTotals | crates/spike-media/src/cpu_fallback.rs:631-644 | The running sums are the sum and number of the collected speeds, and the finished flag says whether any event was final. |
| ProgressDrain.DrainProgress | crates/spike-media/src/cpu_fallback.rs:715-737 | Draining in any pieces reports what parsing the received bytes at once reports: the same progress error, or the summary of the same events, unless a read failed. |
| ProgressDrain.DrainedAverageIsWholeAverage | crates/spike-media/src/cpu_fallback.rs:278-286 | The drained average is the average over the whole output. |
| MatrixKeys.KeyDetermines | crates/spike-contracts/src/matrix.rs:776-791 | Exactly how much of a row its key determines: id, target and the joined qualifiers. |
| MatrixKeys.KeyIdentifiesRowExactly | crates/spike-contracts/src/matrix.rs:776-791 | A row that passes the qualifier check is the only one with its key exactly when no qualifier contains a bar. |
| MatrixKeys.CollidingRows | crates/spike-contracts/src/matrix.rs:785-791 | Two different rows that pass the qualifier check and share a key. |
| MatrixKeys.CanonicalKeysAreInjective | crates/spike-contracts/src/matrix.rs:10-48 | On the canonical rows the key is as good as the row. |
| MatrixKeys.MatrixIsWanted | crates/spike-contracts/src/matrix.rs:10-48 | The rows are exactly these: for each target a preview and a platform row in its session, media rows for its hardware and for the CPU, an upload row, and for the three shipped targets a release row. |
| MatrixKeys.Validate | crates/spike-contracts/src/matrix.rs:261-307 | The loop and the set differences compute the specified verdict, with the same error sets. |
| MatrixKeys.FirstEntryFaultIsReported | crates/spike-contracts/src/matrix.rs:261-285 | The error is that of the first entry with an empty qualifier or seen before. |
| MatrixKeys.ValidateAcceptsExactlyCanonical | crates/spike-contracts/src/matrix.rs:261-307 | Validation accepts exactly the canonical row sequence. |
| Gate.ValidateRelationships | crates/spike-contracts/src/matrix.rs:311-346 | Looking at each row in turn decides the relation for all rows of one kind. |
| Gate.EvaluateProofs | crates/spike-contracts/src/matrix.rs:192-230 | The loops compute the specified verdict: the first fault in input order, then the first missing slot in matrix order, then the relations. |
| GateTheorems.SlotKeysAreInjective | crates/spike-contracts/src/matrix.rs:206-207 | On canonical rows a key with its component identifies the slot. |
| GateTheorems.VerdictIsAcceptance | crates/spike-contracts/src/matrix.rs:192-230 | The scan over string keys accepts exactly when, in terms of rows and components, every record is valid for a row, no slot is filled twice, every required slot is filled and the relations hold. |
| GateTheorems.AcceptanceIsExactCover | crates/spike-contracts/src/matrix.rs:192-230 | Acceptance means every required slot is filled by exactly one proof, and that proof is valid. |
| GateMeaning.AcceptedIsComplete | crates/spike-contracts/src/matrix.rs:192-550 | Acceptance means every row has the measurements it is about, in terms of the fields of the records: a cpu-fallback row a CPU encode, any other media row an encode and a forced fallback on its own backend, and so on for the other kinds. |
| GateMeaning.AcceptedExactly | crates/spike-contracts/src/matrix.rs:192-550 | A list of such measurements, each for a row it is about, is accepted exactly when no two are for the same row and kind, every row has all of its own, and what belongs together agrees. |
| GateFaults.FirstFaultIsReported | crates/spike-contracts/src/matrix.rs:192-222 | The error is that of the first record that is for no row, for a filled slot, or not valid, in this order. |
| GateFaults.FirstGapIsReported | crates/spike-contracts/src/matrix.rs:213-222 | If no record has a fault, it names the first slot of the matrix that none fills. |
| GateFaults.RelationsAreReported | crates/spike-contracts/src/matrix.rs:223-230 | If nothing is missing, the relations of the releases are reported before those of the uploads. |
| GateTheorems.AcceptanceCounts | crates/spike-contracts/src/matrix.rs:348-372 | An accepted list has at least 75 records, and exactly 75 if and only if every record is for a component of its row. |
| GateOrder.EveryOrderIsAccepted | crates/spike-contracts/src/matrix.rs:192-346 | All orders of a list are accepted exactly when it covers the matrix and, for every target, all stage and resume records and all build, package and update records that could be found together are related. |
| GateOrder.SomeOrderIsAccepted | crates/spike-contracts/src/matrix.rs:192-346 | Some order of a list is accepted exactly when it covers the matrix and every target has some such records that are related. |
| GateOrder.OrderIsIrrelevantExactly | crates/spike-contracts/src/matrix.rs:192-346 | The verdict is the same in every order exactly when the second condition implies the first. |
| GateOrder.VerdictIgnoresOrder | crates/spike-contracts/src/matrix.rs:192-346 | In particular when every record is for a component of its row. |
| GateWitness.AcceptanceIsAttainable | crates/spike-contracts/src/matrix.rs:192-550 | Some list of 75 records passes the gate. |
| GateWitness.StrayRecordMakesOrderMatter | crates/spike-contracts/src/matrix.rs:316-343 | With one record for a foreign component, the same 76 records are accepted in one order and refused in another. |
| GateWitness.WrappedCountPasses | crates/spike-contracts/src/matrix.rs:387-388 | A list that passes the gate, in a release build, with a preview record whose applied and dropped frames are more than it read. |
| GateWitness.AcceptedCountsAddUpExactly | crates/spike-contracts/src/matrix.rs:387-388 | In a list accepted in a release build, applied plus dropped of a preview record is at most read exactly when the sum fits 64 bits. |
| GateExchange.ExchangeIsAccepted | crates/spike-contracts/src/matrix.rs:192-346 | An accepted list in which two records take the place of the upload records of a target stays accepted exactly if both are valid for their row and what the gate finds for the target is related. |
| GateExchange.EmittedProofsKeepAcceptance | crates/spike-contracts/src/matrix.rs:192-346 | With the emitted records, and no record of a foreign row for the target's upload components, it does exactly when the observed offset is the staged one, the model is the pinned one and the status is 200. |
| GateExchange.RunKeepsAcceptance | crates/spike-contracts/src/matrix.rs:192-346 | The same over whole runs, for the proof staging left and the one a successful process left. |
| EvidenceGate.MatchReport | crates/spike-contracts/src/matrix.rs:232-259 | Finds the row a report speaks about or the specified error. |
| EvidenceGate.Evaluate | crates/spike-contracts/src/matrix.rs:158-183 | The three loops compute the specified verdict: first fault, then first threshold not met, then first row without a report. |
| EvidenceGate.AcceptsExactlyOneToOne | crates/spike-contracts/src/matrix.rs:158-183 | Accepts exactly the lists of passing reports that match the canonical rows one to one, whatever the thresholds are. |
| EvidenceGate.AcceptanceMeansThirtyThree | crates/spike-contracts/src/matrix.rs:158-183 | An accepted list has 33 reports: none is extra. |
| EvidenceGate.AcceptedReportsSay | crates/spike-contracts/src/matrix.rs:158-259 | In terms of what the reports say: each row has exactly one that names its spike, target, session and requested backend, and that one passes, names the backend it ran on if the row has one, and meets the thresholds. |
| EvidenceGate.FirstFaultIsReported | crates/spike-contracts/src/matrix.rs:158-259 | The error is that of the first report with a fault: unmatched, wrong backend, no actual backend, repeated, unfinished or not passing, in this order. |
| EvidenceGate.FirstUnmetIsReported | crates/spike-contracts/src/matrix.rs:174-178 | If there is none, that of the first threshold not met. |
| EvidenceGate.FirstGapIsReported | crates/spike-contracts/src/matrix.rs:178-183 | And if all are met, it names the first row without a report. |
| EvidenceGate.AcceptanceIsPossibleExactly | crates/spike-contracts/src/matrix.rs:158-183 | Some list is accepted exactly when every canonical row can have an acceptable report. |
| EvidenceGate.ReportForIsAcceptable | crates/spike-contracts/src/matrix.rs:232-259 | A row has an acceptable report whenever the thresholds ask nothing of a bare passing one. |
| EvidenceGate.AcceptanceIgnoresOrder | crates/spike-contracts/src/matrix.rs:158-183 | Reordering the reports never changes whether they are accepted. |
| Tokenizer.ParseTokens | crates/spike-release/src/ffmpeg_policy.rs:639-677 | The loop computes the tokens of the specified lexer, or fails for unbalanced quoting, a trailing escape or no token. |
| Tokenizer.TokensOfJoined | crates/spike-release/src/ffmpeg_policy.rs:639-677 | From a text that lexes back to the neutral state, the tokens of two texts with a space between them are the tokens of both. |
| Tokenizer.RoundTrip | scripts/build-ffmpeg-linux.sh:32 | Escaping at least every special character, and any others, and printing or joining with spaces is undone by the tokenizer, for any non-empty list of non-empty tokens. |
| Tokenizer.SpellingsConcatenate | crates/spike-release/src/ffmpeg_policy.rs:639-677 | The parts of a token may each be quoted in their own way: spellings put side by side spell the tokens put together. |
| Tokenizer.QuotesSpell | crates/spike-release/src/ffmpeg_policy.rs:650-664 | Single quotes keep everything but a single quote, and double quotes keep everything once at least double quotes and backslashes are escaped. |
| Tokenizer.AnySpellingIsRead | crates/spike-release/src/ffmpeg_policy.rs:639-677 | A line of spellings, however each token is quoted, lexes to the non-empty tokens among them: to all of them exactly when none is empty. |
| Tokenizer.EmptyTokenIsLost | crates/spike-release/src/ffmpeg_policy.rs:654-658 | A line with a quoted empty token lexes as if it were not there. |
| Tokenizer.OpenEndIsRefused | crates/spike-release/src/ffmpeg_policy.rs:666-677 | Text that ends in a backslash or inside quotes is refused, whatever was read before. |
| Tokenizer.BlankIsRefused | crates/spike-release/src/ffmpeg_policy.rs:666-677 | So is text of nothing but white space. |
| BuildPolicy.ReadRecord | crates/spike-release/src/ffmpeg_policy.rs:145-166 | The nested loops find the specified record: the first header line with its continuation lines. |
| Prelude.CountsDistinct | crates/spike-release/src/ffmpeg_policy.rs:171-176 | Counting the set of tokens finds every repetition. |
| BuildPolicy.ValidateBuildconf | crates/spike-release/src/ffmpeg_policy.rs:144-192 | The whole check computes the specified verdict, with the flag each error names. |
| BuildPolicy.LeastIsLeast | crates/spike-release/src/ffmpeg_policy.rs:186-190 | The flag named for a forbidden prefix is the least token that begins with it, and there is one exactly when some token does. |
| BuildPolicy.TokenVerdictIsAllowed | crates/spike-release/src/ffmpeg_policy.rs:171-191 | The checks in their order accept exactly duplicate-free lists with every baseline flag and no token that enables GPL or nonfree code, with or without a value. |
| BuildPolicy.FaultsInOrder | crates/spike-release/src/ffmpeg_policy.rs:171-182 | A repetition is reported before anything else, then the GPL flag, then the nonfree flag. |
| BuildPolicy.MissingFlagIsNamed | crates/spike-release/src/ffmpeg_policy.rs:181-185 | Then the first baseline flag that is missing. |
| BuildPolicy.ForbiddenValueIsNamed | crates/spike-release/src/ffmpeg_policy.rs:186-190 | Then the least flag that gives a GPL flag a value, or else a nonfree one. |
| BuildPolicy.AcceptedMeansAllowed | crates/spike-release/src/ffmpeg_policy.rs:144-192 | A text is accepted exactly when its first record lexes to such a list, however the flags are quoted. |
| BuildPolicy.RestrictedFlagIsRefused | crates/spike-release/src/ffmpeg_policy.rs:177-190 | A record part that lexes to a GPL or nonfree flag is refused, whatever stands before and after it. |
| BuildLayout.PrintedLineVerdict | scripts/build-ffmpeg-linux.sh:32 | Whatever characters the shell escapes besides the special ones, the line the build scripts print is judged by its tokens alone, except that it is malformed exactly when the last token ends in white space. |
| BuildLayout.TrailingSpaceIsRefused | crates/spike-release/src/ffmpeg_policy.rs:151 | An allowed configuration that is refused in its printed form. |
| BuildLayout.QuotedLineVerdict | crates/spike-release/src/ffmpeg_policy.rs:144-192 | A configuration on one line is judged by its tokens alone, however each of them is quoted. |
| BuildLayout.ListedVerdict | crates/spike-release/src/ffmpeg_policy.rs:147-166 | The indented list FFmpeg prints, between any banner and any trailer, is judged by its tokens alone, however each of them is quoted. |
| BuildLayout.WrittenLineVerdict | crates/spike-release/src/ffmpeg_policy.rs:144-192 | Every list of non-empty tokens without line feeds is judged by its tokens when each is written in a form that fits it: backslashes, single quotes, or double quotes, which fit all. |
| BuildLayout.WrittenListVerdict | crates/spike-release/src/ffmpeg_policy.rs:147-166 | The same for the indented list of flags, with the dashes of each flag left plain. |
| BuildLayout.MixedVerdict | crates/spike-release/src/ffmpeg_policy.rs:145-166 | Flags on the header line together with an indented list below it, with blank lines between, are judged as one list of tokens. |
| Scanner.SchemeFits | apps/ovayra-spike/src/evidence_lint.rs:598-606 | The text cut out as a URL always contains its scheme, so the slice behind the scheme is in range. |
| Scanner.ScanUrls | apps/ovayra-spike/src/evidence_lint.rs:592-617 | Accepts exactly when no occurrence of a scheme, at any position and in any letter case, begins a URL with a query, a fragment, userinfo or an upload mark; the error is that of the first such occurrence, secure schemes first. |
| Scanner.OffenceExactly | apps/ovayra-spike/src/evidence_lint.rs:598-612 | By positions in the text: a URL has a credential exactly if a question mark or a number sign stands in it, or an at sign with no slash between the scheme and it; otherwise it is an upload URL exactly if the word stands before any slash or as a part of the path. |
| Scanner.CleanExactly | apps/ovayra-spike/src/evidence_lint.rs:592-617 | A text is clean exactly if no URL in it, up to the first character that ends one, is either. |
| Scanner.LetterCaseDoesNotMatter | apps/ovayra-spike/src/evidence_lint.rs:592-617 | Rewriting a text in lower case changes no finding. |
| Scanner.PartsAreScannedApart | apps/ovayra-spike/src/evidence_lint.rs:600-605 | A text split at any delimiter is clean exactly when its parts are. |
| Scanner.ContainsArmoredPrivateKey | apps/ovayra-spike/src/evidence_lint.rs:575-590 | True exactly when a header at some position names a private key before the first dashes that close it. |
| Scanner.ScanText | apps/ovayra-spike/src/evidence_lint.rs:551-573 | A text passes exactly when no mark, header, home path or offending URL stands anywhere in it; the category is that of the first kind found. |
| Scanner.MarksAreThese | apps/ovayra-spike/src/evidence_lint.rs:551-571 | The marks of keys and home paths, one by one. |
| Quarantine.BoundedIsLongest | crates/spike-media/src/capability.rs:259-273 | No longer prefix of whole characters fits 512 bytes. |
| Quarantine.BoundReason | crates/spike-media/src/capability.rs:259-273 | The loop over character boundaries cuts at that prefix. |
| Quarantine.ExecutionPolicy.constructor | crates/spike-media/src/capability.rs:148-172 | A new policy schedules the hardware, or the CPU with its reason if it looks at the mask and the backend is in it. |
| Quarantine.ExecutionPolicy.Observe | crates/spike-media/src/capability.rs:179-204 | Policy, mask and answer after an observation are the specified ones. |
| Quarantine.MaskIsExactlyTheFailures | crates/spike-media/src/capability.rs:189-257 | In every run of any number of policies the mask holds exactly the backends some process-wide policy failed on. |
| Quarantine.MaskOnlyGrows | crates/spike-media/src/capability.rs:255-257 | A backend once quarantined stays so, whatever happens later. |
| Quarantine.LaterPoliciesScheduleCpu | crates/spike-media/src/capability.rs:159-172 | A process-wide policy schedules the CPU, with its code, exactly when one failed on its backend before. |
| Quarantine.PoliciesAreSound | crates/spike-media/src/capability.rs:179-204 | In every run each policy has tried a prefix of hardware then CPU, or of CPU alone if quarantined, and its counter, code, reason and result fit that. |
| Quarantine.PoliciesFollowTheirStory | crates/spike-media/src/capability.rs:148-240 | In every run each policy is, field by field, what its story says: from the backend it was made for, whether a process-wide failure on that came before, and the first two outcomes it was told. |
| Quarantine.ResultIsTheSuccess | crates/spike-media/src/capability.rs:179-204 | In every run a policy has a result exactly when one of its scheduled attempts succeeded, and then that is the last it made. |
| Quarantine.ExecutionPolicy.MayRetryHardwareInThisSession | crates/spike-media/src/capability.rs:227-230 | True exactly while no hardware failure was seen and an attempt is scheduled. |
| Quarantine.TwoAttempts | crates/spike-media/src/capability.rs:141-240 | At most two attempts, hardware first and once; CPU scheduled, tried or the result only with a code; hardware may be retried exactly while it is scheduled and nothing was tried; a finished policy stays finished. |

## Left out

- UploadSessions.ResumeAnalyze: with a granularity of zero in the checkpoint, which no staging writes, and bytes left, the code's loop does not end; the model stops after a number of chunks given as a parameter and returns no result.
- UploadContinue.ContinueAndFinalize: uploads by anybody else in between are not modelled.
- FrameBridge.EveryInterleaving: counters are unbounded; the code's saturating `u64` counters differ only beyond 2^64 frames.
- ProgressPrint.PrintedEventsAreReported: text routines are those that take visible ASCII as it is; the text of a speed has at most 400 bytes; a speed that is known is printed in one way.
- Latency.Metrics.PercentileMillis: an index out of range is a precondition violation, where the code panics.
- Polling.PollUntilReady: with a zero interval the model looks at a number of rounds given as a parameter, where the code goes on as long as no round ends the wait.
- ProgressDrain.DrainProgress: reads of any size, where the code reads at most 8 KiB at a time.
- ProgressDrain.DrainedAverageIsWholeAverage: speeds are real numbers, and at most 2^32 - 1 of them, beyond which the code panics.
- EvidenceGate.AcceptsExactlyOneToOne: the thresholds of `validate_requirements` are a parameter; that a media row has a backend, which the code expects, holds for the canonical rows.
- BuildLayout.PrintedLineVerdict: is about tokens the shell's `%q` writes with backslashes; tokens with line feeds or other control characters, which it writes in another form, are not modelled.
- CrossProcess.StopsKeepOrder: a request in flight when its process is stopped counts as settled before the next process starts; stopping the staging process is not modelled.
- GateWitness.WrappedCountPasses: a debug build, which panics on overflow instead, is not modelled.
- Quarantine.ExecutionPolicy.constructor: asking for the CPU is a precondition violation, where the code panics.
- Texts are sequences of characters and progress output is a sequence of bytes; UTF-8 validation, Unicode trimming and float parsing inside the progress parser are parameters.
- AES-GCM is a function that decrypts what it encrypted and nothing else; JSON encoding and parsing of the checkpoint payload and SHA-256 are functions with a round trip or a length and nothing else.
- HTTP, the asynchronous runtime, process handling, timers and clocks; delays are counted, not waited for. Generation, remote deletion, file and keyring operations are outcomes the environment chooses.
- Redirects, timeouts of single requests and the remaining headers of the upload protocol.
- The panics after mutex poisoning, and the case that a window handle disappears between two steps of one closure.
- Resident-size samples and the thresholds of the preview gate, the tray lifecycle and the rest of the user interface.
- Package and manifest checks, bundle layout, checksums, SBOM and lock-file checks, hardware argument lists and inventory parsing: mostly I/O, foreign formats or easy members.
- Directory walks, file identity, JSON structure and key normalization in the evidence linter.
