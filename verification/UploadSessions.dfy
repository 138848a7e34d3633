/** The two commands of the upload: staging one chunk and, in another process, resuming
    (apps/ovayra-spike/src/main.rs and gemini_orchestration.rs). */
module UploadSessions {
  import opened Prelude
  import opened Envelope
  import opened Proofs
  import opened UploadServer
  import opened UploadClient
  import opened UploadContinue

  /** The associated data of every checkpoint, "ovayra-upload-session-v1". */
  const CHECKPOINT_AAD: seq<byte> := [111, 118, 97, 121, 114, 97, 45, 117, 112, 108, 111, 97,
    100, 45, 115, 101, 115, 115, 105, 111, 110, 45, 118, 49]
  const UPLOAD_CHECKPOINT_ACCOUNT: string := "phase-0-upload-checkpoint-v1"

  datatype CheckpointPayload = CheckpointPayload(url: string, granularity: Option<u64>, stagedOffset: u64)

  /** The library routines both commands share: the cipher, JSON for the payload, the
      JSON parser for the record file, and SHA-256 in hexadecimal. */
  datatype Library = Library(
    aead: Aead,
    encodePayload: CheckpointPayload -> seq<byte>,
    decodePayload: seq<byte> -> Option<CheckpointPayload>,
    parseRecord: string -> Option<EncryptedRecord>,
    sha256Hex: string -> string)

  ghost predicate IsLibrary(lib: Library) {
    && IsAead(lib.aead)
    && (forall p :: lib.decodePayload(lib.encodePayload(p)) == Some(p))
    && (forall r :: lib.parseRecord(Print(r)) == Some(r))
    && (forall text :: |lib.sha256Hex(text)| == 64)
  }

  datatype Cleanup = NotAttempted | RetainedForRecovery | Deleted | Failed

  datatype ResumeOutcome = ResumeOutcome(
    persistedHint: u64, observed: Option<u64>, offsetMismatch: Option<bool>, failure: Option<FailureCategory>)

  /** What is written to the evidence path: a typed proof or a failure record. */
  datatype EvidenceDocument =
    | TypedProof(proof: PhaseZeroProof)
    | FailureRecord(outcome: ResumeOutcome, remoteCleanup: Cleanup, checkpointCleanup: Cleanup, analysisNonempty: bool)

  /** What can be seen between two processes. */
  datatype Moment = Moment(
    at: Snapshot, checkpoint: Option<string>, evidence: Option<EvidenceDocument>, remoteDeletes: nat,
    remoteDeleted: bool)

  /** Everything that outlives a process: server, checkpoint file, evidence file, keys,
      and how often the deletion of the remote file was requested. */
  class World {
    const wire: Wire
    const store: SecretStore
    var checkpoint: Option<string>
    var evidence: Option<EvidenceDocument>
    var remoteDeletes: nat
    var remoteDeleted: bool
    ghost var trail: seq<Moment>   // what there was after each deletion asked for

    constructor (wire: Wire, store: SecretStore)
      ensures this.wire == wire && this.store == store
      ensures checkpoint == None && evidence == None && remoteDeletes == 0 && !remoteDeleted
    {
      this.wire, this.store := wire, store;
      checkpoint, evidence, remoteDeletes, remoteDeleted, trail := None, None, 0, false, [];
    }

    function Now(): Moment
      reads this, wire
    {
      Moment(wire.at, checkpoint, evidence, remoteDeletes, remoteDeleted)
    }
  }

  // ---- stage-upload ---------------------------------------------------------------------

  datatype StageError =
    | PauseCount | StartFailed | InputTooShort | ChunkFailed | OffsetUnknown | NothingAccepted
    | KeyUnavailable | NotEncrypted | CheckpointNotWritten | EvidenceNotWritten

  /** The outcomes of the stage command's own input and output. */
  datatype StageEnvironment = StageEnvironment(
    randomKey: seq<byte>, nonce: seq<byte>, keyGetFails: bool, keySetFails: bool,
    checkpointWrites: bool, checkpointReadsBack: bool, evidenceWrites: bool)

  predicate StageEnvironmentOk(env: StageEnvironment) {
    |env.randomKey| == 32 && |env.nonce| == 12
  }

  /** The key can be had, and everything that is to be written can. */
  predicate StageKeeps(env: StageEnvironment, entries: map<(string, string), seq<byte>>) {
    var account := (MASTER_KEY_SERVICE, UPLOAD_CHECKPOINT_ACCOUNT);
    && !env.keyGetFails && (if account in entries then |entries[account]| == 32 else !env.keySetFails)
    && env.checkpointWrites && env.checkpointReadsBack && env.evidenceWrites
  }

  function StageProof(lib: Library, target: TargetId, file: string, session: UploadSession, staged: u64): PhaseZeroProof
  {
    PhaseZeroProof(2, CGeminiStage, ProofRow(Gemini, target, None, None),
      GeminiStageProof(lib.sha256Hex(file), staged, staged, true, ChunkSize(session), true, PlaintextAbsent(file)))
  }

  function PayloadOf(session: UploadSession, staged: u64): CheckpointPayload {
    CheckpointPayload(session.url, session.granularity, staged)
  }

  /** The checkpoint file holds this session and offset under the stored key. */
  ghost predicate Checkpointed(lib: Library, entries: map<(string, string), seq<byte>>, file: string,
                               session: UploadSession, staged: u64) {
    var account := (MASTER_KEY_SERVICE, UPLOAD_CHECKPOINT_ACCOUNT);
    && account in entries && |entries[account]| == 32
    && exists record ::
         && file == Print(record)
         && Open(lib.aead, entries[account], record, CHECKPOINT_AAD)
            == Ok(lib.encodePayload(PayloadOf(session, staged)))
  }

  /** The session that is started and takes the first chunk of an input longer than that, with
      the count answered, and the step after it, if all that gets through. */
  function StagedSession(schedule: nat -> Fault, policy: RetryPolicy, at: Snapshot, bytes: seq<byte>):
    Option<(UploadSession, nat)>
  {
    if policy.maxAttempts == 0 then None
    else
      var last := Deciding(schedule, at.server, Start, at.step, policy.maxAttempts);
      var session := Announced(schedule(last));
      if !schedule(last).kind.Served? || schedule(last).uploadUrl.None? || schedule(last).granularity == Malformed
         || session.granularity == Some(0) || |bytes| <= ChunkSize(session) then None
      else
        var chunk := bytes[..ChunkSize(session)];
        var delivered := Delivered(schedule, policy.maxAttempts, ServerState([], false), Upload(0, chunk, false),
                                   last + 1, policy.maxAttempts);
        if delivered.None? then None
        else
          var answered := AnsweredBy(schedule, ServerState(chunk, false), delivered.value.1, policy.maxAttempts);
          if answered.None? then None else Some((session, answered.value))
  }

  lemma CalmStages(schedule: nat -> Fault, policy: RetryPolicy, at: Snapshot, bytes: seq<byte>)
    requires policy.maxAttempts > 0 && |bytes| <= U64_MAX && ChunkSize(Announced(schedule(at.step))) < |bytes|
    requires Calm(schedule(at.step)) && Calm(schedule(at.step + 1)) && Calm(schedule(at.step + 2))
    ensures StagedSession(schedule, policy, at, bytes) == Some((Announced(schedule(at.step)), at.step + 3))
  {
  }

  /** `stage_gemini_upload`. */
  method Stage(world: World, lib: Library, policy: RetryPolicy, target: TargetId, bytes: seq<byte>,
               pauseAfterChunks: nat, env: StageEnvironment)
    returns (r: Result<u64, StageError>, session: UploadSession)
    requires IsLibrary(lib) && StageEnvironmentOk(env) && |bytes| <= U64_MAX
    modifies world, world.wire, world.store
    ensures old(world.wire.at).sent <= world.wire.at.sent
    ensures AlwaysFaithful(bytes, world.wire.at, |old(world.wire.at).sent|)
    ensures world.wire.at.server in {old(world.wire.at).server, ServerState([], false)} ||
            Faithful(bytes, world.wire.at.server)
    ensures world.remoteDeletes == old(world.remoteDeletes) && world.remoteDeleted == old(world.remoteDeleted)
    ensures r.Ok? ==>
              && session.granularity != Some(0)
              && world.checkpoint.Some?
              && Checkpointed(lib, world.store.entries, world.checkpoint.value, session, r.value)
              && world.evidence == Some(TypedProof(StageProof(lib, target, world.checkpoint.value, session, r.value)))
              && PlaintextAbsent(world.checkpoint.value)
              && 0 < r.value == ChunkSize(session) < |bytes|
              && world.wire.at.server == ServerState(bytes[..r.value], false)
    // It succeeds exactly if the chunk gets through and everything can be written.
    ensures r.Ok? <==>
              && pauseAfterChunks == 1
              && StagedSession(world.wire.schedule, policy, old(world.wire.at), bytes).Some?
              && StageKeeps(env, old(world.store.entries))
              && var started := StagedSession(world.wire.schedule, policy, old(world.wire.at), bytes).value;
                 |lib.encodePayload(PayloadOf(started.0, ChunkSize(started.0)))| <= MAX_PLAINTEXT_BYTES
    ensures r.Ok? ==>
              Some((session, world.wire.at.step)) ==
              StagedSession(world.wire.schedule, policy, old(world.wire.at), bytes)
    // Three exchanges that go through and a working machine are enough.
    ensures var step, fault := old(world.wire.at).step, world.wire.schedule(old(world.wire.at).step);
            && policy.maxAttempts > 0 && pauseAfterChunks == 1
            && Calm(fault) && Calm(world.wire.schedule(step + 1)) && Calm(world.wire.schedule(step + 2))
            && ChunkSize(Announced(fault)) < |bytes| && StageKeeps(env, old(world.store.entries))
            && |lib.encodePayload(PayloadOf(Announced(fault), ChunkSize(Announced(fault))))| <= MAX_PLAINTEXT_BYTES ==>
              r.Ok? && session == Announced(fault) && world.wire.at.step == step + 3
  {
    hide IsLibrary, Checkpointed, PlaintextAbsent, Faithful, AlwaysFaithful, StageKeeps, PayloadOf, StagedSession, Calm,
         StageProof;
    NothingSentYet(bytes, world.wire.at);
    session := UploadSession("", None);
    if policy.maxAttempts > 0 && ChunkSize(Announced(world.wire.schedule(world.wire.at.step))) < |bytes|
       && Calm(world.wire.schedule(world.wire.at.step)) && Calm(world.wire.schedule(world.wire.at.step + 1))
       && Calm(world.wire.schedule(world.wire.at.step + 2)) {
      CalmStages(world.wire.schedule, policy, world.wire.at, bytes);
    }
    if pauseAfterChunks != 1 {
      return Err(PauseCount), session;
    }
    var staged;
    staged, session := StageChunk(world.wire, policy, bytes);
    if staged.Err? {
      return Err(staged.error), session;
    }
    var failed := RecordStage(world, lib, target, session, staged.value, env);
    if failed.Some? {
      return Err(failed.value), session;
    }
    return Ok(staged.value), session;
  }

  /** The part of `stage_gemini_upload` that talks to the server. */
  method StageChunk(wire: Wire, policy: RetryPolicy, bytes: seq<byte>)
    returns (r: Result<u64, StageError>, session: UploadSession)
    requires |bytes| <= U64_MAX
    modifies wire
    ensures old(wire.at).sent <= wire.at.sent && AlwaysFaithful(bytes, wire.at, |old(wire.at).sent|)
    ensures wire.at.server in {old(wire.at).server, ServerState([], false)} || Faithful(bytes, wire.at.server)
    ensures r.Ok? <==> StagedSession(wire.schedule, policy, old(wire.at), bytes).Some?
    ensures r.Ok? ==>
              && Some((session, wire.at.step)) == StagedSession(wire.schedule, policy, old(wire.at), bytes)
              && session.granularity != Some(0) && 0 < r.value == ChunkSize(session) < |bytes|
              && wire.at.server == ServerState(bytes[..r.value], false)
  {
    hide Grew, NeverStale, WithinBudget, Faithful, AlwaysFaithful, IsMultipleOf, NextState, Take, Spent, SentOnly,
         Waited, Deciding, Delivered, AnsweredBy;
    NothingSentYet(bytes, wire.at);
    ghost var before := wire.at;
    session := UploadSession("", None);
    var open := StartUpload(wire, policy);
    SameSends(bytes, before, wire.at, |before.sent|);
    if open.Err? {
      return Err(StartFailed), session;
    }
    session := open.value;
    var chunkSize := ChunkSize(open.value);
    if |bytes| <= chunkSize {
      return Err(InputTooShort), session;
    }
    ghost var started := wire.at;
    var firstChunk := bytes[..chunkSize];
    WholeChunks(session);
    var uploaded := UploadChunk(wire, policy, open.value, 0, firstChunk);
    FirstChunkIsFaithful(bytes, started, wire.at, firstChunk);
    ghost var afterChunk := wire.at;
    if uploaded.Err? {
      return Err(ChunkFailed), session;
    }
    var staged := QueryOffset(wire, policy);
    SameSends(bytes, afterChunk, wire.at, |before.sent|);
    if staged.Err? {
      return Err(OffsetUnknown), session;
    }
    if staged.value == 0 {
      return Err(NothingAccepted), session;
    }
    return Ok(staged.value), session;
  }

  /** The end of `stage_gemini_upload`: encrypt and write the checkpoint, then the proof. */
  method RecordStage(world: World, lib: Library, target: TargetId, session: UploadSession, staged: u64,
                     env: StageEnvironment)
    returns (failed: Option<StageError>)
    requires IsLibrary(lib) && StageEnvironmentOk(env)
    modifies world, world.store
    ensures world.remoteDeletes == old(world.remoteDeletes) && world.remoteDeleted == old(world.remoteDeleted)
    ensures failed == None ==>
              && world.checkpoint.Some?
              && Checkpointed(lib, world.store.entries, world.checkpoint.value, session, staged)
              && world.evidence == Some(TypedProof(StageProof(lib, target, world.checkpoint.value, session, staged)))
              && PlaintextAbsent(world.checkpoint.value)
    ensures failed == None <==>
            StageKeeps(env, old(world.store.entries)) &&
            |lib.encodePayload(PayloadOf(session, staged))| <= MAX_PLAINTEXT_BYTES
  {
    hide IsLibrary, Checkpointed, PlaintextAbsent, Print, Open, Seal;
    var key := LoadOrCreate(world.store, UPLOAD_CHECKPOINT_ACCOUNT, env.randomKey, env.keyGetFails, env.keySetFails);
    if key.Err? {
      return Some(KeyUnavailable);
    }
    var payload := lib.encodePayload(PayloadOf(session, staged));
    var record := Seal(lib.aead, key.value, env.nonce, payload, CHECKPOINT_AAD);
    LibrarySeals(lib, key.value, env.nonce, payload);
    if record.Err? {
      return Some(NotEncrypted);
    }
    if !env.checkpointWrites {
      return Some(CheckpointNotWritten);
    }
    world.checkpoint := Some(Print(record.value));
    if !env.checkpointReadsBack {
      return Some(CheckpointNotWritten);
    }
    CheckpointFileHidesPlaintext(record.value);
    CheckpointedBy(lib, world.store.entries, record.value, session, staged);
    if !env.evidenceWrites {
      return Some(EvidenceNotWritten);
    }
    world.evidence := Some(TypedProof(StageProof(lib, target, Print(record.value), session, staged)));
    return None;
  }

  lemma NothingSentYet(input: seq<byte>, at: Snapshot)
    ensures AlwaysFaithful(input, at, |at.sent|)
  {
  }

  lemma SameSends(input: seq<byte>, before: Snapshot, after: Snapshot, from: nat)
    requires after.sent == before.sent && AlwaysFaithful(input, before, from)
    ensures AlwaysFaithful(input, after, from)
  {
  }

  lemma FirstChunkIsFaithful(input: seq<byte>, before: Snapshot, after: Snapshot, chunk: seq<byte>)
    requires before.server == ServerState([], false) && chunk <= input
    requires Grew(before.server, after.server, chunk, false)
    requires NeverStale(before, after, Upload(0, chunk, false))
    ensures before.sent <= after.sent
    ensures Faithful(input, after.server) && AlwaysFaithful(input, after, |before.sent|)
    ensures after.server.received == chunk ==> after.server == ServerState(input[..|chunk|], false)
  {
    assert chunk == input[0..|chunk|];
    var request := Upload(0, chunk, false);
    GrowthFollows(input, before.server, before.server, after.server, request);
    forall i | |before.sent| <= i < |after.sent| ensures Faithful(input, after.sent[i].after) {
      GrowthFollows(input, before.server, before.server, after.sent[i].after, request);
    }
  }

  lemma LibrarySeals(lib: Library, key: seq<byte>, nonce: seq<byte>, payload: seq<byte>)
    requires IsLibrary(lib) && |nonce| == 12
    ensures Seal(lib.aead, key, nonce, payload, CHECKPOINT_AAD).Ok? <==> |payload| <= MAX_PLAINTEXT_BYTES
    ensures Seal(lib.aead, key, nonce, payload, CHECKPOINT_AAD).Ok? ==>
              Open(lib.aead, key, Seal(lib.aead, key, nonce, payload, CHECKPOINT_AAD).value, CHECKPOINT_AAD) ==
              Ok(payload)
  {
    hide IsAead;
    SealedRecordsOpen(lib.aead, key, nonce, payload, CHECKPOINT_AAD);
  }

  lemma CheckpointedBy(lib: Library, entries: map<(string, string), seq<byte>>, record: EncryptedRecord,
                       session: UploadSession, staged: u64)
    requires (MASTER_KEY_SERVICE, UPLOAD_CHECKPOINT_ACCOUNT) in entries
    requires |entries[(MASTER_KEY_SERVICE, UPLOAD_CHECKPOINT_ACCOUNT)]| == 32
    requires Open(lib.aead, entries[(MASTER_KEY_SERVICE, UPLOAD_CHECKPOINT_ACCOUNT)], record, CHECKPOINT_AAD)
             == Ok(lib.encodePayload(PayloadOf(session, staged)))
    ensures Checkpointed(lib, entries, Print(record), session, staged)
  {
    hide Open, Print;
  }

  // ---- resume-analyze ---------------------------------------------------------------------

  /** A generation that was answered with success; the text itself is not kept. */
  datatype Generation = Generation(analysisNonempty: bool, status: nat)

  /** The outcomes of the resume command's own input and output, of polling and
      generating, and of the remote deletion. */
  datatype ResumeEnvironment = ResumeEnvironment(
    keyReads: bool, bindingReads: bool, recordReads: bool, analysis: Option<Generation>,
    deletes: bool, removes: bool, evidenceWrites: bool)

  /** `read_checkpoint` and `resume_checkpoint`. */
  function OpenCheckpoint(lib: Library, key: seq<byte>, file: string): Result<CheckpointPayload, FailureCategory> {
    match lib.parseRecord(file)
    case None => Err(CheckpointRead)
    case Some(record) =>
      match Open(lib.aead, key, record, CHECKPOINT_AAD)
      case Err(_) => Err(CheckpointDecrypt)
      case Ok(plaintext) =>
        match lib.decodePayload(plaintext)
        case None => Err(CheckpointDecrypt)
        case Some(payload) => Ok(payload)
  }

  function ResumeProof(lib: Library, target: TargetId, file: string, outcome: ResumeOutcome, generation: Generation,
                       model: string): PhaseZeroProof
  {
    PhaseZeroProof(2, CGeminiResume, ProofRow(Gemini, target, None, None),
      GeminiResumeProof(lib.sha256Hex(file), outcome.persistedHint, outcome.observed.GetOr(0),
        outcome.offsetMismatch == Some(false), "ACTIVE", generation.analysisNonempty, model, generation.status,
        true, true, true))
  }

  /** `fail`: record the failure; not even that failing changes what is kept. */
  method Fail(world: World, outcome: ResumeOutcome, evidenceWrites: bool) returns (r: ResumeOutcome)
    modifies world`evidence
    ensures r == if evidenceWrites then outcome else outcome.(failure := Some(EvidenceWrite))
    ensures world.evidence ==
            if evidenceWrites then Some(FailureRecord(outcome, NotAttempted, RetainedForRecovery, false))
                              else old(world.evidence)
  {
    if !evidenceWrites {
      return outcome.(failure := Some(EvidenceWrite));
    }
    world.evidence := Some(FailureRecord(outcome, NotAttempted, RetainedForRecovery, false));
    return outcome;
  }

  /** The failure category of a run that got a remote file, in the source's order. */
  function LateFailure(env: ResumeEnvironment): Option<FailureCategory> {
    if env.analysis.None? then Some(Analysis)
    else if !env.analysis.value.analysisNonempty then Some(EmptyAnalysis)
    else if !env.deletes then Some(RemoteCleanup)
    else if !env.removes then Some(CheckpointCleanup)
    else None
  }

  /** The first thing that went wrong is the category: a failed analysis before an empty one,
      that before a failed deletion of the remote file, and that before one of the checkpoint. */
  lemma FirstFailureCounts(env: ResumeEnvironment)
    ensures LateFailure(env) == Some(Analysis) <==> env.analysis.None?
    ensures LateFailure(env) == Some(EmptyAnalysis) <==> env.analysis.Some? && !env.analysis.value.analysisNonempty
    ensures LateFailure(env) == Some(RemoteCleanup) <==>
            env.analysis.Some? && env.analysis.value.analysisNonempty && !env.deletes
    ensures LateFailure(env) == Some(CheckpointCleanup) <==>
            env.analysis.Some? && env.analysis.value.analysisNonempty && env.deletes && !env.removes
    ensures LateFailure(env) == None <==>
            env.analysis.Some? && env.analysis.value.analysisNonempty && env.deletes && env.removes
  {
  }

  /** The category such a run returns: that of the write if the failure cannot be recorded. */
  function ReportedFailure(env: ResumeEnvironment): Option<FailureCategory> {
    if LateFailure(env).Some? && !env.evidenceWrites then Some(EvidenceWrite) else LateFailure(env)
  }

  /** What the failure record of such a run says about the two deletions. */
  function LateRecord(outcome: ResumeOutcome, env: ResumeEnvironment): EvidenceDocument {
    FailureRecord(outcome, if env.deletes then Deleted else Cleanup.Failed,
      if !env.deletes then RetainedForRecovery else if env.removes then Deleted else Cleanup.Failed,
      env.analysis.Some? && env.analysis.value.analysisNonempty)
  }

  /** It says of each deletion whether it was done, failed, or was not asked for because the
      one before it had failed; and that the analysis worked if it gave a text. */
  lemma LateRecordSays(outcome: ResumeOutcome, env: ResumeEnvironment)
    ensures var record := LateRecord(outcome, env);
            && record.FailureRecord? && record.outcome == outcome
            && (record.remoteCleanup == Deleted <==> env.deletes) && record.remoteCleanup != NotAttempted
            && (record.checkpointCleanup == Deleted <==> env.deletes && env.removes)
            && (record.checkpointCleanup == RetainedForRecovery <==> !env.deletes)
            && (record.checkpointCleanup == Cleanup.Failed <==> env.deletes && !env.removes)
            && (record.analysisNonempty <==> env.analysis.Some? && env.analysis.value.analysisNonempty)
  {
  }

  /** What there is after each of the two deletions: the remote file goes first, and the
      checkpoint only if that succeeded. */
  function Deletions(before: Moment, env: ResumeEnvironment): seq<Moment> {
    var asked := before.(remoteDeletes := before.remoteDeletes + 1,
                         remoteDeleted := before.remoteDeleted || env.deletes);
    if env.deletes && env.removes then [asked, asked.(checkpoint := None)] else [asked]
  }

  /** The end of `resume_analyze_with_evidence`, once a remote file exists: analysis has
      run, now delete the remote file, then the checkpoint, then record the outcome. */
  method CleanUp(world: World, lib: Library, target: TargetId, file: string, pending: ResumeOutcome, model: string,
                 env: ResumeEnvironment)
    returns (r: Result<ResumeOutcome, ResumeOutcome>)
    requires pending.failure == None
    modifies world
    ensures world.trail == old(world.trail) + Deletions(old(world.Now()), env)
    ensures world.remoteDeletes == old(world.remoteDeletes) + 1
    ensures world.remoteDeleted == (old(world.remoteDeleted) || env.deletes)
    ensures world.checkpoint == if env.deletes && env.removes then None else old(world.checkpoint)
    ensures r.Ok? <==> LateFailure(env).None? && env.bindingReads && env.evidenceWrites
    ensures r.Ok? ==>
              && r.value == pending
              && world.evidence ==
                 Some(TypedProof(ResumeProof(lib, target, file, pending, env.analysis.value, model)))
    ensures r.Err? ==> r.error == pending.(failure := ReportedFailure(env))
    ensures r.Err? ==>
              world.evidence == if LateFailure(env).Some? && env.evidenceWrites then Some(LateRecord(r.error, env))
                                else old(world.evidence)
  {
    hide ResumeProof;
    world.remoteDeletes := world.remoteDeletes + 1;
    world.remoteDeleted := world.remoteDeleted || env.deletes;
    world.trail := world.trail + [world.Now()];
    var checkpointCleanup := RetainedForRecovery;
    if env.deletes {
      if env.removes {
        world.checkpoint := None;
        world.trail := world.trail + [world.Now()];
      }
      checkpointCleanup := if env.removes then Deleted else Cleanup.Failed;
    }
    var outcome := pending.(failure := LateFailure(env));
    if outcome.failure.None? {
      if !env.bindingReads || !env.evidenceWrites {
        return Err(outcome);
      }
      world.evidence := Some(TypedProof(ResumeProof(lib, target, file, outcome, env.analysis.value, model)));
      return Ok(outcome);
    }
    if !env.evidenceWrites {
      return Err(outcome.(failure := Some(EvidenceWrite)));
    }
    world.evidence := Some(FailureRecord(outcome, if env.deletes then Deleted else Cleanup.Failed, checkpointCleanup,
      env.analysis.Some? && env.analysis.value.analysisNonempty));
    return Err(outcome);
  }

  /** The session is open and can be continued from where the server is. */
  predicate CanContinue(payload: CheckpointPayload, bytes: seq<byte>, server: ServerState) {
    && !server.finalized
    && |server.received| <= |bytes|
    && (payload.granularity.Some? && |server.received| < |bytes| ==>
          payload.granularity != Some(0) && IsMultipleOf(|server.received|, payload.granularity.value))
  }

  /** No upload since `before` has moved the server. */
  ghost predicate NeverMoved(before: Snapshot, after: Snapshot) {
    forall i :: |before.sent| <= i < |after.sent| ==> after.sent[i].after == before.server
  }

  /** How a process moves the server: never away from a prefix of the input, not at all if
      the session is closed, and all the way if it gets a remote file. */
  ghost predicate ServerMoves(bytes: seq<byte>, before: Snapshot, after: Snapshot, remote: bool) {
    && before.sent <= after.sent
    && (Faithful(bytes, before.server) ==> Faithful(bytes, after.server) && AlwaysFaithful(bytes, after, |before.sent|))
    && (before.server.finalized ==> after.server == before.server && !remote && NeverMoved(before, after))
    && (remote ==> |before.server.received| <= |bytes|
                   && after.server == ServerState(before.server.received + bytes[|before.server.received|..], true))
  }

  /** What a process keeps: the deletion of a remote file is attempted exactly once, and
      the checkpoint goes exactly when there was one and it was deleted. */
  ghost predicate Keeps(before: Moment, env: ResumeEnvironment, remote: bool, after: Moment) {
    && after.remoteDeletes == before.remoteDeletes + (if remote then 1 else 0)
    && after.remoteDeleted == (before.remoteDeleted || (remote && env.deletes))
    && after.checkpoint == if remote && env.deletes && env.removes then None else before.checkpoint
  }

  /** What a failed process reports and records: before a remote file exists always a
      category; later the first thing that went wrong, or nothing if only the proof could
      not be written. */
  ghost predicate FailsAs(error: ResumeOutcome, before: Moment, env: ResumeEnvironment, remote: bool, after: Moment) {
    if !remote then
      && error.failure.Some? && (!env.evidenceWrites ==> error.failure == Some(EvidenceWrite))
      && after.evidence ==
         if env.evidenceWrites then Some(FailureRecord(error, NotAttempted, RetainedForRecovery, false))
                           else before.evidence
    else
      && error.failure == ReportedFailure(env)
      && after.evidence ==
         if LateFailure(env).Some? && env.evidenceWrites then Some(LateRecord(error, env)) else before.evidence
  }

  /** What a successful process reports and writes: the offsets it found and the proof. */
  ghost predicate SucceedsAs(outcome: ResumeOutcome, lib: Library, key: seq<byte>, target: TargetId, model: string,
                             before: Moment, env: ResumeEnvironment, after: Moment)
  {
    && before.checkpoint.Some? && env.analysis.Some? && |before.at.server.received| <= U64_MAX
    && OpenCheckpoint(lib, key, before.checkpoint.value).Ok?
    && var staged := OpenCheckpoint(lib, key, before.checkpoint.value).value.stagedOffset;
       var found := |before.at.server.received|;
       && outcome == ResumeOutcome(staged, Some(found), Some(found != staged), None)
       && after.evidence == Some(TypedProof(
            ResumeProof(lib, target, before.checkpoint.value, outcome, env.analysis.value, model)))
  }

  /** Everything one run of `resume_analyze_with_evidence` does, over every combination of
      outcomes. Success is everything at once. */
  ghost predicate Resumed(lib: Library, key: seq<byte>, target: TargetId, bytes: seq<byte>, model: string,
                          env: ResumeEnvironment, before: Moment, r: Option<Result<ResumeOutcome, ResumeOutcome>>,
                          remote: bool, after: Moment)
  {
    && ServerMoves(bytes, before.at, after.at, remote)
    && Keeps(before, env, remote, after)
    && (Succeeded(r) <==> remote && LateFailure(env).None? && env.bindingReads && env.evidenceWrites)
    && (r.None? ==> !remote && after.evidence == before.evidence)
    && (r.Some? && r.value.Err? ==> FailsAs(r.value.error, before, env, remote, after))
    && (Succeeded(r) ==> SucceedsAs(r.value.value, lib, key, target, model, before, env, after))
  }

  /** What the checkpoint of a process holds, if it can be read. */
  function ReadPayload(lib: Library, key: seq<byte>, checkpoint: Option<string>,
                       recordReads: bool): Option<CheckpointPayload> {
    if !recordReads || checkpoint.None? || OpenCheckpoint(lib, key, checkpoint.value).Err? then None
    else Some(OpenCheckpoint(lib, key, checkpoint.value).value)
  }

  /** The server can be continued, the count is answered, and from there every piece gets
      through: nothing is said about the client here. */
  ghost predicate CanComplete(payload: CheckpointPayload, policy: RetryPolicy, schedule: nat -> Fault, bytes: seq<byte>,
                              at: Snapshot)
  {
    && CanContinue(payload, bytes, at.server)
    && var answered := AnsweredBy(schedule, at.server, at.step, policy.maxAttempts);
       answered.Some?
       && Completes(schedule, policy, UploadSession(payload.url, payload.granularity), at.server, bytes,
                    |at.server.received|, answered.value)
  }

  /** When a process gets a remote file: exactly from a checkpoint that can be read, if the
      rest of the input gets through. Losing the answer to a final piece that is the only one
      loses the remote file. Only a granularity of zero can keep a process from ending. */
  ghost predicate GetsRemote(read: Option<CheckpointPayload>, policy: RetryPolicy, schedule: nat -> Fault,
                             bytes: seq<byte>, before: Snapshot, ended: bool, remote: bool, after: Snapshot)
  {
    && (remote <==> read.Some? && CanComplete(read.value, policy, schedule, bytes, before))
    && (!ended ==> read.Some? && read.value.granularity == Some(0) && |before.server.received| < |bytes|)
    && (read.Some? && CanContinue(read.value, bytes, before.server) &&
        LosesFinal(schedule, policy, read.value, bytes, before) ==>
          && !remote
          && after.server == NextState(before.server, LastPiece(bytes, before.server), schedule(before.step + 1)))
  }

  /** Without faults every server that can be continued is. */
  lemma SmoothCanComplete(payload: CheckpointPayload, policy: RetryPolicy, schedule: nat -> Fault, bytes: seq<byte>,
                          at: Snapshot)
    requires CanContinue(payload, bytes, at.server) && Smooth(schedule, policy, at) && |bytes| <= U64_MAX
    ensures CanComplete(payload, policy, schedule, bytes, at)
  {
    CalmIsAnswered(policy, schedule, at);
    hide Calm, IsMultipleOf, Completes;
    SmoothCompletes(schedule, policy, UploadSession(payload.url, payload.granularity), at.(step := at.step + 1), bytes,
                    |at.server.received|);
  }

  lemma CalmIsAnswered(policy: RetryPolicy, schedule: nat -> Fault, at: Snapshot)
    ensures policy.maxAttempts > 0 && Calm(schedule(at.step)) && |at.server.received| <= U64_MAX ==>
              AnsweredBy(schedule, at.server, at.step, policy.maxAttempts) == Some(at.step + 1)
    ensures policy.maxAttempts > 0 && (forall k :: k >= at.step ==> Calm(schedule(k))) ==> Calm(schedule(at.step))
  {
  }

  /** Why a process stops before it sends anything, and what it reports: nothing stops it if
      the checkpoint can be read, the count is answered, and lies within the input and on the
      granularity. */
  function EarlyOutcome(lib: Library, key: seq<byte>, checkpoint: Option<string>, recordReads: bool,
                        policy: RetryPolicy, schedule: nat -> Fault, bytes: seq<byte>, at: Snapshot):
    Option<ResumeOutcome>
  {
    if checkpoint.None? || !recordReads then Some(ResumeOutcome(0, None, None, Some(CheckpointRead)))
    else
      match OpenCheckpoint(lib, key, checkpoint.value)
      case Err(category) => Some(ResumeOutcome(0, None, None, Some(category)))
      case Ok(payload) =>
        var hint, found := payload.stagedOffset, |at.server.received|;
        if AnsweredBy(schedule, at.server, at.step, policy.maxAttempts).None? then
          Some(ResumeOutcome(hint, None, None, Some(QueryFailed)))
        else if found > U64_MAX then None
        else if found > |bytes| then
          Some(ResumeOutcome(hint, Some(found), Some(found != hint), Some(OffsetBeyondInput)))
        else if payload.granularity.Some? && found < |bytes| && !IsMultipleOf(found, payload.granularity.value) then
          Some(ResumeOutcome(hint, Some(found), Some(found != hint), Some(OffsetMisaligned)))
        else None
  }

  /** The reasons to stop early, one by one. */
  lemma EarlyReasons(lib: Library, key: seq<byte>, checkpoint: Option<string>, recordReads: bool, policy: RetryPolicy,
                     schedule: nat -> Fault, bytes: seq<byte>, at: Snapshot)
    ensures var early := EarlyOutcome(lib, key, checkpoint, recordReads, policy, schedule, bytes, at);
            var read := ReadPayload(lib, key, checkpoint, recordReads);
            var answered := AnsweredBy(schedule, at.server, at.step, policy.maxAttempts).Some?;
            var found := |at.server.received|;
            && (early.Some? ==> early.value.failure.Some?)
            && (read.None? <==> early.Some? && early.value.failure in {Some(CheckpointRead), Some(CheckpointDecrypt)})
            && (early.Some? && early.value.failure == Some(QueryFailed) <==> read.Some? && !answered)
            && (early.Some? && early.value.failure == Some(OffsetBeyondInput) <==>
                read.Some? && answered && found > |bytes|)
            && (early.Some? && early.value.failure == Some(OffsetMisaligned) <==>
                read.Some? && answered && found < |bytes| && read.value.granularity.Some?
                && !IsMultipleOf(found, read.value.granularity.value))
            && (early.Some? && read.Some? ==> early.value.persistedHint == read.value.stagedOffset)
            && (early.Some? && early.value.observed.Some? ==>
                early.value.observed == Some(found)
                && (early.value.offsetMismatch == Some(false) <==> found == read.value.stagedOffset))
  {
    AnswerFits(schedule, at, policy);
    CheckpointErrors(lib, key, checkpoint);
    hide AnsweredBy, IsMultipleOf, OpenCheckpoint;
  }

  lemma CheckpointErrors(lib: Library, key: seq<byte>, checkpoint: Option<string>)
    ensures checkpoint.Some? && OpenCheckpoint(lib, key, checkpoint.value).Err? ==>
              var category := OpenCheckpoint(lib, key, checkpoint.value).error;
              && (category == CheckpointRead <==> lib.parseRecord(checkpoint.value).None?)
              && (category == CheckpointDecrypt <==> lib.parseRecord(checkpoint.value).Some?)
  {
    hide Open;
  }

  /** A failure as it is returned: it is that of its own record if that cannot be written. */
  function Shown(outcome: ResumeOutcome, env: ResumeEnvironment): ResumeOutcome {
    if env.evidenceWrites then outcome else outcome.(failure := Some(EvidenceWrite))
  }

  /** The first part of `resume_analyze_with_evidence`: read the checkpoint, ask the server
      where it is, and check that the upload can go on from there. */
  method Locate(world: World, lib: Library, policy: RetryPolicy, key: seq<byte>, bytes: seq<byte>,
                env: ResumeEnvironment)
    returns (r: Result<CheckpointPayload, ResumeOutcome>, observed: u64)
    requires |bytes| <= U64_MAX
    modifies world`evidence, world.wire
    ensures world.wire.at.server == old(world.wire.at).server && world.wire.at.sent == old(world.wire.at).sent
    ensures Keeps(old(world.Now()), env, false, world.Now()) && world.trail == old(world.trail)
    ensures r.Err? ==> FailsAs(r.error, old(world.Now()), env, false, world.Now())
    ensures r.Err? ==>
              GetsRemote(ReadPayload(lib, key, old(world.checkpoint), env.recordReads), policy, world.wire.schedule,
                         bytes, old(world.wire.at), true, false, world.wire.at)
    ensures r.Ok? ==>
              && world.checkpoint == old(world.checkpoint) && world.evidence == old(world.evidence)
              && ReadPayload(lib, key, world.checkpoint, env.recordReads) == Some(r.value)
              && observed == |world.wire.at.server.received| <= |bytes|
              && (r.value.granularity.Some? && observed < |bytes| ==> IsMultipleOf(observed, r.value.granularity.value))
              && AnsweredBy(world.wire.schedule, world.wire.at.server, old(world.wire.at).step, policy.maxAttempts)
                 == Some(world.wire.at.step)
    ensures var early := EarlyOutcome(lib, key, old(world.checkpoint), env.recordReads, policy, world.wire.schedule,
                                      bytes, old(world.wire.at));
            && (r.Err? <==> early.Some?)
            && (r.Err? ==> r.error == Shown(early.value, env))
  {
    hide Keeps, FailsAs, GetsRemote, OpenCheckpoint, Calm, IsMultipleOf, CanContinue, LosesFinal, AnsweredBy, Waited;
    observed := 0;
    ghost var before := world.Now();
    Unread(policy, world.wire.schedule, bytes, before.at);
    var outcome := ResumeOutcome(0, None, None, Some(CheckpointRead));
    if world.checkpoint.None? || !env.recordReads {
      outcome := Fail(world, outcome, env.evidenceWrites);
      FailedEarly(before, env, outcome, world.Now());
      return Err(outcome), observed;
    }
    var resumed := OpenCheckpoint(lib, key, world.checkpoint.value);
    if resumed.Err? {
      outcome := Fail(world, outcome.(failure := Some(resumed.error)), env.evidenceWrites);
      FailedEarly(before, env, outcome, world.Now());
      return Err(outcome), observed;
    }
    var payload := resumed.value;
    outcome := ResumeOutcome(payload.stagedOffset, None, None, Some(QueryFailed));
    AnswerFits(world.wire.schedule, before.at, policy);
    var query := QueryOffset(world.wire, policy);
    NotContinued(policy, world.wire.schedule, payload, bytes, before.at, world.wire.at, query);
    if query.Err? {
      outcome := Fail(world, outcome, env.evidenceWrites);
      FailedEarly(before, env, outcome, world.Now());
      return Err(outcome), observed;
    }
    observed := query.value;
    outcome := outcome.(observed := Some(observed), offsetMismatch := Some(observed != outcome.persistedHint));
    if observed > |bytes| {
      outcome := Fail(world, outcome.(failure := Some(OffsetBeyondInput)), env.evidenceWrites);
      FailedEarly(before, env, outcome, world.Now());
      return Err(outcome), observed;
    }
    if payload.granularity.Some? && observed < |bytes| && !IsMultipleOf(observed, payload.granularity.value) {
      outcome := Fail(world, outcome.(failure := Some(OffsetMisaligned)), env.evidenceWrites);
      FailedEarly(before, env, outcome, world.Now());
      return Err(outcome), observed;
    }
    NothingKept(before, env, world.Now());
    return Ok(payload), observed;
  }

  /** `resume_analyze_with_evidence`. `remote` is whether a remote file came to exist. With
      granularity zero in the checkpoint, which no staging writes, `patience` is how many
      chunks to wait, with no result then. */
  method ResumeAnalyze(world: World, lib: Library, policy: RetryPolicy, key: seq<byte>, target: TargetId,
                       bytes: seq<byte>, model: string, env: ResumeEnvironment, patience: nat)
    returns (r: Option<Result<ResumeOutcome, ResumeOutcome>>, ghost remote: bool)
    requires |bytes| <= U64_MAX
    modifies world, world.wire
    ensures Resumed(lib, key, target, bytes, model, env, old(world.Now()), r, remote, world.Now())
    ensures world.trail ==
            old(world.trail) + if remote then Deletions(old(world.Now()).(at := world.wire.at), env) else []
    ensures GetsRemote(ReadPayload(lib, key, old(world.checkpoint), env.recordReads), policy, world.wire.schedule,
                       bytes, old(world.wire.at), r.Some?, remote, world.wire.at)
    ensures r.Some? && !remote ==>
              && r.value.Err?
              && StopsAs(lib, key, env, policy, world.wire.schedule, bytes, old(world.Now()), r.value.error)
  {
    hide Resumed, ServerMoves, Keeps, FailsAs, SucceedsAs, GetsRemote, Continued, OpenCheckpoint, ResumeProof,
         LateFailure, LateRecord, Smooth, Calm, NextState, IsMultipleOf, CanContinue, LosesFinal, AnsweredBy,
         Completes, Goal, ChunkSize, Cost, KeptOnError, Deletions;
    remote := false;
    ghost var before := world.Now();
    var located, observed := Locate(world, lib, policy, key, bytes, env);
    ghost var asked := world.wire.at;
    NothingMoved(bytes, before.at, asked);
    if located.Err? {
      IsResumed(lib, key, target, bytes, model, env, before, Some(Err(located.error)), false, world.Now());
      return Some(Err(located.error)), remote;
    }
    var payload := located.value;
    var session := UploadSession(payload.url, payload.granularity);
    var finished;
    ghost var pieces;
    finished, pieces := ContinueAndFinalize(world.wire, policy, session, observed, bytes, patience);
    ContinuedMoves(bytes, session, before.at, asked, world.wire.at, observed, pieces, Succeeded(finished));
    ContinuedGets(policy, world.wire.schedule, payload, bytes, before.at, asked, world.wire.at, finished);
    remote := Succeeded(finished);
    r := Conclude(world, lib, key, target, bytes, model, env, payload, observed, finished, before);
  }

  /** What a process without a remote file reports: why it stopped early, or that a piece or the
      final one did not get through, with the staged and the true offset. */
  ghost predicate StopsAs(lib: Library, key: seq<byte>, env: ResumeEnvironment, policy: RetryPolicy,
                          schedule: nat -> Fault, bytes: seq<byte>, before: Moment, error: ResumeOutcome)
  {
    var early := EarlyOutcome(lib, key, before.checkpoint, env.recordReads, policy, schedule, bytes, before.at);
    if early.Some? then error == Shown(early.value, env)
    else
      var read := ReadPayload(lib, key, before.checkpoint, env.recordReads);
      && read.Some? && |before.at.server.received| <= U64_MAX
      && exists category |  category in {Continuation, Finalization} ::
           error == Shown(PendingOutcome(read.value, |before.at.server.received|, Some(category)), env)
  }

  function PendingOutcome(payload: CheckpointPayload, found: u64, failure: Option<FailureCategory>): ResumeOutcome {
    ResumeOutcome(payload.stagedOffset, Some(found), Some(found != payload.stagedOffset), failure)
  }

  /** The last part of `resume_analyze_with_evidence`: what the continuation came to is
      recorded as a failure, or there is a remote file to be cleaned up. */
  method Conclude(world: World, lib: Library, key: seq<byte>, target: TargetId, bytes: seq<byte>, model: string,
                  env: ResumeEnvironment, payload: CheckpointPayload, observed: u64,
                  finished: Option<Result<RemoteFile, FailureCategory>>, ghost before: Moment)
    returns (r: Option<Result<ResumeOutcome, ResumeOutcome>>)
    requires world.Now() == before.(at := world.wire.at)
    requires before.checkpoint.Some? && OpenCheckpoint(lib, key, before.checkpoint.value) == Ok(payload)
    requires observed == |before.at.server.received|
    requires ServerMoves(bytes, before.at, world.wire.at, Succeeded(finished))
    modifies world
    ensures Resumed(lib, key, target, bytes, model, env, before, r, Succeeded(finished), world.Now())
    ensures r.Some? <==> finished.Some?
    ensures finished.Some? && finished.value.Err? ==>
              r == Some(Err(Shown(PendingOutcome(payload, observed, Some(finished.value.error)), env)))
    ensures world.trail ==
            old(world.trail) + if Succeeded(finished) then Deletions(before.(at := world.wire.at), env) else []
  {
    hide Resumed, ServerMoves, Keeps, FailsAs, SucceedsAs, OpenCheckpoint, ResumeProof, LateFailure, LateRecord,
         Deletions;
    var outcome := ResumeOutcome(payload.stagedOffset, Some(observed), Some(observed != payload.stagedOffset), None);
    NothingKept(before, env, world.Now());
    if finished.None? {
      IsResumed(lib, key, target, bytes, model, env, before, None, false, world.Now());
      return None;
    }
    if finished.value.Err? {
      outcome := Fail(world, outcome.(failure := Some(finished.value.error)), env.evidenceWrites);
      FailedEarly(before, env, outcome, world.Now());
      IsResumed(lib, key, target, bytes, model, env, before, Some(Err(outcome)), false, world.Now());
      return Some(Err(outcome));
    }
    var file := world.checkpoint.value;
    var cleaned := CleanUp(world, lib, target, file, outcome, model, env);
    Cleaned(lib, key, target, model, before, env, outcome, cleaned, world.Now());
    IsResumed(lib, key, target, bytes, model, env, before, Some(cleaned), true, world.Now());
    return Some(cleaned);
  }

  lemma IsResumed(lib: Library, key: seq<byte>, target: TargetId, bytes: seq<byte>, model: string,
                  env: ResumeEnvironment, before: Moment, r: Option<Result<ResumeOutcome, ResumeOutcome>>,
                  remote: bool, after: Moment)
    requires ServerMoves(bytes, before.at, after.at, remote) && Keeps(before, env, remote, after)
    requires Succeeded(r) <==> remote && LateFailure(env).None? && env.bindingReads && env.evidenceWrites
    requires r.None? ==> !remote && after.evidence == before.evidence
    requires r.Some? && r.value.Err? ==> FailsAs(r.value.error, before, env, remote, after)
    requires Succeeded(r) ==> SucceedsAs(r.value.value, lib, key, target, model, before, env, after)
    ensures Resumed(lib, key, target, bytes, model, env, before, r, remote, after)
  {
  }

  lemma NothingMoved(bytes: seq<byte>, before: Snapshot, after: Snapshot)
    requires after.server == before.server && after.sent == before.sent
    ensures ServerMoves(bytes, before, after, false)
  {
  }

  lemma NothingKept(before: Moment, env: ResumeEnvironment, after: Moment)
    requires after.checkpoint == before.checkpoint
    requires after.remoteDeletes == before.remoteDeletes && after.remoteDeleted == before.remoteDeleted
    ensures Keeps(before, env, false, after)
  {
  }

  lemma FailedEarly(before: Moment, env: ResumeEnvironment, error: ResumeOutcome, after: Moment)
    requires after.checkpoint == before.checkpoint
    requires after.remoteDeletes == before.remoteDeletes && after.remoteDeleted == before.remoteDeleted
    requires error.failure.Some? && (!env.evidenceWrites ==> error.failure == Some(EvidenceWrite))
    requires after.evidence ==
             if env.evidenceWrites then Some(FailureRecord(error, NotAttempted, RetainedForRecovery, false))
                               else before.evidence
    ensures Keeps(before, env, false, after) && FailsAs(error, before, env, false, after)
  {
  }

  lemma Cleaned(lib: Library, key: seq<byte>, target: TargetId, model: string, before: Moment, env: ResumeEnvironment,
                pending: ResumeOutcome, r: Result<ResumeOutcome, ResumeOutcome>, after: Moment)
    requires before.checkpoint.Some? && OpenCheckpoint(lib, key, before.checkpoint.value).Ok?
    requires |before.at.server.received| <= U64_MAX
    requires pending == ResumeOutcome(
      OpenCheckpoint(lib, key, before.checkpoint.value).value.stagedOffset, Some(|before.at.server.received|),
      Some(|before.at.server.received| != OpenCheckpoint(lib, key, before.checkpoint.value).value.stagedOffset), None)
    requires after.remoteDeletes == before.remoteDeletes + 1
    requires after.remoteDeleted == (before.remoteDeleted || env.deletes)
    requires after.checkpoint == if env.deletes && env.removes then None else before.checkpoint
    requires r.Ok? ==> LateFailure(env).None? && r.value == pending
    requires r.Ok? ==> after.evidence == Some(TypedProof(
                         ResumeProof(lib, target, before.checkpoint.value, pending, env.analysis.value, model)))
    requires r.Err? ==> r.error == pending.(failure := ReportedFailure(env))
    requires r.Err? ==>
               after.evidence == if LateFailure(env).Some? && env.evidenceWrites then Some(LateRecord(r.error, env))
                                 else before.evidence
    ensures Keeps(before, env, true, after)
    ensures r.Err? ==> FailsAs(r.error, before, env, true, after)
    ensures r.Ok? ==> SucceedsAs(r.value, lib, key, target, model, before, env, after)
  {
    hide OpenCheckpoint, ResumeProof, LateRecord;
  }

  lemma Unread(policy: RetryPolicy, schedule: nat -> Fault, bytes: seq<byte>, at: Snapshot)
    ensures GetsRemote(None, policy, schedule, bytes, at, true, false, at)
  {
  }

  lemma AnswerFits(schedule: nat -> Fault, at: Snapshot, policy: RetryPolicy)
    ensures AnsweredBy(schedule, at.server, at.step, policy.maxAttempts).Some? ==> |at.server.received| <= U64_MAX
  {
  }

  /** A process that stops before the continuation got no count or has no server to continue. */
  lemma NotContinued(policy: RetryPolicy, schedule: nat -> Fault, payload: CheckpointPayload, bytes: seq<byte>,
                     before: Snapshot, after: Snapshot, query: Result<u64, GeminiError>)
    requires query.Ok? <==> AnsweredBy(schedule, before.server, before.step, policy.maxAttempts).Some?
    requires query.Ok? ==> query.value == |before.server.received|
    requires |bytes| <= U64_MAX
    ensures query.Err? || query.value > |bytes|
            || (payload.granularity.Some? && query.value < |bytes| &&
                !IsMultipleOf(query.value, payload.granularity.value)) ==>
              GetsRemote(Some(payload), policy, schedule, bytes, before, true, false, after)
  {
    CalmIsAnswered(policy, schedule, before);
    hide IsMultipleOf, Calm, Completes, AnsweredBy;
  }

  /** What the continuation makes of the server decides whether there is a remote file. */
  lemma ContinuedGets(policy: RetryPolicy, schedule: nat -> Fault, payload: CheckpointPayload, bytes: seq<byte>,
                      before: Snapshot, asked: Snapshot, after: Snapshot,
                      finished: Option<Result<RemoteFile, FailureCategory>>)
    requires asked.server == before.server && |before.server.received| <= |bytes|
    requires payload.granularity.Some? && |before.server.received| < |bytes| ==>
               IsMultipleOf(|before.server.received|, payload.granularity.value)
    requires AnsweredBy(schedule, before.server, before.step, policy.maxAttempts) == Some(asked.step)
    requires |bytes| <= U64_MAX
    requires Succeeded(finished) ==> !before.server.finalized
    requires payload.granularity == Some(0) && |before.server.received| < |bytes| ==> !Succeeded(finished)
    requires finished.None? ==> payload.granularity == Some(0) && |before.server.received| < |bytes|
    requires Succeeded(finished) <==>
             Completes(schedule, policy, UploadSession(payload.url, payload.granularity), asked.server, bytes,
                       |asked.server.received|, asked.step)
    requires policy.maxAttempts > 0 && schedule(asked.step).kind.Lost?
             && |bytes| - |before.server.received| <= ChunkSize(UploadSession(payload.url, payload.granularity)) ==>
               && finished == Some(Err(Finalization))
               && after.server == NextState(asked.server, LastPiece(bytes, asked.server), schedule(asked.step))
    ensures GetsRemote(Some(payload), policy, schedule, bytes, before, finished.Some?, Succeeded(finished), after)
  {
    CalmIsAnswered(policy, schedule, before);
    hide Calm, NextState, IsMultipleOf, Completes, AnsweredBy;
  }

  /** The last piece of the input, from where the server is. */
  function LastPiece(bytes: seq<byte>, server: ServerState): Request
    requires |server.received| <= |bytes|
  {
    Upload(|server.received|, bytes[|server.received|..], true)
  }

  /** The offset is answered, then the answer to the only piece left is lost. */
  ghost predicate LosesFinal(schedule: nat -> Fault, policy: RetryPolicy, payload: CheckpointPayload, bytes: seq<byte>,
                             at: Snapshot) {
    && policy.maxAttempts > 0 && Calm(schedule(at.step)) && schedule(at.step + 1).kind.Lost?
    && |bytes| - |at.server.received| <= ChunkSize(UploadSession(payload.url, payload.granularity))
  }

  /** A continuation, with the query before it, as a move of the server. */
  lemma ContinuedMoves(bytes: seq<byte>, session: UploadSession, before: Snapshot, asked: Snapshot, after: Snapshot,
                       observed: nat, pieces: seq<Request>, finished: bool)
    requires asked.server == before.server && asked.sent == before.sent
    requires Continued(bytes, session, asked, after, observed, pieces)
    requires finished ==> !before.server.finalized && |before.server.received| <= |bytes|
                          && after.server == ServerState(Goal(before.server.received, bytes), true)
    ensures ServerMoves(bytes, before, after, finished)
  {
    hide Tiling, SendsPieces, SendsInPlace;
    if Faithful(bytes, before.server) {
      FollowingIsFaithful(bytes, before.server, after, |before.sent|);
    }
  }
}
