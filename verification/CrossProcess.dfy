/** Whole runs: one staging process, any number of resuming processes on its checkpoint
    file, and what the acceptance gate then says about their proofs. */
module CrossProcess {
  import opened Prelude
  import opened Envelope
  import opened Proofs
  import opened MatrixKeys
  import opened Gate
  import opened UploadServer
  import opened UploadClient
  import opened UploadContinue
  import opened UploadSessions

  const PINNED_MODEL: string := "gemini-3.1-flash-lite"

  /** What the staging process wrote opens in a resuming process to the same session,
      granularity and staged offset. */
  lemma CheckpointOpens(lib: Library, entries: map<(string, string), seq<byte>>, file: string, session: UploadSession,
                        staged: u64)
    requires IsLibrary(lib) && Checkpointed(lib, entries, file, session, staged)
    ensures (MASTER_KEY_SERVICE, UPLOAD_CHECKPOINT_ACCOUNT) in entries
    ensures OpenCheckpoint(lib, entries[(MASTER_KEY_SERVICE, UPLOAD_CHECKPOINT_ACCOUNT)], file) ==
            Ok(PayloadOf(session, staged))
  {
    hide Open, Print;
    var key := entries[(MASTER_KEY_SERVICE, UPLOAD_CHECKPOINT_ACCOUNT)];
    var payload := PayloadOf(session, staged);
    var record :|
      file == Print(record) && Open(lib.aead, key, record, CHECKPOINT_AAD) == Ok(lib.encodePayload(payload));
    assert lib.parseRecord(Print(record)) == Some(record);
    assert lib.decodePayload(lib.encodePayload(payload)) == Some(payload);
  }

  // ---- one resuming process ------------------------------------------------------------

  /** The process got a remote file, and asked for its deletion. */
  predicate GotRemote(before: Moment, after: Moment) { after.remoteDeletes > before.remoteDeletes }

  /** What a resuming process on the staged checkpoint comes to: nothing at all without its
      key, and otherwise what `resume_analyze_with_evidence` does. */
  ghost predicate Attempted(lib: Library, target: TargetId, bytes: seq<byte>, model: string, file: string, staged: u64,
                            env: ResumeEnvironment, before: Moment, r: Option<Result<ResumeOutcome, ResumeOutcome>>,
                            after: Moment)
  {
    if !env.keyReads then r == None && after == before
    else
      var remote := GotRemote(before, after);
      && r.Some?
      && ServerMoves(bytes, before.at, after.at, remote)
      && Keeps(before, env, remote, after)
      && (remote ==> before.checkpoint == Some(file))
      && (Succeeded(r) <==> remote && LateFailure(env).None? && env.bindingReads && env.evidenceWrites)
      && (r.value.Err? ==> FailsAs(r.value.error, before, env, remote, after))
      && (r.value.Ok? ==> ReportsProof(r.value.value, lib, target, model, file, staged, before, env, after))
  }

  /** The outcome of a success, and the proof in the evidence file. */
  ghost predicate ReportsProof(outcome: ResumeOutcome, lib: Library, target: TargetId, model: string, file: string,
                               staged: u64, before: Moment, env: ResumeEnvironment, after: Moment)
  {
    var found := |before.at.server.received|;
    && found <= U64_MAX && env.analysis.Some?
    && outcome == ResumeOutcome(staged, Some(found), Some(found != staged), None)
    && var proof := ResumeProof(lib, target, file, outcome, env.analysis.value, model);
       after.evidence == Some(EvidenceDocument.TypedProof(proof))
  }

  /** The resuming process: the key comes from the store the staging process filled. */
  method Resume(world: World, lib: Library, policy: RetryPolicy, target: TargetId, bytes: seq<byte>, model: string,
                randomKey: seq<byte>, env: ResumeEnvironment, ghost file: string, ghost session: UploadSession,
                ghost staged: u64)
    returns (r: Option<Result<ResumeOutcome, ResumeOutcome>>)
    requires IsLibrary(lib) && |bytes| <= U64_MAX && |randomKey| == 32
    requires Checkpointed(lib, world.store.entries, file, session, staged) && session.granularity != Some(0)
    requires world.checkpoint == None || world.checkpoint == Some(file)
    modifies world, world.wire, world.store
    ensures world.store.entries == old(world.store.entries)
    ensures Attempted(lib, target, bytes, model, file, staged, env, old(world.Now()), r, world.Now())
    ensures world.trail ==
            old(world.trail) + if GotRemote(old(world.Now()), world.Now())
                               then Deletions(old(world.Now()).(at := world.wire.at), env) else []
    ensures env.keyReads && old(world.checkpoint) == Some(file) ==>
              GetsRemote(if env.recordReads then Some(PayloadOf(session, staged)) else None, policy,
                         world.wire.schedule, bytes, old(world.wire.at), true,
                         GotRemote(old(world.Now()), world.Now()), world.wire.at)
  {
    hide IsLibrary, Checkpointed, ServerMoves, FailsAs, GetsRemote, OpenCheckpoint, ResumeProof, LateFailure;
    CheckpointOpens(lib, world.store.entries, file, session, staged);
    ghost var before := world.Now();
    var key := LoadOrCreate(world.store, UPLOAD_CHECKPOINT_ACCOUNT, randomKey, !env.keyReads, false);
    KeyIsLong(lib, world.store.entries, file, session, staged);
    if key.Err? {
      return None;
    }
    ghost var remote;
    ghost var read := ReadPayload(lib, key.value, world.checkpoint, env.recordReads);
    r, remote := ResumeAnalyze(world, lib, policy, key.value, target, bytes, model, env, 0);
    RemoteNeedsCheckpoint(read, policy, world.wire.schedule, bytes, before.at, r.Some?, remote, world.wire.at);
  }

  lemma KeyIsLong(lib: Library, entries: map<(string, string), seq<byte>>, file: string, session: UploadSession,
                  staged: u64)
    requires Checkpointed(lib, entries, file, session, staged)
    ensures |entries[(MASTER_KEY_SERVICE, UPLOAD_CHECKPOINT_ACCOUNT)]| == 32
  {
  }

  lemma RemoteNeedsCheckpoint(read: Option<CheckpointPayload>, policy: RetryPolicy, schedule: nat -> Fault,
                              bytes: seq<byte>, before: Snapshot, ended: bool, remote: bool, after: Snapshot)
    requires GetsRemote(read, policy, schedule, bytes, before, ended, remote, after)
    ensures remote ==> read.Some?
    ensures !ended ==> read.Some? && read.value.granularity == Some(0)
  {
    hide CanContinue, LosesFinal, Smooth, NextState;
  }

  // ---- what the gate says --------------------------------------------------------------

  /** The one row of the matrix that is about uploads from a target. */
  function GeminiRow(target: TargetId): RequiredEvidence { RequiredEvidence(Gemini, target, None, None) }

  /** Both proofs claim the same row of the matrix, are in order for it and related to each other. */
  ghost predicate PassGate(stage: PhaseZeroProof, resume: PhaseZeroProof) {
    && stage.Valid() && resume.Valid()
    && ClaimedRow(stage) == ClaimedRow(resume) && ClaimedRow(stage) in CANONICAL
    && ValidTypedProof(ClaimedRow(stage), stage) && ValidTypedProof(ClaimedRow(resume), resume)
    && (forall target: TargetId :: GeminiTargetRelated([stage, resume], target))
  }

  lemma GeminiRowIsCanonical(target: TargetId)
    ensures GeminiRow(target) in CANONICAL
  {
    var i :| 0 <= i < |SUPPORTED_TARGETS| && SUPPORTED_TARGETS[i] == target;
    GeminiRowAt(i);
  }

  lemma GeminiRowAt(i: nat)
    requires i < |SUPPORTED_TARGETS|
    ensures GeminiRow(SUPPORTED_TARGETS[i]) in CANONICAL
  {
    var blocks := [MACOS_VT, WINDOWS_MF, WINDOWS_NVIDIA, LINUX_WAYLAND, LINUX_X11, LINUX_NVIDIA];
    assert GeminiRow(SUPPORTED_TARGETS[i]) in blocks[i];
  }

  /** What the two records say: both are filed under the upload row of the target and name the
      same checkpoint; one gives the staged offset as its own and as the server's, the other
      the staged one and the one found, and whether they agree. */
  lemma EmittedRecordsSay(lib: Library, target: TargetId, file: string, session: UploadSession, staged: u64,
                          observed: u64, generation: Generation, model: string)
    ensures var stage := StageProof(lib, target, file, session, staged);
            && ClaimedRow(stage) == GeminiRow(target) && stage.component == CGeminiStage && stage.schemaVersion == 2
            && stage.proof.GeminiStageProof? && stage.proof.checkpointId == lib.sha256Hex(file)
            && stage.proof.stagedOffset == stage.proof.serverOffset == staged
            && stage.proof.chunkGranularity == ChunkSize(session)
    ensures var outcome := ResumeOutcome(staged, Some(observed), Some(observed != staged), None);
            var resume := ResumeProof(lib, target, file, outcome, generation, model);
            && ClaimedRow(resume) == GeminiRow(target) && resume.component == CGeminiResume && resume.schemaVersion == 2
            && resume.proof.GeminiResumeProof? && resume.proof.checkpointId == lib.sha256Hex(file)
            && resume.proof.resumedOffset == staged && resume.proof.serverOffset == observed
            && (resume.proof.serverAuthoritative <==> observed == staged)
            && resume.proof.model == model && resume.proof.httpStatus == generation.status
            && resume.proof.remoteDeleted && resume.proof.checkpointDeleted
            && resume.proof.analysisNonempty == generation.analysisNonempty
  {
  }

  /** The two emitted proofs pass the gate exactly when the resuming process found the
      server at the staged offset, used the pinned model and got status 200. */
  lemma EmittedProofsPassExactly(lib: Library, target: TargetId, file: string, session: UploadSession, staged: u64,
                                 observed: u64, generation: Generation, model: string)
    requires IsLibrary(lib) && PlaintextAbsent(file)
    requires session.granularity != Some(0) && staged > 0 && generation.analysisNonempty
    ensures var outcome := ResumeOutcome(staged, Some(observed), Some(observed != staged), None);
            PassGate(StageProof(lib, target, file, session, staged),
                     ResumeProof(lib, target, file, outcome, generation, model))
            <==> observed == staged && model == PINNED_MODEL && generation.status == 200
  {
    hide IsAead, PlaintextAbsent, CANONICAL;
    assert |lib.sha256Hex(file)| == 64;
    GeminiRowIsCanonical(target);
    var outcome := ResumeOutcome(staged, Some(observed), Some(observed != staged), None);
    var stage := StageProof(lib, target, file, session, staged);
    var resume := ResumeProof(lib, target, file, outcome, generation, model);
    forall other: TargetId
      ensures GeminiTargetRelated([stage, resume], other) <==> (other != target || observed == staged)
    {
      assert [stage, resume][1..] == [resume] && [resume][1..] == [];
      assert FindProof([resume], CGeminiResume, other) == if other == target then Some(resume) else None;
      assert FindProof([resume], CGeminiStage, other) == None;
      assert FindProof([stage, resume], CGeminiStage, other) == if other == target then Some(stage) else None;
      assert FindProof([stage, resume], CGeminiResume, other) == FindProof([resume], CGeminiResume, other);
    }
  }

  // ---- whole runs -----------------------------------------------------------------------

  /** What a successful staging leaves behind. */
  ghost predicate IsStaged(lib: Library, target: TargetId, bytes: seq<byte>, file: string, session: UploadSession,
                           staged: u64, m: Moment)
  {
    && m.checkpoint == Some(file) && PlaintextAbsent(file)
    && m.evidence == Some(EvidenceDocument.TypedProof(StageProof(lib, target, file, session, staged)))
    && session.granularity != Some(0) && 0 < staged < |bytes|
    && m.at.server == ServerState(bytes[..staged], false) && AlwaysFaithful(bytes, m.at, 0)
    && m.remoteDeletes == 0 && !m.remoteDeleted
  }

  /** Process `i` found `moments[i]`, came to `results[i]`, and left `moments[i + 1]`. */
  ghost predicate Attempts(lib: Library, target: TargetId, bytes: seq<byte>, model: string, file: string, staged: u64,
                           envs: seq<ResumeEnvironment>, moments: seq<Moment>,
                           results: seq<Option<Result<ResumeOutcome, ResumeOutcome>>>)
  {
    && |results| == |envs| && |moments| == |envs| + 1
    && forall i :: 0 <= i < |envs| ==>
         Attempted(lib, target, bytes, model, file, staged, envs[i], moments[i], results[i], moments[i + 1])
  }

  /** One staging process and any number of resuming ones, each with its own outcomes, under
      any fault schedule; with what every process returned, and what was there after it. */
  method StageThenResumes(world: World, lib: Library, policy: RetryPolicy, target: TargetId, bytes: seq<byte>,
                          model: string, stageEnv: StageEnvironment, envs: seq<ResumeEnvironment>, randomKey: seq<byte>)
    returns (staged: Result<u64, StageError>, ghost session: UploadSession, file: string, moments: seq<Moment>,
             results: seq<Option<Result<ResumeOutcome, ResumeOutcome>>>)
    requires IsLibrary(lib) && StageEnvironmentOk(stageEnv) && |bytes| <= U64_MAX && |randomKey| == 32
    requires world.checkpoint == None && world.remoteDeletes == 0 && !world.remoteDeleted
    requires world.wire.at.sent == []
    modifies world, world.wire, world.store
    ensures staged.Err? ==> results == [] && AlwaysFaithful(bytes, world.wire.at, 0)
                            && world.remoteDeletes == 0 && !world.remoteDeleted
    ensures staged.Ok? ==>
              && Attempts(lib, target, bytes, model, file, staged.value, envs, moments, results)
              && IsStaged(lib, target, bytes, file, session, staged.value, moments[0])
              && moments[|envs|] == world.Now()
              && Checkpointed(lib, world.store.entries, file, session, staged.value)
  {
    hide IsLibrary, Checkpointed, Faithful, AlwaysFaithful, Attempted, StageProof, PlaintextAbsent;
    moments, results, file := [], [], "";
    staged, session := Stage(world, lib, policy, target, bytes, 1, stageEnv);
    if staged.Err? {
      return staged, session, file, moments, results;
    }
    file := world.checkpoint.value;
    moments := [world.Now()];
    for i := 0 to |envs|
      invariant |results| == i && |moments| == i + 1
      invariant forall k :: 0 <= k < i ==>
                  Attempted(lib, target, bytes, model, file, staged.value, envs[k], moments[k], results[k],
                            moments[k + 1])
      invariant IsStaged(lib, target, bytes, file, session, staged.value, moments[0])
      invariant moments[i] == world.Now()
      invariant Checkpointed(lib, world.store.entries, file, session, staged.value)
      invariant world.checkpoint == None || world.checkpoint == Some(file)
    {
      ghost var before := world.Now();
      var r := Resume(world, lib, policy, target, bytes, model, randomKey, envs[i], file, session, staged.value);
      CheckpointStaysOrGoes(lib, target, bytes, model, file, staged.value, envs[i], before, r, world.Now());
      moments, results := moments + [world.Now()], results + [r];
    }
  }

  lemma CheckpointStaysOrGoes(lib: Library, target: TargetId, bytes: seq<byte>, model: string, file: string,
                              staged: u64, env: ResumeEnvironment, before: Moment,
                              r: Option<Result<ResumeOutcome, ResumeOutcome>>, after: Moment)
    requires Attempted(lib, target, bytes, model, file, staged, env, before, r, after)
    ensures after.checkpoint == before.checkpoint || after.checkpoint == None
  {
    hide ServerMoves, FailsAs, ReportsProof, LateFailure;
  }

  /** What is true at every moment of a run. At no moment did the server hold anything but a
      prefix of the input; at most one process got a remote file, whose deletion was asked
      for once; the checkpoint is gone only if the whole input was finalized and the remote
      file deleted. */
  ghost predicate InOrder(bytes: seq<byte>, file: string, m: Moment) {
    && Faithful(bytes, m.at.server) && AlwaysFaithful(bytes, m.at, 0)
    && m.remoteDeletes <= 1
    && (m.remoteDeletes == 0 ==> m.checkpoint == Some(file) && !m.remoteDeleted)
    && (m.remoteDeletes == 1 ==> m.at.server == ServerState(bytes, true))
    && (m.checkpoint == Some(file) || (m.checkpoint == None && m.remoteDeleted))
  }

  /** A successful process was the one that got the remote file; the whole input was
      finalized, nothing is left behind, and the proof in the evidence file passes the gate
      together with the staged one exactly when the process found the server where staging
      left it, under the pinned model and with status 200. */
  ghost predicate SuccessIsWhole(lib: Library, target: TargetId, bytes: seq<byte>, model: string, file: string,
                                 session: UploadSession, staged: u64, env: ResumeEnvironment, before: Moment,
                                 after: Moment)
  {
    && before.remoteDeletes == 0 && after.remoteDeletes == 1 && after.remoteDeleted
    && after.checkpoint == None && after.at.server == ServerState(bytes, true)
    && env.analysis.Some? && after.evidence.Some? && after.evidence.value.TypedProof?
    && ClaimedRow(after.evidence.value.proof) == GeminiRow(target)
    && after.evidence.value.proof.component == CGeminiResume && after.evidence.value.proof.Valid()
    && (PassGate(StageProof(lib, target, file, session, staged), after.evidence.value.proof) <==>
        |before.at.server.received| == staged && model == PINNED_MODEL && env.analysis.value.status == 200)
  }

  /** Every run of a staging process and any number of resuming ones is in order at every
      moment, and each success is whole. */
  lemma WholeRun(lib: Library, target: TargetId, bytes: seq<byte>, model: string, file: string, session: UploadSession,
                 staged: u64, envs: seq<ResumeEnvironment>, moments: seq<Moment>,
                 results: seq<Option<Result<ResumeOutcome, ResumeOutcome>>>)
    requires IsLibrary(lib)
    requires Attempts(lib, target, bytes, model, file, staged, envs, moments, results)
    requires IsStaged(lib, target, bytes, file, session, staged, moments[0])
    ensures forall i :: 0 <= i <= |envs| ==> InOrder(bytes, file, moments[i])
    ensures forall i :: 0 <= i < |envs| && Succeeded(results[i]) ==>
              SuccessIsWhole(lib, target, bytes, model, file, session, staged, envs[i], moments[i], moments[i + 1])
  {
    hide IsLibrary, Attempted, InOrder, SuccessIsWhole;
    StagedIsInOrder(lib, target, bytes, file, session, staged, moments[0]);
    for i := 0 to |envs|
      invariant forall k :: 0 <= k <= i ==> InOrder(bytes, file, moments[k])
      invariant forall k :: 0 <= k < i && Succeeded(results[k]) ==>
                  SuccessIsWhole(lib, target, bytes, model, file, session, staged, envs[k], moments[k], moments[k + 1])
    {
      assert Attempted(lib, target, bytes, model, file, staged, envs[i], moments[i], results[i], moments[i + 1]);
      StopKeepsOrder(lib, target, bytes, model, file, staged, envs[i], moments[i], results[i], moments[i + 1],
                     moments[i + 1]);
      if Succeeded(results[i]) {
        SuccessfulAttempt(lib, target, bytes, model, file, session, staged, envs[i], moments[i], results[i],
                          moments[i + 1]);
      }
    }
  }

  lemma StagedIsInOrder(lib: Library, target: TargetId, bytes: seq<byte>, file: string, session: UploadSession,
                        staged: u64, m: Moment)
    requires IsStaged(lib, target, bytes, file, session, staged, m)
    ensures InOrder(bytes, file, m)
  {
  }

  // ---- stopped processes -----------------------------------------------------------------

  /** A moment a process passes through on its way to `after`: it may have sent any number of
      its uploads, or have asked for the first or both of its deletions, or be at its end. */
  ghost predicate PassedThrough(before: Moment, env: ResumeEnvironment, after: Moment, m: Moment) {
    || (exists k :: UploadsSent(before, after, m, k))
    || (GotRemote(before, after) && m in Deletions(before.(at := after.at), env))
    || m == after
  }

  ghost predicate UploadsSent(before: Moment, after: Moment, m: Moment, k: nat) {
    && |before.at.sent| <= k <= |after.at.sent|
    && m == before.(at := m.at)
    && m.at.sent == after.at.sent[..k]
    && m.at.server == if k == |before.at.sent| then before.at.server else after.at.sent[k - 1].after
  }

  /** The process ended or was stopped here, after any upload or deletion. */
  ghost predicate Stopped(lib: Library, target: TargetId, bytes: seq<byte>, model: string, file: string, staged: u64,
                          env: ResumeEnvironment, before: Moment, m: Moment)
  {
    exists r, after :: Attempted(lib, target, bytes, model, file, staged, env, before, r, after)
                       && PassedThrough(before, env, after, m)
  }

  /** Stopping processes does not hurt: a run in which each resuming process ends or is
      stopped after any upload or deletion, and the next starts from what there is then, is
      in order all the same. */
  lemma StopsKeepOrder(lib: Library, target: TargetId, bytes: seq<byte>, model: string, file: string,
                       session: UploadSession, staged: u64, envs: seq<ResumeEnvironment>, moments: seq<Moment>)
    requires |moments| == |envs| + 1
    requires IsStaged(lib, target, bytes, file, session, staged, moments[0])
    requires forall i :: 0 <= i < |envs| ==>
               Stopped(lib, target, bytes, model, file, staged, envs[i], moments[i], moments[i + 1])
    ensures forall i :: 0 <= i <= |envs| ==> InOrder(bytes, file, moments[i])
  {
    hide InOrder, Attempted, PassedThrough;
    StagedIsInOrder(lib, target, bytes, file, session, staged, moments[0]);
    for i := 0 to |envs|
      invariant forall k :: 0 <= k <= i ==> InOrder(bytes, file, moments[k])
    {
      assert Stopped(lib, target, bytes, model, file, staged, envs[i], moments[i], moments[i + 1]);
      var r, after :| Attempted(lib, target, bytes, model, file, staged, envs[i], moments[i], r, after)
                      && PassedThrough(moments[i], envs[i], after, moments[i + 1]);
      StopKeepsOrder(lib, target, bytes, model, file, staged, envs[i], moments[i], r, after, moments[i + 1]);
    }
  }

  lemma StopKeepsOrder(lib: Library, target: TargetId, bytes: seq<byte>, model: string, file: string, staged: u64,
                       env: ResumeEnvironment, before: Moment, r: Option<Result<ResumeOutcome, ResumeOutcome>>,
                       after: Moment, m: Moment)
    requires Attempted(lib, target, bytes, model, file, staged, env, before, r, after) && InOrder(bytes, file, before)
    requires PassedThrough(before, env, after, m)
    ensures InOrder(bytes, file, m)
  {
    hide FailsAs, ReportsProof, LateFailure;
    WholeAtLast(bytes, before.at.server);
    SendsStayFaithful(bytes, before.at, after.at);
    if k: nat :| UploadsSent(before, after, m, k) {
      assert k > |before.at.sent| ==> Faithful(bytes, after.at.sent[k - 1].after);
    }
  }

  lemma SendsStayFaithful(bytes: seq<byte>, before: Snapshot, after: Snapshot)
    requires AlwaysFaithful(bytes, before, 0) && before.sent <= after.sent
    requires AlwaysFaithful(bytes, after, |before.sent|)
    ensures AlwaysFaithful(bytes, after, 0)
  {
    forall i | 0 <= i < |after.sent| ensures Faithful(bytes, after.sent[i].after) {
      if i < |before.sent| {
        assert after.sent[i] == before.sent[i];
      }
    }
  }

  lemma WholeAtLast(input: seq<byte>, server: ServerState)
    ensures Faithful(input, server) ==>
              |server.received| <= |input| && server.received + input[|server.received|..] == input
  {
  }

  lemma SuccessfulAttempt(lib: Library, target: TargetId, bytes: seq<byte>, model: string, file: string,
                          session: UploadSession, staged: u64, env: ResumeEnvironment, before: Moment,
                          r: Option<Result<ResumeOutcome, ResumeOutcome>>, after: Moment)
    requires IsLibrary(lib) && PlaintextAbsent(file) && session.granularity != Some(0) && staged > 0
    requires Attempted(lib, target, bytes, model, file, staged, env, before, r, after) && Succeeded(r)
    requires InOrder(bytes, file, before)
    ensures SuccessIsWhole(lib, target, bytes, model, file, session, staged, env, before, after)
  {
    WholeAtLast(bytes, before.at.server);
    hide PassGate, StageProof, ResumeProof, IsLibrary, PlaintextAbsent, FailsAs, AlwaysFaithful;
    var found := |before.at.server.received|;
    EmittedProofsPassExactly(lib, target, file, session, staged, found, env.analysis.value, model);
    EmittedRecordsSay(lib, target, file, session, staged, found, env.analysis.value, model);
  }

  // ---- retained, but not for recovery ----------------------------------------------------

  function CalmFault(url: string): Fault {
    Fault(Served, 0, false, 0, None, true, Some(url), Granularity(1), Some(RemoteFile("files/1", "", "", Active)))
  }

  /** Everything arrives and the session is closed, but the answer is lost. */
  function LostFault(url: string): Fault { CalmFault(url).(kind := Lost, persisted := 1, finalizes := true) }

  /** The checkpoint can be kept for nothing: after staging, a process loses the answer to
      the final piece and fails, the session is closed with the whole input, the record says
      that the checkpoint is retained for recovery, and no later process can succeed. */
  method FinalizedButRetained(lib: Library, target: TargetId, model: string, url: string, later: ResumeEnvironment)
    returns (world: World, first: Option<Result<ResumeOutcome, ResumeOutcome>>, recorded: Option<EvidenceDocument>,
             second: Option<Result<ResumeOutcome, ResumeOutcome>>)
    requires IsLibrary(lib) && |lib.encodePayload(CheckpointPayload(url, Some(1), 1))| <= MAX_PLAINTEXT_BYTES
    ensures first.Some? && first.value.Err?
    ensures recorded == Some(FailureRecord(first.value.error, NotAttempted, RetainedForRecovery, false))
    ensures world.wire.at.server == ServerState([0, 0], true)
    ensures world.checkpoint.Some? && world.remoteDeletes == 0
    ensures !Succeeded(second)
  {
    hide IsLibrary, Checkpointed, PlaintextAbsent, AlwaysFaithful, Faithful, StageProof, GetsRemote, Calm, ServerMoves,
         ReportsProof, LateFailure, NextState;
    var bytes: seq<byte> := [0, 0];
    var key: seq<byte> := seq(32, _ => 0);
    var nonce: seq<byte> := seq(12, _ => 0);
    var policy := RetryPolicy(5, 2000);
    var wire := new Wire(k => if k == 4 then LostFault(url) else CalmFault(url));
    var store := new SecretStore();
    world := new World(wire, store);
    CalmFaultIsCalm(url);
    var staged;
    ghost var session;
    staged, session := Stage(world, lib, policy, target, bytes, 1,
                             StageEnvironment(key, nonce, false, false, true, true, true));
    ghost var file := world.checkpoint.value;
    ghost var before := world.Now();
    assert bytes[..1] == [0];
    var good := ResumeEnvironment(true, true, true, Some(Generation(true, 200)), true, true, true);
    first := Resume(world, lib, policy, target, bytes, model, key, good, file, session, staged.value);
    FinalIsLost(url, policy, wire.schedule, before.at, GotRemote(before, world.Now()), world.wire.at);
    recorded := world.evidence;
    ghost var between := world.Now();
    second := Resume(world, lib, policy, target, bytes, model, key, later, file, session, staged.value);
    ClosedStaysClosed(bytes, between.at, world.wire.at, GotRemote(between, world.Now()));
  }

  lemma CalmFaultIsCalm(url: string)
    ensures Calm(CalmFault(url)) && Announced(CalmFault(url)) == UploadSession(url, Some(1))
  {
  }

  lemma ClosedStaysClosed(bytes: seq<byte>, before: Snapshot, after: Snapshot, remote: bool)
    ensures before.server.finalized && ServerMoves(bytes, before, after, remote) ==>
            after.server == before.server && !remote
  {
  }

  lemma FinalIsLost(url: string, policy: RetryPolicy, schedule: nat -> Fault, before: Snapshot, remote: bool,
                    after: Snapshot)
    requires policy.maxAttempts > 0 && before.server == ServerState([0], false)
    requires schedule(before.step) == CalmFault(url) && schedule(before.step + 1) == LostFault(url)
    requires GetsRemote(Some(CheckpointPayload(url, Some(1), 1)), policy, schedule, [0, 0], before, true, remote, after)
    ensures !remote && after.server == ServerState([0, 0], true)
  {
    hide Smooth;
    var bytes: seq<byte> := [0, 0];
    var rest: seq<byte> := [0];
    assert bytes[1..] == rest && rest[..1] == rest && [0] + rest == bytes;
    assert IsMultipleOf(1, 1);
    assert NextState(before.server, Upload(1, rest, true), LostFault(url)) == ServerState(bytes, true);
  }
}
