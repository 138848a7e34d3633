/** What the gate says when two processes have emitted their proofs: an accepted list in which
    they take the place of the upload records of their target. */
module GateExchange {
  import opened Prelude
  import opened Proofs
  import opened MatrixKeys
  import opened Gate
  import opened GateTheorems
  import opened GateOrder
  import opened UploadSessions
  import opened CrossProcess
  import opened UploadClient
  import UploadContinue
  import opened Envelope

  /** The record, or the emitted one for the same slot. */
  function Exchanged(p: PhaseZeroProof, stage: PhaseZeroProof, resume: PhaseZeroProof): PhaseZeroProof {
    if SlotOf(p) == SlotOf(stage) then stage else if SlotOf(p) == SlotOf(resume) then resume else p
  }

  /** The list with the two emitted records in place of those for their slots. */
  function Exchange(proofs: seq<PhaseZeroProof>, stage: PhaseZeroProof, resume: PhaseZeroProof): seq<PhaseZeroProof> {
    seq(|proofs|, i requires 0 <= i < |proofs| => Exchanged(proofs[i], stage, resume))
  }

  /** The two records are for the upload slots of the target. */
  ghost predicate ForTarget(stage: PhaseZeroProof, resume: PhaseZeroProof, target: TargetId) {
    SlotOf(stage) == (GeminiRow(target), CGeminiStage) && SlotOf(resume) == (GeminiRow(target), CGeminiResume)
  }

  lemma ExchangeKeepsSlots(proofs: seq<PhaseZeroProof>, stage: PhaseZeroProof, resume: PhaseZeroProof)
    ensures SlotList(Exchange(proofs, stage, resume)) == SlotList(proofs)
    ensures forall slot :: Filled(slot, Exchange(proofs, stage, resume)) <==> Filled(slot, proofs)
  {
    var b := Exchange(proofs, stage, resume);
    assert forall i :: 0 <= i < |proofs| ==> SlotOf(b[i]) == SlotOf(proofs[i]);
    hide SlotOf, Exchanged;
  }

  /** Records for other slots are found as before. */
  lemma {:induction false} ExchangeKeepsOthers(proofs: seq<PhaseZeroProof>, stage: PhaseZeroProof,
                                               resume: PhaseZeroProof, target: TargetId, component: ProofComponent,
                                               asked: TargetId)
    requires ForTarget(stage, resume, target)
    requires component !in {CGeminiStage, CGeminiResume} || asked != target
    ensures FindProof(Exchange(proofs, stage, resume), component, asked) == FindProof(proofs, component, asked)
    decreases |proofs|
  {
    var b := Exchange(proofs, stage, resume);
    if proofs != [] {
      assert b[1..] == Exchange(proofs[1..], stage, resume);
      ExchangeKeepsOthers(proofs[1..], stage, resume, target, component, asked);
    }
  }

  /** So are all relations but that of the target. */
  lemma ExchangeKeepsRelations(proofs: seq<PhaseZeroProof>, stage: PhaseZeroProof, resume: PhaseZeroProof,
                               target: TargetId)
    requires ForTarget(stage, resume, target)
    requires AllRelated(Distribution, proofs, CANONICAL) && AllRelated(Gemini, proofs, CANONICAL)
    requires GeminiRow(target) in CANONICAL
    ensures AllRelated(Distribution, Exchange(proofs, stage, resume), CANONICAL)
    ensures AllRelated(Gemini, Exchange(proofs, stage, resume), CANONICAL) <==>
            GeminiTargetRelated(Exchange(proofs, stage, resume), target)
  {
    var b := Exchange(proofs, stage, resume);
    forall component, asked: TargetId | component !in {CGeminiStage, CGeminiResume} || asked != target
      ensures FindProof(b, component, asked) == FindProof(proofs, component, asked)
    {
      ExchangeKeepsOthers(proofs, stage, resume, target, component, asked);
    }
    hide CANONICAL, FindProof, Exchange, ForTarget;
    forall k | 0 <= k < |CANONICAL| && CANONICAL[k].id == Gemini && CANONICAL[k].target != target
      ensures GeminiTargetRelated(b, CANONICAL[k].target)
    {
      assert Related(Gemini, proofs, CANONICAL[k].target);
    }
    forall k | 0 <= k < |CANONICAL| && CANONICAL[k].id == Distribution
      ensures DistributionTargetRelated(b, CANONICAL[k].target)
    {
      assert Related(Distribution, proofs, CANONICAL[k].target);
    }
    hide GeminiTargetRelated, DistributionTargetRelated;
    var k :| 0 <= k < |CANONICAL| && CANONICAL[k] == GeminiRow(target);
    if AllRelated(Gemini, b, CANONICAL) {
      assert Related(Gemini, b, CANONICAL[k].target);
    }
  }

  /** An accepted list stays accepted exactly if the two records are valid for their row and
      what the gate finds for the target is related. */
  lemma ExchangeIsAccepted(proofs: seq<PhaseZeroProof>, stage: PhaseZeroProof, resume: PhaseZeroProof, target: TargetId)
    requires GateVerdict(CANONICAL, proofs).Ok? && ForTarget(stage, resume, target)
    ensures GateVerdict(CANONICAL, Exchange(proofs, stage, resume)).Ok? <==>
            && ValidTypedProof(GeminiRow(target), stage) && ValidTypedProof(GeminiRow(target), resume)
            && GeminiTargetRelated(Exchange(proofs, stage, resume), target)
  {
    var b := Exchange(proofs, stage, resume);
    GeminiRowIsCanonical(target);
    hide GateVerdict, ValidTypedProof, CANONICAL, GeminiTargetRelated, AllRelated, DistinctSlots;
    VerdictIsAcceptance(proofs);
    VerdictIsAcceptance(b);
    ExchangeKeepsSlots(proofs, stage, resume);
    assert DistinctSlots(b) <==> DistinctSlots(proofs) by { SameSlots(proofs, b); }
    ExchangeKeepsRelations(proofs, stage, resume, target);
    ExchangeKeepsValidity(proofs, stage, resume, target);
  }

  lemma SameSlots(a: seq<PhaseZeroProof>, b: seq<PhaseZeroProof>)
    requires SlotList(a) == SlotList(b)
    ensures DistinctSlots(a) <==> DistinctSlots(b)
  {
    hide SlotList;
  }

  lemma ExchangeKeepsValidity(proofs: seq<PhaseZeroProof>, stage: PhaseZeroProof, resume: PhaseZeroProof,
                              target: TargetId)
    requires Accepted(CANONICAL, proofs) && ForTarget(stage, resume, target) && GeminiRow(target) in CANONICAL
    ensures var b := Exchange(proofs, stage, resume);
            (forall i :: 0 <= i < |b| ==> Admissible(CANONICAL, b[i])) <==>
            ValidTypedProof(GeminiRow(target), stage) && ValidTypedProof(GeminiRow(target), resume)
  {
    hide ValidTypedProof, CANONICAL, AllRelated, DistinctSlots, Slots;
    var b := Exchange(proofs, stage, resume);
    SlotsBelongToRows(CANONICAL, SlotOf(stage));
    SlotsBelongToRows(CANONICAL, SlotOf(resume));
    assert Filled(SlotOf(stage), proofs) && Filled(SlotOf(resume), proofs);
    var i :| 0 <= i < |proofs| && SlotOf(proofs[i]) == SlotOf(stage);
    var j :| 0 <= j < |proofs| && SlotOf(proofs[j]) == SlotOf(resume);
    assert b[i] == stage && b[j] == resume;
    assert forall k :: 0 <= k < |proofs| ==> Admissible(CANONICAL, proofs[k]);
  }

  /** No other row of the target has a record for one of its upload components. */
  ghost predicate NoStray(proofs: seq<PhaseZeroProof>, target: TargetId) {
    forall p | p in proofs && p.component in {CGeminiStage, CGeminiResume} && p.row.target == target ::
      ClaimedRow(p) == GeminiRow(target)
  }

  /** Without strays, what the gate finds are the two records. */
  lemma FindsTheExchanged(proofs: seq<PhaseZeroProof>, stage: PhaseZeroProof, resume: PhaseZeroProof, target: TargetId)
    requires GateVerdict(CANONICAL, proofs).Ok? && ForTarget(stage, resume, target) && NoStray(proofs, target)
    ensures var b := Exchange(proofs, stage, resume);
            FindProof(b, CGeminiStage, target) == Some(stage) && FindProof(b, CGeminiResume, target) == Some(resume)
  {
    var b := Exchange(proofs, stage, resume);
    GeminiRowIsCanonical(target);
    hide GateVerdict, ValidTypedProof, CANONICAL, AllRelated, DistinctSlots, Slots, FindProof;
    VerdictIsAcceptance(proofs);
    SlotsBelongToRows(CANONICAL, SlotOf(stage));
    SlotsBelongToRows(CANONICAL, SlotOf(resume));
    assert Filled(SlotOf(stage), proofs) && Filled(SlotOf(resume), proofs);
    var i :| 0 <= i < |proofs| && SlotOf(proofs[i]) == SlotOf(stage);
    var j :| 0 <= j < |proofs| && SlotOf(proofs[j]) == SlotOf(resume);
    assert b[i] == stage && b[j] == resume;
    FindsWhatIsThere(b, CGeminiStage, target);
    FindsWhatIsThere(b, CGeminiResume, target);
    forall p | p in b && p.component in {CGeminiStage, CGeminiResume} && p.row.target == target
      ensures p == if p.component == CGeminiStage then stage else resume
    {
      var k :| 0 <= k < |b| && b[k] == p;
      assert SlotOf(b[k]) == SlotOf(proofs[k]) && proofs[k] in proofs;
    }
  }

  /** An accepted list without strays stays accepted with the two emitted records in place of
      those of the target exactly when these pass by themselves. */
  lemma ExchangePassesExactly(proofs: seq<PhaseZeroProof>, stage: PhaseZeroProof, resume: PhaseZeroProof,
                              target: TargetId)
    requires GateVerdict(CANONICAL, proofs).Ok? && NoStray(proofs, target)
    requires ForTarget(stage, resume, target) && stage.Valid() && resume.Valid()
    ensures GateVerdict(CANONICAL, Exchange(proofs, stage, resume)).Ok? <==> PassGate(stage, resume)
  {
    hide *;
    ExchangeIsAccepted(proofs, stage, resume, target);
    FindsTheExchanged(proofs, stage, resume, target);
    FindsInPair(stage, resume, target, target);
    SameFindsSameRelation([stage, resume], Exchange(proofs, stage, resume), target);
    PassGateForTarget(stage, resume, target);
  }

  lemma PassGateForTarget(stage: PhaseZeroProof, resume: PhaseZeroProof, target: TargetId)
    requires ForTarget(stage, resume, target) && stage.Valid() && resume.Valid()
    ensures PassGate(stage, resume) <==>
            && ValidTypedProof(GeminiRow(target), stage) && ValidTypedProof(GeminiRow(target), resume)
            && GeminiTargetRelated([stage, resume], target)
  {
    GeminiRowIsCanonical(target);
    hide ValidTypedProof, CANONICAL, FindProof, GeminiTargetRelated, PhaseZeroProof.Valid;
    forall other: TargetId | other != target ensures GeminiTargetRelated([stage, resume], other) {
      FindsInPair(stage, resume, target, other);
      NothingIsRelated([stage, resume], other);
    }
  }

  lemma FindsInPair(stage: PhaseZeroProof, resume: PhaseZeroProof, target: TargetId, other: TargetId)
    requires ForTarget(stage, resume, target)
    ensures FindProof([stage, resume], CGeminiStage, other) == if other == target then Some(stage) else None
    ensures FindProof([stage, resume], CGeminiResume, other) == if other == target then Some(resume) else None
  {
    assert [stage, resume][1..] == [resume] && [resume][1..] == [];
    assert FindProof([resume], CGeminiResume, other) == if other == target then Some(resume) else None;
    assert FindProof([stage, resume], CGeminiResume, other) == FindProof([resume], CGeminiResume, other);
    assert FindProof([resume], CGeminiStage, other) == None;
  }

  lemma SameFindsSameRelation(a: seq<PhaseZeroProof>, b: seq<PhaseZeroProof>, target: TargetId)
    requires FindProof(a, CGeminiStage, target) == FindProof(b, CGeminiStage, target)
    requires FindProof(a, CGeminiResume, target) == FindProof(b, CGeminiResume, target)
    ensures GeminiTargetRelated(a, target) <==> GeminiTargetRelated(b, target)
  {
    hide FindProof;
  }

  lemma NothingIsRelated(proofs: seq<PhaseZeroProof>, target: TargetId)
    ensures FindProof(proofs, CGeminiStage, target) == None ==> GeminiTargetRelated(proofs, target)
  {
    hide FindProof;
  }

  /** The proofs of a staging and of a successful resuming process in an accepted list: it
      stays accepted exactly when the process found the server where staging left it, under
      the pinned model and with status 200. */
  lemma EmittedProofsKeepAcceptance(proofs: seq<PhaseZeroProof>, lib: Library, target: TargetId, file: string,
                                    session: UploadSession, staged: u64, observed: u64, generation: Generation,
                                    model: string)
    requires GateVerdict(CANONICAL, proofs).Ok? && NoStray(proofs, target)
    requires IsLibrary(lib) && PlaintextAbsent(file)
    requires session.granularity != Some(0) && staged > 0 && generation.analysisNonempty
    ensures var outcome := ResumeOutcome(staged, Some(observed), Some(observed != staged), None);
            var stage := StageProof(lib, target, file, session, staged);
            var resume := ResumeProof(lib, target, file, outcome, generation, model);
            GateVerdict(CANONICAL, Exchange(proofs, stage, resume)).Ok? <==>
            observed == staged && model == PINNED_MODEL && generation.status == 200
  {
    var outcome := ResumeOutcome(staged, Some(observed), Some(observed != staged), None);
    var stage := StageProof(lib, target, file, session, staged);
    var resume := ResumeProof(lib, target, file, outcome, generation, model);
    hide GateVerdict, CANONICAL, Exchange, PassGate, IsLibrary, PlaintextAbsent, StageProof, ResumeProof;
    EmittedRecordsSay(lib, target, file, session, staged, observed, generation, model);
    EmittedProofsPassExactly(lib, target, file, session, staged, observed, generation, model);
    ExchangePassesExactly(proofs, stage, resume, target);
  }

  lemma RunHasMoments(lib: Library, target: TargetId, bytes: seq<byte>, model: string, file: string, staged: u64,
                      envs: seq<ResumeEnvironment>, moments: seq<Moment>,
                      results: seq<Option<Result<ResumeOutcome, ResumeOutcome>>>)
    requires Attempts(lib, target, bytes, model, file, staged, envs, moments, results)
    ensures |results| == |envs| && |moments| == |envs| + 1
  {
    hide Attempted;
  }

  lemma SuccessSays(lib: Library, target: TargetId, bytes: seq<byte>, model: string, file: string,
                    session: UploadSession, staged: u64, env: ResumeEnvironment, first: Moment, before: Moment,
                    after: Moment)
    requires IsStaged(lib, target, bytes, file, session, staged, first)
    requires SuccessIsWhole(lib, target, bytes, model, file, session, staged, env, before, after)
    ensures first.evidence.Some? && first.evidence.value.TypedProof?
    ensures after.evidence.Some? && after.evidence.value.TypedProof? && env.analysis.Some?
    ensures var stage, resume := first.evidence.value.proof, after.evidence.value.proof;
            && ForTarget(stage, resume, target) && stage.Valid() && resume.Valid()
            && (PassGate(stage, resume) <==>
                |before.at.server.received| == staged && model == PINNED_MODEL && env.analysis.value.status == 200)
  {
    hide PassGate, PlaintextAbsent;
  }

  /** Over whole runs: the proof that staging left and the one a successful process left, in an
      accepted list. */
  lemma RunKeepsAcceptance(proofs: seq<PhaseZeroProof>, lib: Library, target: TargetId, bytes: seq<byte>, model: string,
                           file: string, session: UploadSession, staged: u64, envs: seq<ResumeEnvironment>,
                           moments: seq<Moment>, results: seq<Option<Result<ResumeOutcome, ResumeOutcome>>>, i: nat)
    requires GateVerdict(CANONICAL, proofs).Ok? && NoStray(proofs, target)
    requires IsLibrary(lib) && Attempts(lib, target, bytes, model, file, staged, envs, moments, results)
    requires IsStaged(lib, target, bytes, file, session, staged, moments[0])
    requires i < |envs| && UploadContinue.Succeeded(results[i])
    ensures moments[i + 1].evidence.Some? && moments[i + 1].evidence.value.TypedProof? && envs[i].analysis.Some?
    ensures var b := Exchange(proofs, moments[0].evidence.value.proof, moments[i + 1].evidence.value.proof);
            GateVerdict(CANONICAL, b).Ok? <==>
            |moments[i].at.server.received| == staged && model == PINNED_MODEL && envs[i].analysis.value.status == 200
  {
    RunHasMoments(lib, target, bytes, model, file, staged, envs, moments, results);
    hide *;
    WholeRun(lib, target, bytes, model, file, session, staged, envs, moments, results);
    SuccessSays(lib, target, bytes, model, file, session, staged, envs[i], moments[0], moments[i], moments[i + 1]);
    ExchangePassesExactly(proofs, moments[0].evidence.value.proof, moments[i + 1].evidence.value.proof, target);
  }
}
