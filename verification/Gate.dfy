/** The acceptance gate over typed proofs (crates/spike-contracts/src/matrix.rs). */
module Gate {
  import opened Prelude
  import opened Proofs
  import opened MatrixKeys

  datatype GateError =
    | UnmatchedEvidence
    | DuplicateProofComponent
    | TypedProof(component: ProofComponent)
    | MissingEvidence(key: string)
    | DistributionRelationships
    | GeminiRelationship

  // ---- one record ---------------------------------------------------------------

  predicate IsHexDigit(c: char) { '0' <= c <= '9' || 'a' <= c <= 'f' || 'A' <= c <= 'F' }

  predicate IsSha256(text: string) {
    |text| == 64 && forall i :: 0 <= i < |text| ==> IsHexDigit(text[i])
  }

  function ExpectedFormats(target: TargetId): Option<seq<string>> {
    if target == "macos-arm64-vt" then Some(["app", "dmg"])
    else if target == "windows-x64-mf" then Some(["wix"])
    else if target == "linux-x64-vaapi-wayland" then Some(["appimage", "deb"])
    else None
  }

  function ExpectedUpdaterFormat(target: TargetId): Option<string> {
    if target == "macos-arm64-vt" then Some("app")
    else if target == "windows-x64-mf" then Some("wix")
    else if target == "linux-x64-vaapi-wayland" then Some("appimage")
    else None
  }

  /** Comparing two sorted copies is comparing the multisets. */
  predicate ExactArtifactFormats(artifacts: seq<ArtifactDigest>, expected: seq<string>) {
    && multiset(seq(|artifacts|, i requires 0 <= i < |artifacts| => artifacts[i].format)) == multiset(expected)
    && forall i :: 0 <= i < |artifacts| ==> artifacts[i].length > 0 && IsSha256(artifacts[i].sha256)
  }

  predicate PackagePlatformVerified(target: TargetId, verification: string, notarization: Option<string>) {
    if target == "macos-arm64-vt" then verification == "codesign_notary_staple" && notarization == Some("accepted")
    else if target == "windows-x64-mf" then verification == "authenticode" && notarization == None
    else if target == "linux-x64-vaapi-wayland" then verification == "minisign" && notarization == None
    else false
  }

  predicate FormatsMatch(target: TargetId, artifacts: seq<ArtifactDigest>) {
    ExpectedFormats(target).Some? && ExactArtifactFormats(artifacts, ExpectedFormats(target).value)
  }

  /** `validate_typed_proof`: the payload must fit the component and its thresholds.
      The sum of frame counts is a `u64` sum, which wraps around in a release build. */
  predicate ValidTypedProof(required: RequiredEvidence, proof: PhaseZeroProof) {
    match proof.proof
    case PreviewProof(requested, measured, fps, p95, rss, read, applied, dropped, hidden, restored, loopErrors,
                      streamErrors, renderer) =>
      && proof.component == CPreview
      && requested == 120_000 && measured >= 120_000 && 23_000 <= fps <= 25_000 && p95 <= 100 && rss <= 64
      && read > 0 && applied > 0 && (applied + dropped) % (U64_MAX + 1) <= read
      && hidden && restored && loopErrors == 0 && streamErrors == 0 && renderer != ""
    case MediaCpuProof(actual, seconds, video, audio, complete, sha) =>
      && proof.component == CMediaCpu
      && actual == "cpu" && seconds >= 10 && video == "vp9" && audio == "opus" && complete && IsSha256(sha)
    case MediaHardwareProof(requested, actual, seconds, sha) =>
      && proof.component == CMediaHardware
      && required.backend == Some(requested) && actual == requested && seconds >= 10 && IsSha256(sha)
    case MediaForcedFallbackProof(requested, restarts, quarantined, video, audio, sha) =>
      && proof.component == CMediaForcedFallback
      && required.backend == Some(requested) && restarts == 1 && quarantined
      && video == "vp9" && audio == "opus" && IsSha256(sha)
    case GeminiStageProof(id, staged, server, retried, granularity, encrypted, absent) =>
      && proof.component == CGeminiStage
      && id != "" && staged > 0 && server == staged && retried && granularity > 0 && encrypted && absent
    case GeminiResumeProof(id, resumed, server, authoritative, state, nonempty, model, status, remote, checkpoint,
                           retried) =>
      && proof.component == CGeminiResume
      && id != "" && resumed > 0 && server >= resumed && authoritative && state == "ACTIVE" && nonempty
      && model == "gemini-3.1-flash-lite" && status == 200 && remote && checkpoint && retried
    case PlatformKeyringProof(stored, get, delete, missing) =>
      proof.component == CPlatformKeyring && stored && get && delete && missing
    case PlatformTrayProof(hidden, restored, quit) =>
      proof.component == CPlatformTray && hidden && restored && quit
    case PlatformNoTrayProof(accessible, warning, quit) =>
      proof.component == CPlatformNoTray && accessible && warning && quit
    case PlatformProcessProof(parent, grandchild, elapsed) =>
      proof.component == CPlatformProcess && parent && grandchild && elapsed <= 5_000
    case PlatformCheckpointProof(encrypted, absent) =>
      proof.component == CPlatformCheckpoint && encrypted && absent
    case DistributionFfmpegProof(lock, signature, sbom, reproducible, lgpl, correspondence, source, bundle) =>
      && proof.component == CDistributionFfmpeg
      && lock && signature && sbom && reproducible && lgpl && correspondence && IsSha256(source) && IsSha256(bundle)
    case DistributionPackageProof(artifacts, source, inspection, verification, notarization) =>
      && proof.component == CDistributionPackage
      && FormatsMatch(required.target, artifacts) && IsSha256(source) && IsSha256(inspection)
      && PackagePlatformVerified(required.target, verification, notarization)
    case DistributionUpdateProof(manifest, artifacts, updater, verification, tamper) =>
      && proof.component == CDistributionUpdate
      && FormatsMatch(required.target, artifacts) && IsSha256(manifest)
      && ExpectedUpdaterFormat(required.target) == Some(updater)
      && verification == "pinned_minisign" && tamper == "updater_and_download"
  }

  // ---- relationships between records ---------------------------------------------

  /** `proofs.iter().find(..)`: the first proof with this component and target. */
  function FindProof(proofs: seq<PhaseZeroProof>, component: ProofComponent, target: TargetId): Option<PhaseZeroProof>
    decreases |proofs|
  {
    if proofs == [] then None
    else if proofs[0].component == component && proofs[0].row.target == target then Some(proofs[0])
    else FindProof(proofs[1..], component, target)
  }

  predicate GeminiPairRelated(stage: ProofPayload, resume: ProofPayload)
    requires stage.GeminiStageProof? && resume.GeminiResumeProof?
  {
    && stage.checkpointId == resume.checkpointId
    && stage.stagedOffset <= resume.resumedOffset
    && resume.resumedOffset <= resume.serverOffset
    && resume.serverAuthoritative
  }

  predicate GeminiTargetRelated(proofs: seq<PhaseZeroProof>, target: TargetId) {
    var stage := FindProof(proofs, CGeminiStage, target);
    var resume := FindProof(proofs, CGeminiResume, target);
    stage.Some? && stage.value.proof.GeminiStageProof? && resume.Some? && resume.value.proof.GeminiResumeProof? ==>
      GeminiPairRelated(stage.value.proof, resume.value.proof)
  }

  predicate DistributionTargetRelated(proofs: seq<PhaseZeroProof>, target: TargetId) {
    var ffmpeg := FindProof(proofs, CDistributionFfmpeg, target);
    var package := FindProof(proofs, CDistributionPackage, target);
    var update := FindProof(proofs, CDistributionUpdate, target);
    && ffmpeg.Some? && ffmpeg.value.proof.DistributionFfmpegProof?
    && package.Some? && package.value.proof.DistributionPackageProof?
    && update.Some? && update.value.proof.DistributionUpdateProof?
    ==>
      && ffmpeg.value.proof.sourceLockSha256 == package.value.proof.sourceLockSha256
      && package.value.proof.artifacts == update.value.proof.artifacts
      && IsSha256(update.value.proof.manifestSha256)
  }

  predicate Related(id: SpikeId, proofs: seq<PhaseZeroProof>, target: TargetId) {
    match id
    case Gemini => GeminiTargetRelated(proofs, target)
    case Distribution => DistributionTargetRelated(proofs, target)
    case _ => true
  }

  /** `validate_gemini_relationships` and `validate_distribution_relationships`. */
  method ValidateRelationships(id: SpikeId, proofs: seq<PhaseZeroProof>, required: seq<RequiredEvidence>)
    returns (ok: bool)
    ensures ok <==> AllRelated(id, proofs, required)
  {
    hide Related;
    for i := 0 to |required|
      invariant forall k :: 0 <= k < i ==> required[k].id == id ==> Related(id, proofs, required[k].target)
    {
      if required[i].id == id && !Related(id, proofs, required[i].target) {
        return false;
      }
    }
    return true;
  }

  predicate AllRelated(id: SpikeId, proofs: seq<PhaseZeroProof>, rows: seq<RequiredEvidence>) {
    forall k :: 0 <= k < |rows| ==> rows[k].id == id ==> Related(id, proofs, rows[k].target)
  }

  // ---- the whole list --------------------------------------------------------------

  function RequiredComponents(row: RequiredEvidence): seq<ProofComponent> {
    match row.id
    case Preview => [CPreview]
    case Media =>
      if row.backend == Some("cpu-fallback") then [CMediaCpu] else [CMediaHardware, CMediaForcedFallback]
    case Gemini => [CGeminiStage, CGeminiResume]
    case Platform => [CPlatformKeyring, CPlatformTray, CPlatformNoTray, CPlatformProcess, CPlatformCheckpoint]
    case Distribution => [CDistributionFfmpeg, CDistributionPackage, CDistributionUpdate]
  }

  /** The row a proof claims, as a matrix entry. */
  function ClaimedRow(proof: PhaseZeroProof): RequiredEvidence {
    RequiredEvidence(proof.row.spike, proof.row.target, proof.row.session, proof.row.backend)
  }

  function SlotKey(row: RequiredEvidence, component: ProofComponent): string {
    RequiredKey(row) + ("|" + component.AsStr())
  }

  /** The loop over proofs: the first fault in input order, and the keys seen. */
  function ScanProofs(rows: seq<RequiredEvidence>, proofs: seq<PhaseZeroProof>,
                      seen: set<string>): Result<set<string>, GateError>
    decreases |proofs|
  {
    if proofs == [] then Ok(seen)
    else
      var proof := proofs[0];
      var row := ClaimedRow(proof);
      if row !in rows then Err(UnmatchedEvidence)
      else if SlotKey(row, proof.component) in seen then Err(DuplicateProofComponent)
      else if !ValidTypedProof(row, proof) then Err(TypedProof(proof.component))
      else ScanProofs(rows, proofs[1..], seen + {SlotKey(row, proof.component)})
  }

  /** Every required slot, in matrix order. */
  function Slots(rows: seq<RequiredEvidence>): seq<(RequiredEvidence, ProofComponent)> {
    if rows == [] then [] else RowSlots(rows[0], RequiredComponents(rows[0])) + Slots(rows[1..])
  }

  function RowSlots(row: RequiredEvidence, components: seq<ProofComponent>): seq<(RequiredEvidence, ProofComponent)> {
    seq(|components|, i requires 0 <= i < |components| => (row, components[i]))
  }

  function FirstMissing(slots: seq<(RequiredEvidence, ProofComponent)>, seen: set<string>): Option<string>
    decreases |slots|
  {
    if slots == [] then None
    else if SlotKey(slots[0].0, slots[0].1) !in seen then Some(SlotKey(slots[0].0, slots[0].1))
    else FirstMissing(slots[1..], seen)
  }

  function GateVerdict(rows: seq<RequiredEvidence>, proofs: seq<PhaseZeroProof>): Result<(), GateError> {
    match ScanProofs(rows, proofs, {})
    case Err(e) => Err(e)
    case Ok(seen) =>
      match FirstMissing(Slots(rows), seen)
      case Some(key) => Err(MissingEvidence(key))
      case None =>
        if !AllRelated(Distribution, proofs, rows) then Err(DistributionRelationships)
        else if !AllRelated(Gemini, proofs, rows) then Err(GeminiRelationship)
        else Ok(())
  }

  /** `evaluate_proofs`. */
  method EvaluateProofs(required: seq<RequiredEvidence>, proofs: seq<PhaseZeroProof>) returns (r: Result<(), GateError>)
    ensures r == GateVerdict(required, proofs)
  {
    hide ValidTypedProof, SlotKey, AllRelated;
    var seen: set<string> := {};
    for i := 0 to |proofs|
      invariant ScanProofs(required, proofs, {}) == ScanProofs(required, proofs[i..], seen)
    {
      var proof := proofs[i];
      assert proofs[i..][1..] == proofs[i + 1..];
      var row := FindRow(required, proof);
      if row.None? {
        return Err(UnmatchedEvidence);
      }
      var key := SlotKey(row.value, proof.component);
      if key in seen {
        return Err(DuplicateProofComponent);
      }
      seen := seen + {key};
      if !ValidTypedProof(row.value, proof) {
        return Err(TypedProof(proof.component));
      }
    }
    var missing := FindMissing(required, seen);
    if missing.Some? {
      return Err(MissingEvidence(missing.value));
    }
    var distribution := ValidateRelationships(Distribution, proofs, required);
    if !distribution {
      return Err(DistributionRelationships);
    }
    var gemini := ValidateRelationships(Gemini, proofs, required);
    if !gemini {
      return Err(GeminiRelationship);
    }
    return Ok(());
  }

  method FindRow(required: seq<RequiredEvidence>, proof: PhaseZeroProof) returns (r: Option<RequiredEvidence>)
    ensures r == if ClaimedRow(proof) in required then Some(ClaimedRow(proof)) else None
  {
    for i := 0 to |required|
      invariant ClaimedRow(proof) !in required[..i]
    {
      var row := required[i];
      if row.id == proof.row.spike && row.target == proof.row.target && row.session == proof.row.session
        && row.backend == proof.row.backend {
        return Some(row);
      }
    }
    return None;
  }

  /** The two nested loops that look for a required slot nobody filled. */
  method FindMissing(required: seq<RequiredEvidence>, seen: set<string>) returns (r: Option<string>)
    ensures r == FirstMissing(Slots(required), seen)
  {
    hide SlotKey, RequiredComponents;
    for i := 0 to |required|
      invariant FirstMissing(Slots(required), seen) == FirstMissing(Slots(required[i..]), seen)
    {
      var row := required[i];
      var components := RequiredComponents(row);
      ghost var rest := Slots(required[i + 1..]);
      assert required[i..][1..] == required[i + 1..];
      assert RowSlots(row, components[0..]) == RowSlots(row, components);
      for j := 0 to |components|
        invariant FirstMissing(Slots(required), seen) == FirstMissing(RowSlots(row, components[j..]) + rest, seen)
      {
        var slots := RowSlots(row, components[j..]) + rest;
        assert slots[0] == (row, components[j]);
        assert slots[1..] == RowSlots(row, components[j + 1..]) + rest;
        if SlotKey(row, components[j]) !in seen {
          return Some(SlotKey(row, components[j]));
        }
      }
      assert RowSlots(row, components[|components|..]) + rest == rest;
    }
    return None;
  }
}
