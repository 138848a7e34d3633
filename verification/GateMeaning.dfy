/** What acceptance means in terms of the matrix and the fields of the records alone: which
    measurements every row has, and that nothing else is asked. */
module GateMeaning {
  import opened Prelude
  import opened Proofs
  import opened MatrixKeys
  import opened Gate
  import opened GateTheorems
  import opened GateOrder

  // ---- good measurements ---------------------------------------------------------------------

  predicate IsDigest(text: string) { |text| == 64 && forall c :: c in text ==> c in "0123456789abcdefABCDEF" }

  predicate GoodPreview(x: ProofPayload) {
    && x.PreviewProof?
    && x.requestedDurationMs == 120_000 && x.measuredDurationMs >= 120_000
    && 23_000 <= x.milliFps <= 25_000 && x.p95Ms <= 100 && x.rssGrowthMib <= 64
    && x.framesRead > 0 && x.framesApplied > 0
    && (var sum := x.framesApplied + x.framesDropped;
        if sum <= U64_MAX then sum <= x.framesRead else sum - (U64_MAX + 1) <= x.framesRead)
    && x.hidden && x.restored && x.eventLoopErrors == 0 && x.streamErrors == 0 && |x.renderer| > 0
  }

  predicate GoodCpuEncode(x: ProofPayload) {
    && x.MediaCpuProof?
    && x.actualBackend == "cpu" && x.outputDurationSeconds >= 10
    && x.videoCodec == "vp9" && x.audioCodec == "opus" && x.progressComplete && IsDigest(x.outputSha256)
  }

  predicate GoodHardwareEncode(x: ProofPayload, backend: string) {
    && x.MediaHardwareProof?
    && x.requestedBackend == backend && x.actualBackend == backend
    && x.outputDurationSeconds >= 10 && IsDigest(x.outputSha256)
  }

  predicate GoodForcedFallback(x: ProofPayload, backend: string) {
    && x.MediaForcedFallbackProof?
    && x.requestedBackend == backend && x.cpuRestarts == 1 && x.sessionQuarantined
    && x.videoCodec == "vp9" && x.audioCodec == "opus" && IsDigest(x.outputSha256)
  }

  predicate GoodStage(x: ProofPayload) {
    && x.GeminiStageProof?
    && |x.checkpointId| > 0 && x.stagedOffset > 0 && x.serverOffset == x.stagedOffset && x.chunkGranularity > 0
    && x.retryPolicyObserved && x.encrypted && x.plaintextAbsent
  }

  predicate GoodResume(x: ProofPayload) {
    && x.GeminiResumeProof?
    && |x.checkpointId| > 0 && 0 < x.resumedOffset <= x.serverOffset && x.serverAuthoritative
    && x.remoteState == "ACTIVE" && x.analysisNonempty && x.model == "gemini-3.1-flash-lite" && x.httpStatus == 200
    && x.remoteDeleted && x.checkpointDeleted && x.retryPolicyObserved
  }

  predicate GoodKeyring(x: ProofPayload) {
    x.PlatformKeyringProof? && x.setOk && x.getOk && x.deleteOk && x.missingAfterDelete
  }

  predicate GoodTray(x: ProofPayload) { x.PlatformTrayProof? && x.hidden && x.restored && x.quit }

  predicate GoodNoTray(x: ProofPayload) { x.PlatformNoTrayProof? && x.accessible && x.warningShown && x.quit }

  predicate GoodProcess(x: ProofPayload) {
    x.PlatformProcessProof? && x.parentDead && x.grandchildDead && x.elapsedMs <= 5_000
  }

  predicate GoodCheckpoint(x: ProofPayload) { x.PlatformCheckpointProof? && x.encrypted && x.plaintextAbsent }

  predicate GoodBuild(x: ProofPayload) {
    && x.DistributionFfmpegProof?
    && x.immutableLock && x.sourceSignature && x.sbom && x.reproducible && x.lgplOnly && x.sourceCorrespondence
    && IsDigest(x.sourceLockSha256) && IsDigest(x.bundleTreeSha256)
  }

  /** Each format of the target once, in any order, and every file with content and a digest. */
  predicate Ships(target: TargetId, artifacts: seq<ArtifactDigest>) {
    HasFormats(target, artifacts)
    && forall artifact :: artifact in artifacts ==> artifact.length > 0 && IsDigest(artifact.sha256)
  }

  predicate HasFormats(target: TargetId, artifacts: seq<ArtifactDigest>) {
    if target == "macos-arm64-vt" then OneOfEach(artifacts, "app", "dmg")
    else if target == "linux-x64-vaapi-wayland" then OneOfEach(artifacts, "appimage", "deb")
    else target == "windows-x64-mf" && |artifacts| == 1 && artifacts[0].format == "wix"
  }

  predicate OneOfEach(artifacts: seq<ArtifactDigest>, one: string, other: string) {
    && |artifacts| == 2
    && ((artifacts[0].format == one && artifacts[1].format == other) ||
        (artifacts[0].format == other && artifacts[1].format == one))
  }

  predicate GoodPackage(x: ProofPayload, target: TargetId) {
    && x.DistributionPackageProof?
    && Ships(target, x.artifacts) && IsDigest(x.sourceLockSha256) && IsDigest(x.inspectionSha256)
    && (target == "macos-arm64-vt" ==>
          x.platformVerification == "codesign_notary_staple" && x.notarization == Some("accepted"))
    && (target == "windows-x64-mf" ==> x.platformVerification == "authenticode" && x.notarization == None)
    && (target == "linux-x64-vaapi-wayland" ==> x.platformVerification == "minisign" && x.notarization == None)
  }

  predicate GoodUpdate(x: ProofPayload, target: TargetId) {
    && x.DistributionUpdateProof?
    && Ships(target, x.artifacts) && IsDigest(x.manifestSha256)
    && (target == "macos-arm64-vt" ==> x.updaterFormat == "app")
    && (target == "windows-x64-mf" ==> x.updaterFormat == "wix")
    && (target == "linux-x64-vaapi-wayland" ==> x.updaterFormat == "appimage")
    && x.signatureVerification == "pinned_minisign" && x.tamperRejection == "updater_and_download"
  }

  // ---- what a row wants ------------------------------------------------------------------------

  /** The measurement is one of those the row is about. */
  predicate Belongs(row: RequiredEvidence, x: ProofPayload) {
    match row.id
    case Preview => GoodPreview(x)
    case Media =>
      if row.backend == Some("cpu-fallback") then GoodCpuEncode(x)
      else row.backend.Some? && (GoodHardwareEncode(x, row.backend.value) || GoodForcedFallback(x, row.backend.value))
    case Gemini => GoodStage(x) || GoodResume(x)
    case Platform => GoodKeyring(x) || GoodTray(x) || GoodNoTray(x) || GoodProcess(x) || GoodCheckpoint(x)
    case Distribution => GoodBuild(x) || GoodPackage(x, row.target) || GoodUpdate(x, row.target)
  }

  /** Some record for the row carries such a measurement. */
  ghost predicate Has(proofs: seq<PhaseZeroProof>, row: RequiredEvidence, good: ProofPayload -> bool) {
    exists p :: p in proofs && ClaimedRow(p) == row && good(p.proof)
  }

  /** Every measurement the row is about is there. */
  ghost predicate Measured(proofs: seq<PhaseZeroProof>, row: RequiredEvidence) {
    match row.id
    case Preview => Has(proofs, row, x => GoodPreview(x))
    case Media =>
      if row.backend == Some("cpu-fallback") then Has(proofs, row, x => GoodCpuEncode(x))
      else
        && row.backend.Some?
        && Has(proofs, row, x => GoodHardwareEncode(x, row.backend.GetOr("")))
        && Has(proofs, row, x => GoodForcedFallback(x, row.backend.GetOr("")))
    case Gemini => Has(proofs, row, x => GoodStage(x)) && Has(proofs, row, x => GoodResume(x))
    case Platform =>
      && Has(proofs, row, x => GoodKeyring(x)) && Has(proofs, row, x => GoodTray(x))
      && Has(proofs, row, x => GoodNoTray(x)) && Has(proofs, row, x => GoodProcess(x))
      && Has(proofs, row, x => GoodCheckpoint(x))
    case Distribution =>
      && Has(proofs, row, x => GoodBuild(x)) && Has(proofs, row, x => GoodPackage(x, row.target))
      && Has(proofs, row, x => GoodUpdate(x, row.target))
  }

  /** The record is for a row of the matrix, of the kind it says, and of use for the row. */
  ghost predicate InPlace(p: PhaseZeroProof) {
    && ClaimedRow(p) in CANONICAL && p.component == p.proof.Component() && Belongs(ClaimedRow(p), p.proof)
  }

  /** Staging and resuming records of a target speak about the same upload. */
  ghost predicate UploadsAgree(proofs: seq<PhaseZeroProof>) {
    forall s, r :: s in proofs && r in proofs && s.row.target == r.row.target
                   && s.proof.GeminiStageProof? && r.proof.GeminiResumeProof? ==>
      && s.proof.checkpointId == r.proof.checkpointId
      && s.proof.stagedOffset <= r.proof.resumedOffset <= r.proof.serverOffset && r.proof.serverAuthoritative
  }

  /** Build, package and update records of a target speak about the same sources and files. */
  ghost predicate ReleasesAgree(proofs: seq<PhaseZeroProof>) {
    forall f, p, u :: f in proofs && p in proofs && u in proofs
                      && f.row.target == p.row.target && p.row.target == u.row.target
                      && f.proof.DistributionFfmpegProof? && p.proof.DistributionPackageProof?
                      && u.proof.DistributionUpdateProof? ==>
      && f.proof.sourceLockSha256 == p.proof.sourceLockSha256
      && p.proof.artifacts == u.proof.artifacts && IsDigest(u.proof.manifestSha256)
  }

  // ---- the two descriptions agree ------------------------------------------------------------

  lemma DigestIsDigest(text: string)
    ensures IsDigest(text) <==> IsSha256(text)
  {
    assert forall c :: c in "0123456789abcdefABCDEF" <==> IsHexDigit(c);
    hide IsHexDigit;
    if IsSha256(text) {
      forall c | c in text ensures c in "0123456789abcdefABCDEF" {
        var i :| 0 <= i < |text| && text[i] == c;
        assert IsHexDigit(text[i]);
      }
    }
    if IsDigest(text) {
      forall i | 0 <= i < |text| ensures IsHexDigit(text[i]) {
        assert text[i] in text;
      }
    }
  }

  lemma ShipsIsFormats(target: TargetId, artifacts: seq<ArtifactDigest>)
    ensures Ships(target, artifacts) <==> FormatsMatch(target, artifacts)
  {
    FormatsAreFormats(target, artifacts);
    IntactIsIntact(artifacts);
    hide HasFormats, ExpectedFormats, IsDigest, IsSha256;
  }

  lemma IntactIsIntact(artifacts: seq<ArtifactDigest>)
    ensures (forall artifact :: artifact in artifacts ==> artifact.length > 0 && IsDigest(artifact.sha256)) <==>
            forall i :: 0 <= i < |artifacts| ==> artifacts[i].length > 0 && IsSha256(artifacts[i].sha256)
  {
    forall text: string ensures IsDigest(text) <==> IsSha256(text) {
      DigestIsDigest(text);
    }
    hide IsDigest, IsSha256;
    assert forall i :: 0 <= i < |artifacts| ==> artifacts[i] in artifacts;
  }

  function Formats(artifacts: seq<ArtifactDigest>): seq<string> {
    seq(|artifacts|, i requires 0 <= i < |artifacts| => artifacts[i].format)
  }

  lemma FormatsAreFormats(target: TargetId, artifacts: seq<ArtifactDigest>)
    ensures HasFormats(target, artifacts) <==>
            ExpectedFormats(target).Some? && multiset(Formats(artifacts)) == multiset(ExpectedFormats(target).value)
  {
    TwoFormats(Formats(artifacts), "app", "dmg");
    TwoFormats(Formats(artifacts), "appimage", "deb");
    OneFormat(Formats(artifacts), "wix");
    IsOneOfEach(artifacts, "app", "dmg");
    IsOneOfEach(artifacts, "appimage", "deb");
    IsOne(artifacts, "wix");
    hide Formats, OneOfEach;
    assert "windows-x64-mf"[0] == 'w' && "macos-arm64-vt"[0] == 'm' && "linux-x64-vaapi-wayland"[0] == 'l';
  }

  lemma IsOneOfEach(artifacts: seq<ArtifactDigest>, one: string, other: string)
    ensures OneOfEach(artifacts, one, other) <==>
            Formats(artifacts) == [one, other] || Formats(artifacts) == [other, one]
  {
    if |artifacts| == 2 {
      assert Formats(artifacts) == [artifacts[0].format, artifacts[1].format];
    }
    assert |Formats(artifacts)| == |artifacts|;
  }

  lemma IsOne(artifacts: seq<ArtifactDigest>, one: string)
    ensures |artifacts| == 1 && artifacts[0].format == one <==> Formats(artifacts) == [one]
  {
    if |artifacts| == 1 {
      assert Formats(artifacts) == [artifacts[0].format];
    }
    assert |Formats(artifacts)| == |artifacts|;
  }

  lemma TwoFormats(formats: seq<string>, one: string, other: string)
    ensures multiset(formats) == multiset([one, other]) <==>
            |formats| == 2 && (formats == [one, other] || formats == [other, one])
  {
    if multiset(formats) == multiset([one, other]) {
      assert |formats| == |multiset(formats)| == |multiset([one, other])| == 2;
      assert formats == [formats[0], formats[1]];
      assert multiset(formats) == multiset{formats[0], formats[1]};
      assert formats[0] in multiset([one, other]) && formats[1] in multiset([one, other]);
      assert one in multiset(formats) && other in multiset(formats);
    }
  }

  lemma OneFormat(formats: seq<string>, one: string)
    ensures multiset(formats) == multiset([one]) <==> formats == [one]
  {
    if multiset(formats) == multiset([one]) {
      assert |formats| == |multiset(formats)| == 1;
      assert formats == [formats[0]];
      assert formats[0] in multiset([one]);
    }
  }

  /** For a row of the matrix: a record of a kind the gate asks for and finds valid is one that
      belongs to the row. */
  lemma ValidIsBelonging(row: RequiredEvidence, p: PhaseZeroProof)
    ensures Asked(row, p) <==> FitsRow(row, p)
  {
    hide Belongs, ValidTypedProof, CANONICAL, RequiredComponents;
    match row.id
    case Preview => ForPreview(row, p);
    case Media => ForMedia(row, p);
    case Gemini => ForGemini(row, p);
    case Platform => ForPlatform(row, p);
    case Distribution => ForDistribution(row, p);
  }

  /** The record is of a kind the gate asks for and finds valid. */
  predicate Asked(row: RequiredEvidence, p: PhaseZeroProof) {
    ValidTypedProof(row, p) && p.component in RequiredComponents(row)
  }

  predicate FitsRow(row: RequiredEvidence, p: PhaseZeroProof) {
    p.component == p.proof.Component() && Belongs(row, p.proof)
  }

  lemma ForPreview(row: RequiredEvidence, p: PhaseZeroProof)
    requires row.id == Preview
    ensures Asked(row, p) <==> FitsRow(row, p)
  {
    hide IsSha256, FormatsMatch, PackagePlatformVerified, ExpectedUpdaterFormat;
  }

  lemma ForMedia(row: RequiredEvidence, p: PhaseZeroProof)
    requires row.id == Media
    ensures Asked(row, p) <==> FitsRow(row, p)
  {
    forall text: string ensures IsDigest(text) <==> IsSha256(text) {
      DigestIsDigest(text);
    }
    hide IsDigest, IsSha256, FormatsMatch, PackagePlatformVerified, ExpectedUpdaterFormat;
  }

  lemma ForGemini(row: RequiredEvidence, p: PhaseZeroProof)
    requires row.id == Gemini
    ensures Asked(row, p) <==> FitsRow(row, p)
  {
    hide IsSha256, FormatsMatch, PackagePlatformVerified, ExpectedUpdaterFormat;
  }

  lemma ForPlatform(row: RequiredEvidence, p: PhaseZeroProof)
    requires row.id == Platform
    ensures Asked(row, p) <==> FitsRow(row, p)
  {
    hide IsSha256, FormatsMatch, PackagePlatformVerified, ExpectedUpdaterFormat;
  }

  lemma ForDistribution(row: RequiredEvidence, p: PhaseZeroProof)
    requires row.id == Distribution
    ensures Asked(row, p) <==> FitsRow(row, p)
  {
    hide Asked, FitsRow;
    match p.proof
    case DistributionFfmpegProof(_, _, _, _, _, _, _, _) => ForBuild(row, p);
    case DistributionPackageProof(_, _, _, _, _) => ForPackage(row, p);
    case DistributionUpdateProof(_, _, _, _, _) => ForUpdate(row, p);
    case _ => ForNoDistribution(row, p);
  }

  lemma ForBuild(row: RequiredEvidence, p: PhaseZeroProof)
    requires row.id == Distribution && p.proof.DistributionFfmpegProof?
    ensures Asked(row, p) <==> FitsRow(row, p)
  {
    DigestIsDigest(p.proof.sourceLockSha256);
    DigestIsDigest(p.proof.bundleTreeSha256);
    hide IsDigest, IsSha256;
  }

  lemma ForPackage(row: RequiredEvidence, p: PhaseZeroProof)
    requires row.id == Distribution && p.proof.DistributionPackageProof?
    ensures Asked(row, p) <==> FitsRow(row, p)
  {
    DigestIsDigest(p.proof.sourceLockSha256);
    DigestIsDigest(p.proof.inspectionSha256);
    ShipsIsFormats(row.target, p.proof.artifacts);
    ShipsToReleaseTarget(row.target, p.proof.artifacts);
    hide IsDigest, IsSha256, FormatsMatch, Ships;
  }

  lemma ForUpdate(row: RequiredEvidence, p: PhaseZeroProof)
    requires row.id == Distribution && p.proof.DistributionUpdateProof?
    ensures Asked(row, p) <==> FitsRow(row, p)
  {
    DigestIsDigest(p.proof.manifestSha256);
    ShipsIsFormats(row.target, p.proof.artifacts);
    ShipsToReleaseTarget(row.target, p.proof.artifacts);
    hide IsDigest, IsSha256, FormatsMatch, Ships;
  }

  lemma ForNoDistribution(row: RequiredEvidence, p: PhaseZeroProof)
    requires row.id == Distribution
    requires !p.proof.DistributionFfmpegProof? && !p.proof.DistributionPackageProof?
    requires !p.proof.DistributionUpdateProof?
    ensures !Asked(row, p) && !FitsRow(row, p)
  {
    hide IsSha256, FormatsMatch;
  }

  predicate ReleaseTarget(target: TargetId) {
    target == "macos-arm64-vt" || target == "windows-x64-mf" || target == "linux-x64-vaapi-wayland"
  }

  lemma ShipsToReleaseTarget(target: TargetId, artifacts: seq<ArtifactDigest>)
    ensures Ships(target, artifacts) ==>
              && ReleaseTarget(target)
              && (target == "macos-arm64-vt" ==> target != "windows-x64-mf" && target != "linux-x64-vaapi-wayland")
              && (target == "windows-x64-mf" ==> target != "linux-x64-vaapi-wayland")
  {
    assert "windows-x64-mf"[0] == 'w' && "macos-arm64-vt"[0] == 'm' && "linux-x64-vaapi-wayland"[0] == 'l';
    hide OneOfEach, IsDigest;
  }

  // ---- complete and in place -------------------------------------------------------------------

  lemma HasFrom(proofs: seq<PhaseZeroProof>, row: RequiredEvidence, good: ProofPayload -> bool, p: PhaseZeroProof)
    requires p in proofs && ClaimedRow(p) == row && good(p.proof)
    ensures Has(proofs, row, good)
  {
  }

  /** A slot the gate wants is filled by a record that was found valid for its row. */
  lemma ValidForSlot(proofs: seq<PhaseZeroProof>, row: RequiredEvidence, component: ProofComponent)
    returns (p: PhaseZeroProof)
    requires Accepted(CANONICAL, proofs) && row in CANONICAL && component in RequiredComponents(row)
    ensures p in proofs && ClaimedRow(p) == row && p.component == component && FitsRow(row, p)
  {
    hide ValidTypedProof, CANONICAL, AllRelated, DistinctSlots, Slots, Belongs, RequiredComponents;
    SlotsBelongToRows(CANONICAL, (row, component));
    assert Filled((row, component), proofs);
    var i :| 0 <= i < |proofs| && SlotOf(proofs[i]) == (row, component);
    p := proofs[i];
    assert Admissible(CANONICAL, proofs[i]);
    ValidIsBelonging(row, p);
  }

  /** Acceptance means that every row has every measurement it is about. */
  lemma AcceptedIsComplete(proofs: seq<PhaseZeroProof>, row: RequiredEvidence)
    requires GateVerdict(CANONICAL, proofs).Ok? && row in CANONICAL
    ensures Measured(proofs, row)
  {
    VerdictIsAcceptance(proofs);
    MediaHasBackend(row);
    hide GateVerdict, Accepted, CANONICAL, FitsRow, Has;
    match row.id
    case Preview => PreviewIsComplete(proofs, row);
    case Media => MediaIsComplete(proofs, row);
    case Gemini => GeminiIsComplete(proofs, row);
    case Platform => PlatformIsComplete(proofs, row);
    case Distribution => DistributionIsComplete(proofs, row);
  }

  lemma MediaHasBackend(row: RequiredEvidence)
    requires row in CANONICAL
    ensures row.id == Media ==> row.backend.Some?
  {
    var i :| 0 <= i < |CANONICAL| && CANONICAL[i] == row;
    BackendAt(i);
  }

  lemma BackendAt(i: nat)
    requires i < |CANONICAL|
    ensures CANONICAL[i].id == Media ==> CANONICAL[i].backend.Some?
  {
  }

  lemma PreviewIsComplete(proofs: seq<PhaseZeroProof>, row: RequiredEvidence)
    requires Accepted(CANONICAL, proofs) && row in CANONICAL && row.id == Preview
    ensures Measured(proofs, row)
  {
    hide Accepted, CANONICAL, Has, GoodPreview;
    var p := ValidForSlot(proofs, row, CPreview);
    HasFrom(proofs, row, x => GoodPreview(x), p);
  }

  lemma MediaIsComplete(proofs: seq<PhaseZeroProof>, row: RequiredEvidence)
    requires Accepted(CANONICAL, proofs) && row in CANONICAL && row.id == Media && row.backend.Some?
    ensures Measured(proofs, row)
  {
    hide Accepted, CANONICAL, Has, GoodCpuEncode, IsDigest;
    if row.backend == Some("cpu-fallback") {
      var p := ValidForSlot(proofs, row, CMediaCpu);
      HasFrom(proofs, row, x => GoodCpuEncode(x), p);
    } else {
      var p := ValidForSlot(proofs, row, CMediaHardware);
      HasFrom(proofs, row, x => GoodHardwareEncode(x, row.backend.GetOr("")), p);
      var q := ValidForSlot(proofs, row, CMediaForcedFallback);
      HasFrom(proofs, row, x => GoodForcedFallback(x, row.backend.GetOr("")), q);
    }
  }

  lemma GeminiIsComplete(proofs: seq<PhaseZeroProof>, row: RequiredEvidence)
    requires Accepted(CANONICAL, proofs) && row in CANONICAL && row.id == Gemini
    ensures Measured(proofs, row)
  {
    hide Accepted, CANONICAL, Has;
    var s := ValidForSlot(proofs, row, CGeminiStage);
    HasFrom(proofs, row, x => GoodStage(x), s);
    var r := ValidForSlot(proofs, row, CGeminiResume);
    HasFrom(proofs, row, x => GoodResume(x), r);
  }

  lemma PlatformIsComplete(proofs: seq<PhaseZeroProof>, row: RequiredEvidence)
    requires Accepted(CANONICAL, proofs) && row in CANONICAL && row.id == Platform
    ensures Measured(proofs, row)
  {
    hide Accepted, CANONICAL, Has;
    var a := ValidForSlot(proofs, row, CPlatformKeyring);
    HasFrom(proofs, row, x => GoodKeyring(x), a);
    var b := ValidForSlot(proofs, row, CPlatformTray);
    HasFrom(proofs, row, x => GoodTray(x), b);
    var c := ValidForSlot(proofs, row, CPlatformNoTray);
    HasFrom(proofs, row, x => GoodNoTray(x), c);
    var d := ValidForSlot(proofs, row, CPlatformProcess);
    HasFrom(proofs, row, x => GoodProcess(x), d);
    var e := ValidForSlot(proofs, row, CPlatformCheckpoint);
    HasFrom(proofs, row, x => GoodCheckpoint(x), e);
  }

  lemma DistributionIsComplete(proofs: seq<PhaseZeroProof>, row: RequiredEvidence)
    requires Accepted(CANONICAL, proofs) && row in CANONICAL && row.id == Distribution
    ensures Measured(proofs, row)
  {
    hide Accepted, CANONICAL, Has, IsDigest, Ships;
    var f := ValidForSlot(proofs, row, CDistributionFfmpeg);
    HasFrom(proofs, row, x => GoodBuild(x), f);
    var p := ValidForSlot(proofs, row, CDistributionPackage);
    HasFrom(proofs, row, x => GoodPackage(x, row.target), p);
    var u := ValidForSlot(proofs, row, CDistributionUpdate);
    HasFrom(proofs, row, x => GoodUpdate(x, row.target), u);
  }

  /** Records in place fill the slot their measurement is for. */
  lemma FilledBy(proofs: seq<PhaseZeroProof>, row: RequiredEvidence, good: ProofPayload -> bool,
                 component: ProofComponent)
    requires forall p :: p in proofs ==> InPlace(p)
    requires Has(proofs, row, good)
    requires forall x :: good(x) ==> x.Component() == component
    ensures Filled((row, component), proofs)
  {
    hide Belongs, CANONICAL;
    var p :| p in proofs && ClaimedRow(p) == row && good(p.proof);
    var i :| 0 <= i < |proofs| && proofs[i] == p;
    assert SlotOf(proofs[i]) == (row, component);
  }

  lemma CompleteIsFilled(proofs: seq<PhaseZeroProof>, row: RequiredEvidence, component: ProofComponent)
    requires forall p :: p in proofs ==> InPlace(p)
    requires Measured(proofs, row) && component in RequiredComponents(row)
    ensures Filled((row, component), proofs)
  {
    hide InPlace, Has, Filled, IsDigest, Ships;
    match component
    case CPreview => FilledBy(proofs, row, x => GoodPreview(x), component);
    case CMediaCpu => FilledBy(proofs, row, x => GoodCpuEncode(x), component);
    case CMediaHardware => FilledBy(proofs, row, x => GoodHardwareEncode(x, row.backend.GetOr("")), component);
    case CMediaForcedFallback => FilledBy(proofs, row, x => GoodForcedFallback(x, row.backend.GetOr("")), component);
    case CGeminiStage => FilledBy(proofs, row, x => GoodStage(x), component);
    case CGeminiResume => FilledBy(proofs, row, x => GoodResume(x), component);
    case CPlatformKeyring => FilledBy(proofs, row, x => GoodKeyring(x), component);
    case CPlatformTray => FilledBy(proofs, row, x => GoodTray(x), component);
    case CPlatformNoTray => FilledBy(proofs, row, x => GoodNoTray(x), component);
    case CPlatformProcess => FilledBy(proofs, row, x => GoodProcess(x), component);
    case CPlatformCheckpoint => FilledBy(proofs, row, x => GoodCheckpoint(x), component);
    case CDistributionFfmpeg => FilledBy(proofs, row, x => GoodBuild(x), component);
    case CDistributionPackage => FilledBy(proofs, row, x => GoodPackage(x, row.target), component);
    case CDistributionUpdate => FilledBy(proofs, row, x => GoodUpdate(x, row.target), component);
  }

  /** The kind of a record in place tells the kind of its row. */
  lemma KindOfRow(p: PhaseZeroProof)
    requires InPlace(p)
    ensures p.proof.GeminiStageProof? || p.proof.GeminiResumeProof? ==> p.row.spike == Gemini
    ensures p.proof.DistributionFfmpegProof? ==> p.row.spike == Distribution
    ensures p.proof.DistributionPackageProof? ==> p.row.spike == Distribution
    ensures p.proof.DistributionUpdateProof? ==> p.row.spike == Distribution
    ensures p.component == CGeminiStage <==> p.proof.GeminiStageProof?
    ensures p.component == CGeminiResume <==> p.proof.GeminiResumeProof?
    ensures p.component == CDistributionFfmpeg <==> p.proof.DistributionFfmpegProof?
    ensures p.component == CDistributionPackage <==> p.proof.DistributionPackageProof?
    ensures p.component == CDistributionUpdate <==> p.proof.DistributionUpdateProof?
  {
    hide CANONICAL, IsDigest, Ships;
  }

  /** For records in place, agreement is what the gate asks of every choice of records. */
  lemma AgreementIsRelation(proofs: seq<PhaseZeroProof>)
    requires forall p :: p in proofs ==> InPlace(p)
    ensures UploadsAgree(proofs) && ReleasesAgree(proofs) <==>
            forall k :: 0 <= k < |CANONICAL| ==> AllChoicesRelated(proofs, CANONICAL[k])
  {
    forall p | p in proofs
      ensures && (p.component == CGeminiStage <==> p.proof.GeminiStageProof?)
              && (p.component == CGeminiResume <==> p.proof.GeminiResumeProof?)
    {
      KindOfRow(p);
    }
    if forall k :: 0 <= k < |CANONICAL| ==> AllChoicesRelated(proofs, CANONICAL[k]) {
      RelatedUploads(proofs);
      RelatedReleases(proofs);
    }
    if UploadsAgree(proofs) && ReleasesAgree(proofs) {
      forall k | 0 <= k < |CANONICAL| ensures AllChoicesRelated(proofs, CANONICAL[k]) {
        AgreeingRow(proofs, CANONICAL[k]);
      }
    }
    hide *;
  }

  lemma RelatedUploads(proofs: seq<PhaseZeroProof>)
    requires forall p :: p in proofs ==> InPlace(p)
    requires forall k :: 0 <= k < |CANONICAL| ==> AllChoicesRelated(proofs, CANONICAL[k])
    ensures UploadsAgree(proofs)
  {
    hide AllChoicesRelated, CANONICAL, Belongs;
    forall s, r | s in proofs && r in proofs && s.row.target == r.row.target
                  && s.proof.GeminiStageProof? && r.proof.GeminiResumeProof?
      ensures && s.proof.checkpointId == r.proof.checkpointId
              && s.proof.stagedOffset <= r.proof.resumedOffset <= r.proof.serverOffset && r.proof.serverAuthoritative
    {
      KindOfRow(s);
      KindOfRow(r);
      var k :| 0 <= k < |CANONICAL| && CANONICAL[k] == ClaimedRow(s);
      RelatedPair(proofs, CANONICAL[k], s, r);
    }
  }

  lemma RelatedPair(proofs: seq<PhaseZeroProof>, row: RequiredEvidence, s: PhaseZeroProof, r: PhaseZeroProof)
    requires row.id == Gemini && AllChoicesRelated(proofs, row) && IsPair(proofs, row.target, s, r)
    requires s.proof.GeminiStageProof? && r.proof.GeminiResumeProof?
    ensures GeminiPairRelated(s.proof, r.proof)
  {
    hide IsPair;
  }

  lemma RelatedReleases(proofs: seq<PhaseZeroProof>)
    requires forall p :: p in proofs ==> InPlace(p)
    requires forall k :: 0 <= k < |CANONICAL| ==> AllChoicesRelated(proofs, CANONICAL[k])
    ensures ReleasesAgree(proofs)
  {
    hide AllChoicesRelated, CANONICAL, InPlace, IsDigest;
    forall f, p, u | f in proofs && p in proofs && u in proofs
                     && f.row.target == p.row.target && p.row.target == u.row.target
                     && f.proof.DistributionFfmpegProof? && p.proof.DistributionPackageProof?
                     && u.proof.DistributionUpdateProof?
      ensures && f.proof.sourceLockSha256 == p.proof.sourceLockSha256
              && p.proof.artifacts == u.proof.artifacts && IsDigest(u.proof.manifestSha256)
    {
      OneRelease(proofs, f, p, u);
    }
  }

  lemma OneRelease(proofs: seq<PhaseZeroProof>, f: PhaseZeroProof, p: PhaseZeroProof, u: PhaseZeroProof)
    requires f in proofs && p in proofs && u in proofs && f.row.target == p.row.target && p.row.target == u.row.target
    requires InPlace(f) && InPlace(p) && InPlace(u)
    requires f.proof.DistributionFfmpegProof? && p.proof.DistributionPackageProof? && u.proof.DistributionUpdateProof?
    requires forall k :: 0 <= k < |CANONICAL| ==> AllChoicesRelated(proofs, CANONICAL[k])
    ensures f.proof.sourceLockSha256 == p.proof.sourceLockSha256 && p.proof.artifacts == u.proof.artifacts
    ensures IsDigest(u.proof.manifestSha256)
  {
    KindOfRow(f);
    KindOfRow(p);
    KindOfRow(u);
    DigestIsDigest(u.proof.manifestSha256);
    hide AllChoicesRelated, CANONICAL, Belongs, IsDigest, IsSha256;
    var k :| 0 <= k < |CANONICAL| && CANONICAL[k] == ClaimedRow(f);
    RelatedTriple(proofs, CANONICAL[k], f, p, u);
  }

  lemma RelatedTriple(proofs: seq<PhaseZeroProof>, row: RequiredEvidence, f: PhaseZeroProof, p: PhaseZeroProof,
                      u: PhaseZeroProof)
    requires row.id == Distribution && AllChoicesRelated(proofs, row) && IsTriple(proofs, row.target, f, p, u)
    ensures TripleOk(f, p, u)
  {
    hide IsTriple, TripleOk;
  }

  lemma AgreeingRow(proofs: seq<PhaseZeroProof>, row: RequiredEvidence)
    requires forall p :: p in proofs ==> InPlace(p)
    requires UploadsAgree(proofs) && ReleasesAgree(proofs)
    ensures AllChoicesRelated(proofs, row)
  {
    hide InPlace, IsDigest, IsSha256;
    forall s, r | IsPair(proofs, row.target, s, r) ensures PairOk(s, r) {
      KindOfRow(s);
      KindOfRow(r);
    }
    forall f, p, u | IsTriple(proofs, row.target, f, p, u) ensures TripleOk(f, p, u) {
      KindOfRow(f);
      KindOfRow(p);
      KindOfRow(u);
      if u.proof.DistributionUpdateProof? {
        DigestIsDigest(u.proof.manifestSha256);
      }
    }
  }

  /** A list of records that are all in place is accepted exactly when no two are for the same
      row and of the same kind, every row is complete, and what belongs together agrees. */
  lemma AcceptedExactly(proofs: seq<PhaseZeroProof>)
    requires forall p :: p in proofs ==> InPlace(p)
    ensures GateVerdict(CANONICAL, proofs).Ok? <==>
            && (forall i, j :: 0 <= i < j < |proofs| ==>
                  proofs[i].row != proofs[j].row || proofs[i].component != proofs[j].component)
            && (forall row :: row in CANONICAL ==> Measured(proofs, row))
            && UploadsAgree(proofs) && ReleasesAgree(proofs)
  {
    AllInPlace(proofs);
    DistinctIsApart(proofs);
    AgreementIsRelation(proofs);
    RelatableIsAccepted(proofs);
    hide Measured, InPlace, OnTheirRows, UploadsAgree, ReleasesAgree, AllChoicesRelated, CANONICAL, DistinctSlots,
         GateVerdict, Filled, RequiredComponents, Slots;
    if GateVerdict(CANONICAL, proofs).Ok? {
      forall row | row in CANONICAL ensures Measured(proofs, row) {
        AcceptedIsComplete(proofs, row);
      }
    }
    if forall row :: row in CANONICAL ==> Measured(proofs, row) {
      forall slot | slot in Slots(CANONICAL) ensures Filled(slot, proofs) {
        SlotsBelongToRows(CANONICAL, slot);
        CompleteIsFilled(proofs, slot.0, slot.1);
      }
    }
  }

  lemma AllInPlace(proofs: seq<PhaseZeroProof>)
    requires forall p :: p in proofs ==> InPlace(p)
    ensures OnTheirRows(proofs) && forall i :: 0 <= i < |proofs| ==> Admissible(CANONICAL, proofs[i])
  {
    hide ValidTypedProof, Belongs, RequiredComponents, CANONICAL;
    forall i | 0 <= i < |proofs|
      ensures proofs[i].component in RequiredComponents(ClaimedRow(proofs[i])) && Admissible(CANONICAL, proofs[i])
    {
      assert InPlace(proofs[i]);
      ValidIsBelonging(ClaimedRow(proofs[i]), proofs[i]);
    }
  }

  lemma DistinctIsApart(proofs: seq<PhaseZeroProof>)
    ensures DistinctSlots(proofs) <==>
            forall i, j :: 0 <= i < j < |proofs| ==>
              proofs[i].row != proofs[j].row || proofs[i].component != proofs[j].component
  {
    assert forall i :: 0 <= i < |proofs| ==> SlotList(proofs)[i] == SlotOf(proofs[i]);
    hide SlotList;
  }

  /** On their own rows, a list is accepted exactly when it covers the matrix and every choice
      of records is related. */
  lemma RelatableIsAccepted(proofs: seq<PhaseZeroProof>)
    requires OnTheirRows(proofs) && forall i :: 0 <= i < |proofs| ==> Admissible(CANONICAL, proofs[i])
    ensures GateVerdict(CANONICAL, proofs).Ok? <==>
            && DistinctSlots(proofs) && (forall slot | slot in Slots(CANONICAL) :: Filled(slot, proofs))
            && forall k :: 0 <= k < |CANONICAL| ==> AllChoicesRelated(proofs, CANONICAL[k])
  {
    hide OnTheirRows, Admissible, GateVerdict, DistinctSlots, AllChoicesRelated, Slots, Filled, CANONICAL;
    EveryOrderIsAccepted(proofs);
    forall b | multiset(b) == multiset(proofs) ensures Accepts(b) <==> Accepts(proofs) {
      VerdictIgnoresOrder(proofs, b);
    }
    assert Accepts(proofs) <==> AllRelatable(proofs) by {
      if AllRelatable(proofs) {
        assert Accepts(proofs);
      }
    }
  }
}
