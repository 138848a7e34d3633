/** The tagged records the Phase 0 gate consumes
    (crates/spike-contracts/src/proof.rs and evidence.rs). */
module Proofs {
  import opened Prelude

  datatype SpikeId = Preview | Media | Gemini | Platform | Distribution

  const SUPPORTED_TARGETS: seq<string> := [
    "macos-arm64-vt", "windows-x64-mf", "windows-x64-nvidia",
    "linux-x64-vaapi-wayland", "linux-x64-vaapi-x11", "linux-x64-nvidia"]

  /** `TargetId::new` admits only these six names. */
  type TargetId = s: string | s in SUPPORTED_TARGETS witness "macos-arm64-vt"

  datatype ProofRow = ProofRow(spike: SpikeId, target: TargetId, session: Option<string>, backend: Option<string>)

  datatype ProofComponent =
    | CPreview
    | CMediaCpu
    | CMediaHardware
    | CMediaForcedFallback
    | CGeminiStage
    | CGeminiResume
    | CPlatformKeyring
    | CPlatformTray
    | CPlatformNoTray
    | CPlatformProcess
    | CPlatformCheckpoint
    | CDistributionFfmpeg
    | CDistributionPackage
    | CDistributionUpdate
  {
    function AsStr(): string {
      match this
      case CPreview => "preview"
      case CMediaCpu => "media_cpu"
      case CMediaHardware => "media_hardware"
      case CMediaForcedFallback => "media_forced_fallback"
      case CGeminiStage => "gemini_stage"
      case CGeminiResume => "gemini_resume"
      case CPlatformKeyring => "platform_keyring"
      case CPlatformTray => "platform_tray"
      case CPlatformNoTray => "platform_no_tray"
      case CPlatformProcess => "platform_process"
      case CPlatformCheckpoint => "platform_checkpoint"
      case CDistributionFfmpeg => "distribution_ffmpeg"
      case CDistributionPackage => "distribution_package"
      case CDistributionUpdate => "distribution_update"
    }
  }

  datatype ArtifactDigest = ArtifactDigest(format: string, sha256: string, length: u64)

  datatype ProofPayload =
    | PreviewProof(
        requestedDurationMs: u64, measuredDurationMs: u64, milliFps: u64, p95Ms: u64, rssGrowthMib: u64,
        framesRead: u64, framesApplied: u64, framesDropped: u64, hidden: bool, restored: bool,
        eventLoopErrors: u64, streamErrors: u64, renderer: string)
    | MediaCpuProof(
        actualBackend: string, outputDurationSeconds: u64, videoCodec: string, audioCodec: string,
        progressComplete: bool, outputSha256: string)
    | MediaHardwareProof(
        requestedBackend: string, actualBackend: string, outputDurationSeconds: u64, outputSha256: string)
    | MediaForcedFallbackProof(
        requestedBackend: string, cpuRestarts: nat, sessionQuarantined: bool, videoCodec: string,
        audioCodec: string, outputSha256: string)
    | GeminiStageProof(
        checkpointId: string, stagedOffset: u64, serverOffset: u64, retryPolicyObserved: bool,
        chunkGranularity: u64, encrypted: bool, plaintextAbsent: bool)
    | GeminiResumeProof(
        checkpointId: string, resumedOffset: u64, serverOffset: u64, serverAuthoritative: bool,
        remoteState: string, analysisNonempty: bool, model: string, httpStatus: nat,
        remoteDeleted: bool, checkpointDeleted: bool, retryPolicyObserved: bool)
    | PlatformKeyringProof(setOk: bool, getOk: bool, deleteOk: bool, missingAfterDelete: bool)
    | PlatformTrayProof(hidden: bool, restored: bool, quit: bool)
    | PlatformNoTrayProof(accessible: bool, warningShown: bool, quit: bool)
    | PlatformProcessProof(parentDead: bool, grandchildDead: bool, elapsedMs: u64)
    | PlatformCheckpointProof(encrypted: bool, plaintextAbsent: bool)
    | DistributionFfmpegProof(
        immutableLock: bool, sourceSignature: bool, sbom: bool, reproducible: bool, lgplOnly: bool,
        sourceCorrespondence: bool, sourceLockSha256: string, bundleTreeSha256: string)
    | DistributionPackageProof(
        artifacts: seq<ArtifactDigest>, sourceLockSha256: string, inspectionSha256: string,
        platformVerification: string, notarization: Option<string>)
    | DistributionUpdateProof(
        manifestSha256: string, artifacts: seq<ArtifactDigest>, updaterFormat: string,
        signatureVerification: string, tamperRejection: string)
  {
    /** The component whose records carry this payload. */
    function Component(): ProofComponent {
      match this
      case PreviewProof(_, _, _, _, _, _, _, _, _, _, _, _, _) => CPreview
      case MediaCpuProof(_, _, _, _, _, _) => CMediaCpu
      case MediaHardwareProof(_, _, _, _) => CMediaHardware
      case MediaForcedFallbackProof(_, _, _, _, _, _) => CMediaForcedFallback
      case GeminiStageProof(_, _, _, _, _, _, _) => CGeminiStage
      case GeminiResumeProof(_, _, _, _, _, _, _, _, _, _, _) => CGeminiResume
      case PlatformKeyringProof(_, _, _, _) => CPlatformKeyring
      case PlatformTrayProof(_, _, _) => CPlatformTray
      case PlatformNoTrayProof(_, _, _) => CPlatformNoTray
      case PlatformProcessProof(_, _, _) => CPlatformProcess
      case PlatformCheckpointProof(_, _) => CPlatformCheckpoint
      case DistributionFfmpegProof(_, _, _, _, _, _, _, _) => CDistributionFfmpeg
      case DistributionPackageProof(_, _, _, _, _) => CDistributionPackage
      case DistributionUpdateProof(_, _, _, _, _) => CDistributionUpdate
    }
  }

  datatype PhaseZeroProof = PhaseZeroProof(schemaVersion: nat, component: ProofComponent, row: ProofRow,
                                           proof: ProofPayload) {
    /** `PhaseZeroProof::validate`: the admission check before serialization. */
    predicate Valid() {
      schemaVersion == 2 && component == proof.Component()
    }
  }
}
