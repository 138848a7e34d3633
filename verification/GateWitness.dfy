/** The gate can be passed, and without the row restriction its verdict depends on
    the order of the records. */
module GateWitness {
  import opened Prelude
  import opened Proofs
  import opened MatrixKeys
  import opened Gate
  import opened GateTheorems
  import opened GateOrder

  function Zeros(n: nat): (r: string)
    ensures |r| == n && forall i :: 0 <= i < n ==> r[i] == '0'
  {
    if n == 0 then "" else Zeros(n - 1) + "0"
  }

  const ZERO_DIGEST: string := Zeros(64)

  function Digests(formats: seq<string>): seq<ArtifactDigest> {
    seq(|formats|, i requires 0 <= i < |formats| => ArtifactDigest(formats[i], ZERO_DIGEST, 1))
  }

  function Artifacts(target: TargetId): seq<ArtifactDigest> {
    Digests(ExpectedFormats(target).GetOr([]))
  }

  function GoodPayload(row: RequiredEvidence, component: ProofComponent): ProofPayload {
    match component
    case CPreview => PreviewProof(120_000, 120_000, 24_000, 100, 64, 2880, 2880, 0, true, true, 0, 0, "winit-femtovg")
    case CMediaCpu => MediaCpuProof("cpu", 10, "vp9", "opus", true, ZERO_DIGEST)
    case CMediaHardware => MediaHardwareProof(row.backend.GetOr(""), row.backend.GetOr(""), 10, ZERO_DIGEST)
    case CMediaForcedFallback => MediaForcedFallbackProof(row.backend.GetOr(""), 1, true, "vp9", "opus", ZERO_DIGEST)
    case CGeminiStage => GeminiStageProof("id", 1, 1, true, 1, true, true)
    case CGeminiResume =>
      GeminiResumeProof("id", 1, 1, true, "ACTIVE", true, "gemini-3.1-flash-lite", 200, true, true, true)
    case CPlatformKeyring => PlatformKeyringProof(true, true, true, true)
    case CPlatformTray => PlatformTrayProof(true, true, true)
    case CPlatformNoTray => PlatformNoTrayProof(true, true, true)
    case CPlatformProcess => PlatformProcessProof(true, true, 0)
    case CPlatformCheckpoint => PlatformCheckpointProof(true, true)
    case CDistributionFfmpeg => DistributionFfmpegProof(true, true, true, true, true, true, ZERO_DIGEST, ZERO_DIGEST)
    case CDistributionPackage =>
      if row.target == "macos-arm64-vt" then
        DistributionPackageProof(Artifacts(row.target), ZERO_DIGEST, ZERO_DIGEST, "codesign_notary_staple",
                                 Some("accepted"))
      else
        DistributionPackageProof(Artifacts(row.target), ZERO_DIGEST, ZERO_DIGEST,
          if row.target == "windows-x64-mf" then "authenticode" else "minisign", None)
    case CDistributionUpdate =>
      DistributionUpdateProof(ZERO_DIGEST, Artifacts(row.target), ExpectedUpdaterFormat(row.target).GetOr(""),
        "pinned_minisign", "updater_and_download")
  }

  function GoodProof(slot: Slot): PhaseZeroProof {
    PhaseZeroProof(2, slot.1, ProofRow(slot.0.id, slot.0.target, slot.0.session, slot.0.backend),
                   GoodPayload(slot.0, slot.1))
  }

  function ProofsFor(slots: seq<Slot>): seq<PhaseZeroProof> {
    seq(|slots|, i requires 0 <= i < |slots| => GoodProof(slots[i]))
  }

  function GoodProofs(): seq<PhaseZeroProof> {
    ProofsFor(Slots(CANONICAL))
  }

  /** A valid stage record, filed under a preview row of the same target. */
  const STRAY := PhaseZeroProof(2, CGeminiStage, ProofRow(Preview, "macos-arm64-vt", Some("aqua"), None),
                                GeminiStageProof("other", 1, 1, true, 1, true, true))

  // ---- each record is valid ------------------------------------------------------

  ghost predicate Shaped(row: RequiredEvidence) {
    && (row.id.Media? ==> row.backend.Some?)
    && (row.id.Distribution? ==> ExpectedFormats(row.target).Some?)
  }

  lemma CanonicalShapes(row: RequiredEvidence)
    requires row in CANONICAL
    ensures Shaped(row)
  {
    var i :| 0 <= i < |CANONICAL| && CANONICAL[i] == row;
    hide Shaped;
    if i < 6 { ShapedMacos(i); }
    else if i < 12 { ShapedWindows(i - 6); }
    else if i < 17 { ShapedWindowsNvidia(i - 12); }
    else if i < 23 { ShapedWayland(i - 17); }
    else if i < 28 { ShapedX11(i - 23); }
    else { ShapedLinuxNvidia(i - 28); }
  }

  lemma ShapedMacos(i: nat)
    requires i < |MACOS_VT|
    ensures Shaped(MACOS_VT[i])
  {
  }

  lemma ShapedWindows(i: nat)
    requires i < |WINDOWS_MF|
    ensures Shaped(WINDOWS_MF[i])
  {
  }

  lemma ShapedWindowsNvidia(i: nat)
    requires i < |WINDOWS_NVIDIA|
    ensures Shaped(WINDOWS_NVIDIA[i])
  {
  }

  lemma ShapedWayland(i: nat)
    requires i < |LINUX_WAYLAND|
    ensures Shaped(LINUX_WAYLAND[i])
  {
  }

  lemma ShapedX11(i: nat)
    requires i < |LINUX_X11|
    ensures Shaped(LINUX_X11[i])
  {
  }

  lemma ShapedLinuxNvidia(i: nat)
    requires i < |LINUX_NVIDIA|
    ensures Shaped(LINUX_NVIDIA[i])
  {
  }

  lemma GoodFormats(target: TargetId)
    requires ExpectedFormats(target).Some?
    ensures FormatsMatch(target, Artifacts(target))
    ensures ExpectedUpdaterFormat(target).Some?
    ensures target == "macos-arm64-vt" || target == "windows-x64-mf" || target == "linux-x64-vaapi-wayland"
    ensures target == "linux-x64-vaapi-wayland" ==> target != "macos-arm64-vt" && target != "windows-x64-mf"
    ensures target == "windows-x64-mf" ==> target != "macos-arm64-vt"
  {
    var formats, artifacts := ExpectedFormats(target).value, Artifacts(target);
    assert seq(|artifacts|, i requires 0 <= i < |artifacts| => artifacts[i].format) == formats;
    ZeroDigest();
    assert target == "windows-x64-mf" ==> target[0] == 'w';
  }

  lemma GoodProofIsValid(slot: Slot)
    requires slot.1 in RequiredComponents(slot.0) && Shaped(slot.0)
    ensures ValidTypedProof(slot.0, GoodProof(slot))
  {
    hide Zeros, FormatsMatch, Artifacts, IsSha256, ExpectedFormats, ExpectedUpdaterFormat;
    ZeroDigest();
    if slot.0.id.Distribution? {
      WitnessPackage(slot.0);
      WitnessUpdate(slot.0);
    }
  }

  lemma WitnessPackage(row: RequiredEvidence)
    requires ExpectedFormats(row.target).Some?
    ensures ValidTypedProof(row, GoodProof((row, CDistributionPackage)))
  {
    GoodFormats(row.target);
    ZeroDigest();
    WitnessPlatform(row);
    hide Zeros, FormatsMatch, Artifacts, IsSha256, ExpectedFormats, ExpectedUpdaterFormat, PackagePlatformVerified;
    PackagePayload(row);
    hide GoodPayload, ZERO_DIGEST;
  }

  lemma PackagePayload(row: RequiredEvidence)
    ensures var package := GoodPayload(row, CDistributionPackage);
            && package.DistributionPackageProof? && package.artifacts == Artifacts(row.target)
            && package.sourceLockSha256 == ZERO_DIGEST && package.inspectionSha256 == ZERO_DIGEST
  {
    hide Artifacts, ZERO_DIGEST;
  }

  lemma WitnessUpdate(row: RequiredEvidence)
    requires ExpectedFormats(row.target).Some?
    ensures ValidTypedProof(row, GoodProof((row, CDistributionUpdate)))
  {
    GoodFormats(row.target);
    ZeroDigest();
    hide Zeros, FormatsMatch, Artifacts, IsSha256, ExpectedFormats, ExpectedUpdaterFormat, PackagePlatformVerified;
  }

  lemma WitnessPlatform(row: RequiredEvidence)
    requires ExpectedFormats(row.target).Some?
    ensures var package := GoodPayload(row, CDistributionPackage);
            PackagePlatformVerified(row.target, package.platformVerification, package.notarization)
  {
    GoodFormats(row.target);
    hide Zeros, FormatsMatch, Artifacts, IsSha256, ExpectedFormats, ExpectedUpdaterFormat;
  }

  lemma GoodProofsMembers(p: PhaseZeroProof)
    requires p in GoodProofs()
    ensures SlotOf(p).0 in CANONICAL && SlotOf(p).1 in RequiredComponents(SlotOf(p).0)
    ensures p.proof == GoodPayload(SlotOf(p).0, p.component)
  {
    hide GoodPayload, RequiredComponents;
    var i :| 0 <= i < |GoodProofs()| && GoodProofs()[i] == p;
    SlotsBelongToRows(CANONICAL, Slots(CANONICAL)[i]);
  }

  lemma GoodProofFor(slot: Slot)
    requires slot.0 in CANONICAL && slot.1 in RequiredComponents(slot.0)
    ensures GoodProof(slot) in GoodProofs()
  {
    hide GoodPayload, RequiredComponents;
    SlotsBelongToRows(CANONICAL, slot);
    var i :| 0 <= i < |Slots(CANONICAL)| && Slots(CANONICAL)[i] == slot;
    assert GoodProofs()[i] == GoodProof(slot);
  }

  lemma GoodProofsCover()
    ensures forall i :: 0 <= i < |GoodProofs()| ==> Admissible(CANONICAL, GoodProofs()[i])
    ensures DistinctSlots(GoodProofs())
    ensures forall slot | slot in Slots(CANONICAL) :: Filled(slot, GoodProofs())
    ensures OnTheirRows(GoodProofs())
  {
    hide GoodPayload, RequiredComponents, ValidTypedProof;
    var slots, proofs := Slots(CANONICAL), GoodProofs();
    forall i | 0 <= i < |proofs|
      ensures Admissible(CANONICAL, proofs[i]) && proofs[i].component in RequiredComponents(ClaimedRow(proofs[i]))
    {
      SlotsBelongToRows(CANONICAL, slots[i]);
      CanonicalShapes(slots[i].0);
      GoodProofIsValid(slots[i]);
    }
    forall i, j | 0 <= i < j < |CANONICAL| ensures CANONICAL[i] != CANONICAL[j] {
      CanonicalRowsDiffer(i, j);
    }
    SlotsAreDistinct(CANONICAL);
    forall i, j | 0 <= i < j < |proofs| ensures SlotOf(proofs[i]) != SlotOf(proofs[j]) {
      assert SlotOf(proofs[i]) == slots[i] && SlotOf(proofs[j]) == slots[j];
    }
    forall slot | slot in slots ensures Filled(slot, proofs) {
      var i :| 0 <= i < |slots| && slots[i] == slot;
      assert SlotOf(proofs[i]) == slot;
    }
  }

  /** Whatever is found among good records, possibly with the stray one behind them. */
  lemma FoundIsGood(component: ProofComponent, target: TargetId, extra: seq<PhaseZeroProof>)
    requires extra == [] || extra == [STRAY]
    requires extra == [STRAY] && component == CGeminiStage ==>
               exists p :: p in GoodProofs() && p.component == component && p.row.target == target
    ensures match FindProof(GoodProofs() + extra, component, target)
            case Some(p) =>
              && p.row.target == target && p.component == component
              && p.proof == GoodPayload(ClaimedRow(p), component)
            case None => true
  {
    hide GoodPayload, GoodProofs;
    var all := GoodProofs() + extra;
    FindsWhatIsThere(all, component, target);
    FindInFirstPart(GoodProofs(), extra, component, target);
    FindsWhatIsThere(GoodProofs(), component, target);
    if FindProof(all, component, target).Some? {
      var p := FindProof(all, component, target).value;
      if p in GoodProofs() {
        GoodProofsMembers(p);
      }
    }
  }

  lemma {:induction false} FindInFirstPart(a: seq<PhaseZeroProof>, b: seq<PhaseZeroProof>, component: ProofComponent,
                                           target: TargetId)
    ensures FindProof(a, component, target).Some? ==>
            FindProof(a + b, component, target) == FindProof(a, component, target)
    decreases |a|
  {
    if a != [] {
      assert (a + b)[0] == a[0] && (a + b)[1..] == a[1..] + b;
      FindInFirstPart(a[1..], b, component, target);
    }
  }

  lemma GoodAreRelated(extra: seq<PhaseZeroProof>)
    requires extra == [] || extra == [STRAY]
    ensures AllRelated(Gemini, GoodProofs() + extra, CANONICAL)
    ensures AllRelated(Distribution, GoodProofs() + extra, CANONICAL)
  {
    hide GoodProofs, GeminiTargetRelated, DistributionTargetRelated, CANONICAL;
    var all := GoodProofs() + extra;
    forall k | 0 <= k < |CANONICAL| && CANONICAL[k].id == Gemini ensures GeminiTargetRelated(all, CANONICAL[k].target) {
      GoodGemini(CANONICAL[k], extra);
    }
    forall k | 0 <= k < |CANONICAL| ensures DistributionTargetRelated(all, CANONICAL[k].target) {
      GoodDistribution(CANONICAL[k].target, extra);
    }
  }

  lemma GoodGemini(row: RequiredEvidence, extra: seq<PhaseZeroProof>)
    requires row in CANONICAL && row.id == Gemini
    requires extra == [] || extra == [STRAY]
    ensures GeminiTargetRelated(GoodProofs() + extra, row.target)
  {
    GoodProofFor((row, CGeminiStage));
    hide GoodProofs, FindProof;
    FoundIsGood(CGeminiStage, row.target, extra);
    FoundIsGood(CGeminiResume, row.target, extra);
  }

  lemma GoodDistribution(target: TargetId, extra: seq<PhaseZeroProof>)
    requires extra == [] || extra == [STRAY]
    ensures DistributionTargetRelated(GoodProofs() + extra, target)
  {
    hide GoodProofs, FindProof, Artifacts, IsSha256;
    FoundIsGood(CDistributionFfmpeg, target, extra);
    FoundIsGood(CDistributionPackage, target, extra);
    FoundIsGood(CDistributionUpdate, target, extra);
    ZeroDigest();
  }

  lemma ZeroDigest()
    ensures IsSha256(ZERO_DIGEST)
  {
  }

  /** The gate is not empty: some list of 75 records passes it. */
  lemma AcceptanceIsAttainable()
    ensures GateVerdict(CANONICAL, GoodProofs()).Ok? && |GoodProofs()| == 75
  {
    hide GateVerdict, GoodPayload, AllRelated, RequiredComponents, ValidTypedProof, SlotCount;
    GoodProofsCover();
    GoodAreRelated([]);
    assert GoodProofs() + [] == GoodProofs();
    VerdictIsAcceptance(GoodProofs());
    AcceptanceCounts(GoodProofs());
  }

  lemma StrayIsAdmissible()
    ensures ClaimedRow(STRAY) == CANONICAL[0] && ValidTypedProof(CANONICAL[0], STRAY)
    ensures STRAY.component !in RequiredComponents(ClaimedRow(STRAY))
  {
  }

  /** Without the row restriction neither the count nor the independence of order
      holds: one stray record more is accepted at the end and refused in front. */
  lemma StrayRecordMakesOrderMatter()
    ensures var a, b := GoodProofs() + [STRAY], [STRAY] + GoodProofs();
            && multiset(a) == multiset(b) && |a| == 76
            && GateVerdict(CANONICAL, a).Ok? && GateVerdict(CANONICAL, b).Err?
  {
    hide GateVerdict, GoodPayload, GoodProofs, AllRelated, RequiredComponents, ValidTypedProof, SlotCount;
    var good := GoodProofs();
    var a, b := good + [STRAY], [STRAY] + good;
    AcceptanceIsAttainable();
    StrayIsAdmissible();
    GoodProofsCover();
    GoodAreRelated([STRAY]);
    StrayCovers(good);
    VerdictIsAcceptance(a);
    VerdictIsAcceptance(b);
    StrayInFrontIsUnrelated();
    assert multiset(a) == multiset(good) + multiset{STRAY} == multiset(b);
  }

  lemma StrayCovers(good: seq<PhaseZeroProof>)
    requires forall i :: 0 <= i < |good| ==> Admissible(CANONICAL, good[i])
    requires DistinctSlots(good) && OnTheirRows(good)
    requires forall slot | slot in Slots(CANONICAL) :: Filled(slot, good)
    ensures forall i :: 0 <= i < |good + [STRAY]| ==> Admissible(CANONICAL, (good + [STRAY])[i])
    ensures DistinctSlots(good + [STRAY])
    ensures forall slot | slot in Slots(CANONICAL) :: Filled(slot, good + [STRAY])
  {
    StrayIsAdmissible();
    hide RequiredComponents, ValidTypedProof;
    var all := good + [STRAY];
    forall i | 0 <= i < |good| ensures SlotOf(good[i]) != SlotOf(STRAY) {
      assert good[i].component in RequiredComponents(ClaimedRow(good[i]));
    }
    SnocSlots(good, STRAY);
    hide DistinctSlots;
    forall slot | slot in Slots(CANONICAL) ensures Filled(slot, all) {
      var i :| 0 <= i < |good| && SlotOf(good[i]) == slot;
      assert all[i] == good[i];
    }
  }

  lemma SnocSlots(proofs: seq<PhaseZeroProof>, last: PhaseZeroProof)
    requires DistinctSlots(proofs) && forall i :: 0 <= i < |proofs| ==> SlotOf(proofs[i]) != SlotOf(last)
    ensures DistinctSlots(proofs + [last])
  {
    hide SlotOf;
    assert SlotList(proofs + [last]) == SlotList(proofs) + [SlotOf(last)];
    assert forall i :: 0 <= i < |proofs| ==> SlotList(proofs)[i] == SlotOf(proofs[i]);
  }

  lemma StrayInFrontIsUnrelated()
    ensures !AllRelated(Gemini, [STRAY] + GoodProofs(), CANONICAL)
  {
    hide GoodProofs;
    var b := [STRAY] + GoodProofs();
    var row := CANONICAL[4];
    assert row.id == Gemini && row.target == "macos-arm64-vt";
    GoodProofFor((row, CGeminiResume));
    assert FindProof(b, CGeminiStage, row.target) == Some(STRAY);
    FindsWhatIsThere(b, CGeminiResume, row.target);
    var resume := FindProof(b, CGeminiResume, row.target);
    assert GoodProof((row, CGeminiResume)) in b;
    GoodProofsMembers(resume.value);
    assert resume.value.proof.checkpointId == "id" && "id" != "other";
    assert !GeminiTargetRelated(b, row.target);
    assert !Related(Gemini, b, CANONICAL[4].target);
  }

  // ---- the wrapped frame count ---------------------------------------------------------------

  /** A preview record that claims more frames applied and dropped than were read. */
  const WRAPPED := PhaseZeroProof(2, CPreview, ProofRow(Preview, "macos-arm64-vt", Some("aqua"), None),
                                  PreviewProof(120_000, 120_000, 24_000, 100, 64, 1, 1, U64_MAX, true, true, 0, 0,
                                               "winit-femtovg"))

  lemma WrappedIsValid()
    ensures SlotOf(WRAPPED) == Slots(CANONICAL)[0] && Admissible(CANONICAL, WRAPPED)
    ensures WRAPPED.proof.framesApplied + WRAPPED.proof.framesDropped > WRAPPED.proof.framesRead
  {
    assert CANONICAL[0] == ClaimedRow(WRAPPED);
  }

  /** Such a record can be part of a list that passes the gate. */
  lemma WrappedCountPasses() returns (proofs: seq<PhaseZeroProof>)
    ensures GateVerdict(CANONICAL, proofs).Ok? && |proofs| == 75 && WRAPPED in proofs
    ensures WRAPPED.proof.framesApplied + WRAPPED.proof.framesDropped > WRAPPED.proof.framesRead
  {
    hide GateVerdict, GoodPayload, AllRelated, RequiredComponents, ValidTypedProof, SlotCount;
    var good := GoodProofs();
    WrappedIsValid();
    AcceptanceIsAttainable();
    proofs := [WRAPPED] + good[1..];
    GoodProofsCover();
    assert SlotOf(good[0]) == Slots(CANONICAL)[0];
    HeadMayChange(good, WRAPPED);
    GoodAreRelated([]);
    assert good + [] == good;
    VerdictIsAcceptance(proofs);
  }

  /** The first record may be changed for another in the same slot, if that is no slot the
      relations look at. */
  lemma HeadMayChange(proofs: seq<PhaseZeroProof>, head: PhaseZeroProof)
    requires proofs != [] && SlotOf(head) == SlotOf(proofs[0]) && head.component == CPreview
    ensures SlotList([head] + proofs[1..]) == SlotList(proofs)
    ensures forall slot :: Filled(slot, proofs) ==> Filled(slot, [head] + proofs[1..])
    ensures forall id, rows :: AllRelated(id, proofs, rows) ==> AllRelated(id, [head] + proofs[1..], rows)
  {
    var changed := [head] + proofs[1..];
    forall slot | Filled(slot, proofs) ensures Filled(slot, changed) {
      var i :| 0 <= i < |proofs| && SlotOf(proofs[i]) == slot;
      assert SlotOf(changed[i]) == slot;
    }
    forall component, target | component != CPreview
      ensures FindProof(changed, component, target) == FindProof(proofs, component, target)
    {
      assert changed[1..] == proofs[1..];
    }
    hide FindProof;
  }

  /** The preview records of an accepted list add up as they should exactly when the sum
      of their counts fits 64 bits. */
  lemma AcceptedCountsAddUpExactly(proofs: seq<PhaseZeroProof>, i: nat)
    requires GateVerdict(CANONICAL, proofs).Ok? && i < |proofs| && proofs[i].proof.PreviewProof?
    ensures var p := proofs[i].proof;
            p.framesApplied + p.framesDropped <= p.framesRead <==> p.framesApplied + p.framesDropped <= U64_MAX
  {
    hide GateVerdict, AllRelated, ValidTypedProof, CANONICAL, DistinctSlots;
    VerdictIsAcceptance(proofs);
    assert Admissible(CANONICAL, proofs[i]);
    ValidCountsAddUpExactly(ClaimedRow(proofs[i]), proofs[i]);
  }

  lemma ValidCountsAddUpExactly(row: RequiredEvidence, proof: PhaseZeroProof)
    requires ValidTypedProof(row, proof) && proof.proof.PreviewProof?
    ensures var p := proof.proof;
            p.framesApplied + p.framesDropped <= p.framesRead <==> p.framesApplied + p.framesDropped <= U64_MAX
  {
  }
}
