/** How the order of the records bears on the verdict of the gate
    (crates/spike-contracts/src/matrix.rs). */
module GateOrder {
  import opened Prelude
  import opened Proofs
  import opened MatrixKeys
  import opened Gate
  import opened GateTheorems

  // ---- what does not depend on order -----------------------------------------------------

  ghost predicate NoRepeats(proofs: seq<PhaseZeroProof>) {
    && (forall p | p in proofs :: multiset(proofs)[p] == 1)
    && (forall p, q | p in proofs && q in proofs && SlotOf(p) == SlotOf(q) :: p == q)
  }

  lemma {:induction false} DistinctIsNoRepeats(proofs: seq<PhaseZeroProof>)
    ensures DistinctSlots(proofs) <==> NoRepeats(proofs)
    decreases |proofs|
  {
    if proofs != [] {
      var head, tail := proofs[0], proofs[1..];
      assert proofs == [head] + tail;
      DistinctIsNoRepeats(tail);
      ConsSlots(head, tail);
      ConsNoRepeats(head, tail);
      assert forall q | q in tail :: exists i :: 0 <= i < |tail| && tail[i] == q;
    }
  }

  lemma ConsNoRepeats(head: PhaseZeroProof, tail: seq<PhaseZeroProof>)
    ensures NoRepeats([head] + tail) <==>
            NoRepeats(tail) && forall i :: 0 <= i < |tail| ==> SlotOf(tail[i]) != SlotOf(head)
  {
    var all := [head] + tail;
    assert multiset(all) == multiset{head} + multiset(tail);
    assert forall p :: p in all <==> p == head || p in tail;
    if NoRepeats(all) {
      forall i | 0 <= i < |tail| ensures SlotOf(tail[i]) != SlotOf(head) {
        assert tail[i] in all && multiset(all)[tail[i]] == 1 && multiset(tail)[tail[i]] > 0;
      }
      forall p | p in tail ensures multiset(tail)[p] == 1 {
        assert p in all && multiset(all)[p] == 1;
      }
    }
    if NoRepeats(tail) && forall i :: 0 <= i < |tail| ==> SlotOf(tail[i]) != SlotOf(head) {
      assert head !in tail;
      forall p | p in all ensures multiset(all)[p] == 1 {
        assert p == head || multiset(tail)[p] == 1;
      }
    }
  }

  /** Everything the gate asks of the records one by one and of the slots they fill. */
  ghost predicate Covers(proofs: seq<PhaseZeroProof>) {
    && (forall i :: 0 <= i < |proofs| ==> Admissible(CANONICAL, proofs[i]))
    && DistinctSlots(proofs)
    && (forall slot | slot in Slots(CANONICAL) :: Filled(slot, proofs))
  }

  lemma SameMembers(a: seq<PhaseZeroProof>, b: seq<PhaseZeroProof>)
    requires multiset(a) == multiset(b)
    ensures forall p :: p in a <==> p in b
  {
    forall p ensures p in a <==> p in b {
      assert p in a <==> p in multiset(a);
      assert p in b <==> p in multiset(b);
    }
  }

  lemma CoverIgnoresOrder(a: seq<PhaseZeroProof>, b: seq<PhaseZeroProof>)
    requires multiset(a) == multiset(b) && Covers(a)
    ensures Covers(b)
  {
    hide Admissible, Slots, SlotOf, DistinctSlots, NoRepeats;
    SameMembers(a, b);
    DistinctIsNoRepeats(a);
    DistinctIsNoRepeats(b);
    SameRepeats(a, b);
    forall i | 0 <= i < |b| ensures Admissible(CANONICAL, b[i]) {
      assert b[i] in a;
    }
    forall slot | slot in Slots(CANONICAL) ensures Filled(slot, b) {
      var i :| 0 <= i < |a| && SlotOf(a[i]) == slot;
      assert a[i] in b;
    }
  }

  lemma SameRepeats(a: seq<PhaseZeroProof>, b: seq<PhaseZeroProof>)
    requires multiset(a) == multiset(b) && (forall p :: p in a <==> p in b)
    ensures NoRepeats(a) <==> NoRepeats(b)
  {
    hide SlotOf;
  }

  lemma {:induction false} FindsWhatIsThere(proofs: seq<PhaseZeroProof>, component: ProofComponent, target: TargetId)
    ensures match FindProof(proofs, component, target)
            case Some(p) => p in proofs && p.component == component && p.row.target == target
            case None => forall q | q in proofs :: q.component != component || q.row.target != target
    decreases |proofs|
  {
    if proofs != [] {
      FindsWhatIsThere(proofs[1..], component, target);
      assert proofs == [proofs[0]] + proofs[1..];
    }
  }

  /** A canonical row is known by its id and target, for ids that have one row a target. */
  lemma OneRowPerTarget(r: RequiredEvidence, q: RequiredEvidence)
    requires r in CANONICAL && q in CANONICAL && r.id == q.id && r.target == q.target && !r.id.Media?
    ensures r == q
  {
    assert Ordinal(r) == Ordinal(q);
    hide Ordinal, Increasing;
    CanonicalIsIncreasing();
    OrdinalIdentifies(CANONICAL, r, q);
  }

  /** Outside the media rows, the component alone tells the kind of row. */
  lemma SameOwner(r: RequiredEvidence, q: RequiredEvidence, component: ProofComponent)
    requires component in RequiredComponents(r) && component in RequiredComponents(q)
    requires component !in {CMediaCpu, CMediaHardware, CMediaForcedFallback}
    ensures r.id == q.id && !r.id.Media?
  {
  }

  lemma SameSlot(proofs: seq<PhaseZeroProof>, p: PhaseZeroProof, q: PhaseZeroProof)
    requires NoRepeats(proofs) && p in proofs && q in proofs && SlotOf(p) == SlotOf(q)
    ensures p == q
  {
  }

  lemma OnlyMatch(proofs: seq<PhaseZeroProof>, p: PhaseZeroProof, q: PhaseZeroProof)
    requires p in proofs && q in proofs && p.component == q.component && p.row.target == q.row.target
    requires NoRepeats(proofs) && OnTheirRows(proofs)
    requires forall i :: 0 <= i < |proofs| ==> ClaimedRow(proofs[i]) in CANONICAL
    requires p.component !in {CMediaCpu, CMediaHardware, CMediaForcedFallback}
    ensures p == q
  {
    assert ClaimedRow(p) in CANONICAL && ClaimedRow(q) in CANONICAL;
    assert p.component in RequiredComponents(ClaimedRow(p)) && q.component in RequiredComponents(ClaimedRow(q));
    hide NoRepeats, OnTheirRows;
    SameOwner(ClaimedRow(p), ClaimedRow(q), p.component);
    OneRowPerTarget(ClaimedRow(q), ClaimedRow(p));
    SameSlot(proofs, p, q);
  }

  // ---- what does -------------------------------------------------------------------------

  /** The record could be found as this component for this target. */
  predicate Findable(p: PhaseZeroProof, component: ProofComponent, target: TargetId) {
    p.component == component && p.row.target == target
  }

  ghost predicate PairOk(stage: PhaseZeroProof, resume: PhaseZeroProof) {
    stage.proof.GeminiStageProof? && resume.proof.GeminiResumeProof? ==> GeminiPairRelated(stage.proof, resume.proof)
  }

  ghost predicate TripleOk(ffmpeg: PhaseZeroProof, package: PhaseZeroProof, update: PhaseZeroProof) {
    && ffmpeg.proof.DistributionFfmpegProof? && package.proof.DistributionPackageProof?
    && update.proof.DistributionUpdateProof?
    ==>
      && ffmpeg.proof.sourceLockSha256 == package.proof.sourceLockSha256
      && package.proof.artifacts == update.proof.artifacts
      && IsSha256(update.proof.manifestSha256)
  }

  ghost predicate IsPair(proofs: seq<PhaseZeroProof>, target: TargetId, stage: PhaseZeroProof, resume: PhaseZeroProof) {
    && stage in proofs && Findable(stage, CGeminiStage, target)
    && resume in proofs && Findable(resume, CGeminiResume, target)
  }

  ghost predicate IsTriple(proofs: seq<PhaseZeroProof>, target: TargetId, ffmpeg: PhaseZeroProof,
                           package: PhaseZeroProof, update: PhaseZeroProof)
  {
    && ffmpeg in proofs && Findable(ffmpeg, CDistributionFfmpeg, target)
    && package in proofs && Findable(package, CDistributionPackage, target)
    && update in proofs && Findable(update, CDistributionUpdate, target)
  }

  /** Whatever records of the kind the gate may find for the row's target, they are related. */
  ghost predicate AllChoicesRelated(proofs: seq<PhaseZeroProof>, row: RequiredEvidence) {
    match row.id
    case Gemini => forall s, r :: IsPair(proofs, row.target, s, r) ==> PairOk(s, r)
    case Distribution => forall f, p, u :: IsTriple(proofs, row.target, f, p, u) ==> TripleOk(f, p, u)
    case _ => true
  }

  /** Some records of the kind that it may find for the row's target are. */
  ghost predicate SomeChoiceRelated(proofs: seq<PhaseZeroProof>, row: RequiredEvidence) {
    match row.id
    case Gemini => exists s, r :: IsPair(proofs, row.target, s, r) && PairOk(s, r)
    case Distribution => exists f, p, u :: IsTriple(proofs, row.target, f, p, u) && TripleOk(f, p, u)
    case _ => true
  }

  ghost predicate RowRelated(proofs: seq<PhaseZeroProof>, row: RequiredEvidence) { Related(row.id, proofs, row.target) }

  lemma RelatedByRow(proofs: seq<PhaseZeroProof>)
    ensures AllRelated(Gemini, proofs, CANONICAL) && AllRelated(Distribution, proofs, CANONICAL) <==>
            forall k :: 0 <= k < |CANONICAL| ==> RowRelated(proofs, CANONICAL[k])
  {
    hide CANONICAL, GeminiTargetRelated, DistributionTargetRelated;
  }

  lemma AcceptedByRow(proofs: seq<PhaseZeroProof>)
    ensures GateVerdict(CANONICAL, proofs).Ok? <==>
            Covers(proofs) && forall k :: 0 <= k < |CANONICAL| ==> RowRelated(proofs, CANONICAL[k])
  {
    hide GateVerdict, Admissible, AllRelated, DistinctSlots, Slots, CANONICAL, RowRelated;
    VerdictIsAcceptance(proofs);
    RelatedByRow(proofs);
  }

  lemma FoundForRow(proofs: seq<PhaseZeroProof>, row: RequiredEvidence)
    ensures row.id == Gemini ==>
              var s, r := FindProof(proofs, CGeminiStage, row.target), FindProof(proofs, CGeminiResume, row.target);
              && (RowRelated(proofs, row) <==> (s.Some? && r.Some? ==> PairOk(s.value, r.value)))
              && (s.Some? && r.Some? ==> IsPair(proofs, row.target, s.value, r.value))
    ensures row.id == Distribution ==>
              var f := FindProof(proofs, CDistributionFfmpeg, row.target);
              var p := FindProof(proofs, CDistributionPackage, row.target);
              var u := FindProof(proofs, CDistributionUpdate, row.target);
              && (RowRelated(proofs, row) <==> (f.Some? && p.Some? && u.Some? ==> TripleOk(f.value, p.value, u.value)))
              && (f.Some? && p.Some? && u.Some? ==> IsTriple(proofs, row.target, f.value, p.value, u.value))
  {
    hide FindProof, IsSha256, GeminiPairRelated;
    FindsWhatIsThere(proofs, CGeminiStage, row.target);
    FindsWhatIsThere(proofs, CGeminiResume, row.target);
    FindsWhatIsThere(proofs, CDistributionFfmpeg, row.target);
    FindsWhatIsThere(proofs, CDistributionPackage, row.target);
    FindsWhatIsThere(proofs, CDistributionUpdate, row.target);
  }

  /** If all choices are related, what is found is. */
  lemma AnyFindIsRelated(a: seq<PhaseZeroProof>, b: seq<PhaseZeroProof>, row: RequiredEvidence)
    requires (forall p :: p in b ==> p in a) && AllChoicesRelated(a, row)
    ensures RowRelated(b, row)
  {
    hide FindProof, PairOk, TripleOk, RowRelated;
    FoundForRow(b, row);
    if row.id != Gemini && row.id != Distribution {
      OtherRowsAreRelated(b, row);
    }
  }

  lemma OtherRowsAreRelated(proofs: seq<PhaseZeroProof>, row: RequiredEvidence)
    requires row.id != Gemini && row.id != Distribution
    ensures RowRelated(proofs, row)
  {
  }

  // ---- putting records in front ----------------------------------------------------------

  /** The list with its first record equal to `p` moved to the front. */
  function InFront(proofs: seq<PhaseZeroProof>, p: PhaseZeroProof): seq<PhaseZeroProof>
  { [p] + Without(proofs, p) }

  function Without(proofs: seq<PhaseZeroProof>, p: PhaseZeroProof): seq<PhaseZeroProof>
    decreases |proofs|
  {
    if proofs == [] then [] else if proofs[0] == p then proofs[1..] else [proofs[0]] + Without(proofs[1..], p)
  }

  lemma {:induction false} WithoutKeepsFinds(proofs: seq<PhaseZeroProof>, p: PhaseZeroProof, component: ProofComponent,
                                             target: TargetId)
    requires !Findable(p, component, target)
    ensures FindProof(Without(proofs, p), component, target) == FindProof(proofs, component, target)
    decreases |proofs|
  {
    if proofs != [] && proofs[0] != p {
      WithoutKeepsFinds(proofs[1..], p, component, target);
      assert ([proofs[0]] + Without(proofs[1..], p))[1..] == Without(proofs[1..], p);
    }
  }

  lemma {:induction false} WithoutTakesOne(proofs: seq<PhaseZeroProof>, p: PhaseZeroProof)
    requires p in proofs
    ensures multiset(Without(proofs, p)) == multiset(proofs) - multiset{p}
    decreases |proofs|
  {
    assert proofs == [proofs[0]] + proofs[1..];
    if proofs[0] != p {
      WithoutTakesOne(proofs[1..], p);
    }
  }

  /** Moving a record to the front is a reordering in which it is found, and nothing else
      that is found changes. */
  lemma MovedInFront(proofs: seq<PhaseZeroProof>, p: PhaseZeroProof)
    requires p in proofs
    ensures multiset(InFront(proofs, p)) == multiset(proofs)
    ensures FindProof(InFront(proofs, p), p.component, p.row.target) == Some(p)
    ensures forall component, target: TargetId :: !Findable(p, component, target) ==>
              FindProof(InFront(proofs, p), component, target) == FindProof(proofs, component, target)
  {
    WithoutTakesOne(proofs, p);
    var rest := Without(proofs, p);
    assert ([p] + rest)[1..] == rest;
    forall component, target: TargetId | !Findable(p, component, target)
      ensures FindProof(InFront(proofs, p), component, target) == FindProof(proofs, component, target)
    {
      WithoutKeepsFinds(proofs, p, component, target);
    }
    hide Without;
  }

  /** Only what is found for the row's target bears on the row. */
  lemma SameFindsSameRow(a: seq<PhaseZeroProof>, b: seq<PhaseZeroProof>, row: RequiredEvidence)
    requires row.id == Gemini ==>
               FindProof(a, CGeminiStage, row.target) == FindProof(b, CGeminiStage, row.target) &&
               FindProof(a, CGeminiResume, row.target) == FindProof(b, CGeminiResume, row.target)
    requires row.id == Distribution ==>
               FindProof(a, CDistributionFfmpeg, row.target) == FindProof(b, CDistributionFfmpeg, row.target) &&
               FindProof(a, CDistributionPackage, row.target) == FindProof(b, CDistributionPackage, row.target) &&
               FindProof(a, CDistributionUpdate, row.target) == FindProof(b, CDistributionUpdate, row.target)
    ensures RowRelated(a, row) == RowRelated(b, row)
  {
    hide FindProof, IsSha256, GeminiPairRelated;
  }

  /** A pair moved to the front is what the gate finds; other rows see no change. */
  lemma PairInFront(proofs: seq<PhaseZeroProof>, target: TargetId, stage: PhaseZeroProof, resume: PhaseZeroProof)
    returns (b: seq<PhaseZeroProof>)
    requires IsPair(proofs, target, stage, resume)
    ensures multiset(b) == multiset(proofs)
    ensures forall row: RequiredEvidence {:trigger RowRelated(b, row)} ::
              RowRelated(b, row) ==
              if row.id == Gemini && row.target == target then PairOk(stage, resume) else RowRelated(proofs, row)
  {
    hide InFront, PairOk, RowRelated;
    var middle := InFront(proofs, resume);
    MovedInFront(proofs, resume);
    SameMembers(middle, proofs);
    b := InFront(middle, stage);
    MovedInFront(middle, stage);
    forall row: RequiredEvidence
      ensures RowRelated(b, row) ==
              if row.id == Gemini && row.target == target then PairOk(stage, resume) else RowRelated(proofs, row)
    {
      if row.id == Gemini && row.target == target {
        FoundForRow(b, row);
      } else {
        SameFindsSameRow(b, proofs, row);
      }
    }
  }

  lemma TripleInFront(proofs: seq<PhaseZeroProof>, target: TargetId, ffmpeg: PhaseZeroProof, package: PhaseZeroProof,
                      update: PhaseZeroProof)
    returns (b: seq<PhaseZeroProof>)
    requires IsTriple(proofs, target, ffmpeg, package, update)
    ensures multiset(b) == multiset(proofs)
    ensures forall row: RequiredEvidence {:trigger RowRelated(b, row)} ::
              RowRelated(b, row) ==
              if row.id == Distribution && row.target == target then TripleOk(ffmpeg, package, update)
              else RowRelated(proofs, row)
  {
    hide InFront, TripleOk, RowRelated;
    var first := InFront(proofs, update);
    MovedInFront(proofs, update);
    SameMembers(first, proofs);
    var second := InFront(first, package);
    MovedInFront(first, package);
    SameMembers(second, proofs);
    b := InFront(second, ffmpeg);
    MovedInFront(second, ffmpeg);
    forall row: RequiredEvidence
      ensures RowRelated(b, row) ==
              if row.id == Distribution && row.target == target then TripleOk(ffmpeg, package, update)
              else RowRelated(proofs, row)
    {
      if row.id == Distribution && row.target == target {
        FoundForRow(b, row);
      } else {
        SameFindsSameRow(b, proofs, row);
      }
    }
  }

  /** A related choice can be put in front, without harm to the rows already related. */
  lemma RelateRow(proofs: seq<PhaseZeroProof>, row: RequiredEvidence) returns (b: seq<PhaseZeroProof>)
    requires SomeChoiceRelated(proofs, row)
    ensures multiset(b) == multiset(proofs) && RowRelated(b, row)
    ensures forall other: RequiredEvidence {:trigger RowRelated(b, other)} ::
              RowRelated(proofs, other) ==> RowRelated(b, other)
  {
    hide PairOk, TripleOk, RowRelated, IsPair, IsTriple;
    b := proofs;
    match row.id {
      case Gemini =>
        var s, r :| IsPair(proofs, row.target, s, r) && PairOk(s, r);
        b := PairInFront(proofs, row.target, s, r);
      case Distribution =>
        var f, p, u :| IsTriple(proofs, row.target, f, p, u) && TripleOk(f, p, u);
        b := TripleInFront(proofs, row.target, f, p, u);
      case _ => OtherRowsAreRelated(b, row);
    }
  }

  /** An unrelated choice can be put in front. */
  lemma BreakRow(proofs: seq<PhaseZeroProof>, row: RequiredEvidence) returns (b: seq<PhaseZeroProof>)
    requires !AllChoicesRelated(proofs, row)
    ensures multiset(b) == multiset(proofs) && !RowRelated(b, row)
  {
    hide PairOk, TripleOk, RowRelated, IsPair, IsTriple;
    if row.id == Gemini {
      var s, r :| IsPair(proofs, row.target, s, r) && !PairOk(s, r);
      b := PairInFront(proofs, row.target, s, r);
    } else {
      var f, p, u :| IsTriple(proofs, row.target, f, p, u) && !TripleOk(f, p, u);
      b := TripleInFront(proofs, row.target, f, p, u);
    }
  }

  lemma ChoiceIgnoresOrder(a: seq<PhaseZeroProof>, b: seq<PhaseZeroProof>, row: RequiredEvidence)
    requires forall p :: p in a <==> p in b
    ensures SomeChoiceRelated(a, row) == SomeChoiceRelated(b, row)
  {
    hide PairOk, TripleOk;
    assert forall s, r :: IsPair(a, row.target, s, r) <==> IsPair(b, row.target, s, r);
    assert forall f, p, u :: IsTriple(a, row.target, f, p, u) <==> IsTriple(b, row.target, f, p, u);
    hide IsPair, IsTriple;
  }

  /** With a related choice for every row, some order relates them all. */
  lemma RelateAllRows(proofs: seq<PhaseZeroProof>) returns (b: seq<PhaseZeroProof>)
    requires forall k :: 0 <= k < |CANONICAL| ==> SomeChoiceRelated(proofs, CANONICAL[k])
    ensures multiset(b) == multiset(proofs)
    ensures forall k :: 0 <= k < |CANONICAL| ==> RowRelated(b, CANONICAL[k])
  {
    hide CANONICAL, SomeChoiceRelated, RowRelated;
    b := proofs;
    for k := 0 to |CANONICAL|
      invariant multiset(b) == multiset(proofs)
      invariant forall j :: 0 <= j < k ==> RowRelated(b, CANONICAL[j])
    {
      SameMembers(b, proofs);
      ChoiceIgnoresOrder(b, proofs, CANONICAL[k]);
      b := RelateRow(b, CANONICAL[k]);
    }
  }

  /** In a cover there is something to find for every row. */
  lemma RelatedRowHasChoice(proofs: seq<PhaseZeroProof>, row: RequiredEvidence)
    requires Covers(proofs) && row in CANONICAL && RowRelated(proofs, row)
    ensures SomeChoiceRelated(proofs, row)
  {
    FoundForRow(proofs, row);
    hide PairOk, TripleOk, RowRelated, IsPair, IsTriple, CANONICAL, FindProof, Covers;
    if row.id == Gemini {
      FoundInCover(proofs, row, CGeminiStage);
      FoundInCover(proofs, row, CGeminiResume);
    } else if row.id == Distribution {
      FoundInCover(proofs, row, CDistributionFfmpeg);
      FoundInCover(proofs, row, CDistributionPackage);
      FoundInCover(proofs, row, CDistributionUpdate);
    }
  }

  lemma FoundInCover(proofs: seq<PhaseZeroProof>, row: RequiredEvidence, component: ProofComponent)
    requires Covers(proofs) && row in CANONICAL && component in RequiredComponents(row)
    ensures FindProof(proofs, component, row.target).Some?
  {
    hide CANONICAL, Admissible, RequiredComponents, DistinctSlots, FindProof;
    SlotsBelongToRows(CANONICAL, (row, component));
    var i :| 0 <= i < |proofs| && SlotOf(proofs[i]) == (row, component);
    assert proofs[i] in proofs;
    FindsWhatIsThere(proofs, component, row.target);
  }

  // ---- exactly when order matters --------------------------------------------------------

  ghost predicate Accepts(proofs: seq<PhaseZeroProof>) { GateVerdict(CANONICAL, proofs).Ok? }

  ghost predicate AllRelatable(proofs: seq<PhaseZeroProof>) {
    Covers(proofs) && forall k :: 0 <= k < |CANONICAL| ==> AllChoicesRelated(proofs, CANONICAL[k])
  }

  ghost predicate SomeRelatable(proofs: seq<PhaseZeroProof>) {
    Covers(proofs) && forall k :: 0 <= k < |CANONICAL| ==> SomeChoiceRelated(proofs, CANONICAL[k])
  }

  /** Every order of a list is accepted exactly when it covers the matrix and, for every
      target, all records that could be found together are related. */
  lemma EveryOrderIsAccepted(a: seq<PhaseZeroProof>)
    ensures (forall b :: multiset(b) == multiset(a) ==> Accepts(b)) <==> AllRelatable(a)
  {
    hide GateVerdict, Covers, AllChoicesRelated, RowRelated, CANONICAL;
    if AllRelatable(a) {
      forall b | multiset(b) == multiset(a) ensures Accepts(b) {
        AllOrdersWork(a, b);
      }
    } else if Accepts(a) {
      AcceptedByRow(a);
      var k :| 0 <= k < |CANONICAL| && !AllChoicesRelated(a, CANONICAL[k]);
      var b := BreakRow(a, CANONICAL[k]);
      AcceptedByRow(b);
      assert !Accepts(b);
    }
  }

  lemma AllOrdersWork(a: seq<PhaseZeroProof>, b: seq<PhaseZeroProof>)
    requires multiset(b) == multiset(a) && AllRelatable(a)
    ensures Accepts(b)
  {
    hide GateVerdict, Covers, AllChoicesRelated, RowRelated, CANONICAL;
    SameMembers(a, b);
    CoverIgnoresOrder(a, b);
    AcceptedByRow(b);
    forall k | 0 <= k < |CANONICAL| ensures RowRelated(b, CANONICAL[k]) {
      AnyFindIsRelated(a, b, CANONICAL[k]);
    }
  }

  /** Some order of it is accepted exactly when it covers the matrix and, for every target,
      some records that could be found together are related. */
  lemma SomeOrderIsAccepted(a: seq<PhaseZeroProof>)
    ensures (exists b :: multiset(b) == multiset(a) && Accepts(b)) <==> SomeRelatable(a)
  {
    hide GateVerdict, Covers, SomeChoiceRelated, RowRelated, CANONICAL;
    if SomeRelatable(a) {
      var b := RelateAllRows(a);
      CoverIgnoresOrder(a, b);
      AcceptedByRow(b);
      assert Accepts(b);
    }
    forall b | multiset(b) == multiset(a) && Accepts(b) ensures SomeRelatable(a) {
      AcceptedByRow(b);
      CoverIgnoresOrder(b, a);
      SameMembers(a, b);
      forall k | 0 <= k < |CANONICAL| ensures SomeChoiceRelated(a, CANONICAL[k]) {
        RelatedRowHasChoice(b, CANONICAL[k]);
        ChoiceIgnoresOrder(a, b, CANONICAL[k]);
      }
    }
  }

  /** The verdict on a list is independent of its order exactly when either no order is
      accepted or every choice of records is related, not just some. */
  lemma OrderIsIrrelevantExactly(a: seq<PhaseZeroProof>)
    ensures (forall b :: multiset(b) == multiset(a) ==> (Accepts(b) <==> Accepts(a))) <==>
            (SomeRelatable(a) ==> AllRelatable(a))
  {
    hide Accepts, SomeRelatable, AllRelatable;
    EveryOrderIsAccepted(a);
    SomeOrderIsAccepted(a);
    assert multiset(a) == multiset(a);
  }

  /** In particular when every record is for a component of its own row: then there is only
      one record to find for each. */
  lemma VerdictIgnoresOrder(a: seq<PhaseZeroProof>, b: seq<PhaseZeroProof>)
    requires multiset(a) == multiset(b) && OnTheirRows(a)
    ensures GateVerdict(CANONICAL, a).Ok? <==> GateVerdict(CANONICAL, b).Ok?
  {
    if SomeRelatable(a) {
      hide RequiredComponents, CANONICAL, Covers, PairOk, TripleOk, GateVerdict, OnTheirRows, IsPair, IsTriple;
      forall k | 0 <= k < |CANONICAL| ensures AllChoicesRelated(a, CANONICAL[k]) {
        OneChoice(a, CANONICAL[k]);
      }
    }
    hide AllRelatable, SomeRelatable, OnTheirRows, GateVerdict, CANONICAL;
    OrderIsIrrelevantExactly(a);
    assert Accepts(b) <==> Accepts(a);
  }

  lemma OneChoice(proofs: seq<PhaseZeroProof>, row: RequiredEvidence)
    requires Covers(proofs) && OnTheirRows(proofs) && SomeChoiceRelated(proofs, row)
    ensures AllChoicesRelated(proofs, row)
  {
    DistinctIsNoRepeats(proofs);
    hide NoRepeats, OnTheirRows, PairOk, TripleOk, CANONICAL, DistinctSlots;
    assert forall i :: 0 <= i < |proofs| ==> ClaimedRow(proofs[i]) in CANONICAL;
    OneMatch(proofs);
    hide Covers, AllChoicesRelated, SomeChoiceRelated;
    OnlyChoice(proofs, row);
  }

  lemma OnlyChoice(proofs: seq<PhaseZeroProof>, row: RequiredEvidence)
    requires SomeChoiceRelated(proofs, row)
    requires forall p, q | p in proofs && q in proofs && p.component == q.component && p.row.target == q.row.target ::
               p.component in {CMediaCpu, CMediaHardware, CMediaForcedFallback} || p == q
    ensures AllChoicesRelated(proofs, row)
  {
    hide PairOk, TripleOk;
  }

  /** On their own rows, a component and a target have one record at most. */
  lemma OneMatch(proofs: seq<PhaseZeroProof>)
    requires NoRepeats(proofs) && OnTheirRows(proofs)
    requires forall i :: 0 <= i < |proofs| ==> ClaimedRow(proofs[i]) in CANONICAL
    ensures forall p, q | p in proofs && q in proofs && p.component == q.component && p.row.target == q.row.target ::
              p.component in {CMediaCpu, CMediaHardware, CMediaForcedFallback} || p == q
  {
    hide NoRepeats, OnTheirRows, CANONICAL;
    forall p, q | p in proofs && q in proofs && p.component == q.component && p.row.target == q.row.target
      && p.component !in {CMediaCpu, CMediaHardware, CMediaForcedFallback}
      ensures p == q
    {
      OnlyMatch(proofs, p, q);
    }
  }
}
