/** Which error each gate reports: the first fault in the order of the records, then the first
    thing missing in the order of the matrix (crates/spike-contracts/src/matrix.rs). */
module GateFaults {
  import opened Prelude
  import opened Proofs
  import opened MatrixKeys
  import opened Gate
  import opened GateTheorems

  // ---- the gate over typed records -----------------------------------------------------------

  /** What is wrong with a record behind those that fill these slots: it is for no row of the
      matrix, for a slot that is filled, or not valid, looked for in this order. */
  ghost function FaultOf(proof: PhaseZeroProof, filled: set<Slot>): Option<GateError> {
    if ClaimedRow(proof) !in CANONICAL then Some(UnmatchedEvidence)
    else if SlotOf(proof) in filled then Some(DuplicateProofComponent)
    else if !ValidTypedProof(ClaimedRow(proof), proof) then Some(TypedProof(proof.component))
    else None
  }

  ghost predicate NoFault(proofs: seq<PhaseZeroProof>) {
    forall i :: 0 <= i < |proofs| ==> FaultOf(proofs[i], SlotSet(proofs[..i])) == None
  }

  /** The error is that of the first record with a fault, whatever comes after it. */
  lemma FirstFaultIsReported(proofs: seq<PhaseZeroProof>, i: nat)
    requires i < |proofs| && NoFault(proofs[..i]) && FaultOf(proofs[i], SlotSet(proofs[..i])).Some?
    ensures GateVerdict(CANONICAL, proofs) == Err(FaultOf(proofs[i], SlotSet(proofs[..i])).value)
  {
    hide ScanProofs, FaultOf, CANONICAL, SeenIs;
    NothingSeen();
    forall j | 0 <= j < i ensures FaultOf(proofs[j], {} + SlotSet(proofs[..j])) == None {
      assert proofs[..i][j] == proofs[j] && proofs[..i][..j] == proofs[..j];
      assert {} + SlotSet(proofs[..j]) == SlotSet(proofs[..j]);
    }
    assert {} + SlotSet(proofs[..i]) == SlotSet(proofs[..i]);
    ScanStopsAt(proofs, {}, {}, i);
  }

  lemma {:induction false} ScanStopsAt(proofs: seq<PhaseZeroProof>, seen: set<string>, filled: set<Slot>, i: nat)
    requires i < |proofs| && SeenIs(seen, filled)
    requires forall j :: 0 <= j < i ==> FaultOf(proofs[j], filled + SlotSet(proofs[..j])) == None
    requires FaultOf(proofs[i], filled + SlotSet(proofs[..i])).Some?
    ensures ScanProofs(CANONICAL, proofs, seen) == Err(FaultOf(proofs[i], filled + SlotSet(proofs[..i])).value)
    decreases i
  {
    hide ValidTypedProof, SlotKey, SeenIs, CANONICAL, SlotSet;
    var head, tail := proofs[0], proofs[1..];
    NoSlots(proofs, filled);
    if ClaimedRow(head) in CANONICAL {
      HeadSeen(SlotOf(head), seen, filled);
    }
    if i > 0 {
      var slot := SlotOf(head);
      ExtendSeen(seen, filled, slot);
      forall j | 0 <= j <= i - 1
        ensures filled + {slot} + SlotSet(tail[..j]) == filled + SlotSet(proofs[..j + 1])
      {
        SlotsOfCons(proofs, j);
      }
      assert FaultOf(proofs[0], filled + SlotSet(proofs[..0])) == None;
      forall j | 0 <= j < i - 1 ensures FaultOf(tail[j], filled + {slot} + SlotSet(tail[..j])) == None {
        assert tail[j] == proofs[j + 1];
      }
      assert tail[i - 1] == proofs[i];
      ScanStopsAt(tail, seen + {SlotKey(slot.0, slot.1)}, filled + {slot}, i - 1);
    }
  }

  lemma NoSlots(proofs: seq<PhaseZeroProof>, filled: set<Slot>)
    ensures filled + SlotSet(proofs[..0]) == filled
  {
  }

  lemma SlotsOfCons(proofs: seq<PhaseZeroProof>, j: nat)
    requires j < |proofs|
    ensures SlotSet(proofs[..j + 1]) == {SlotOf(proofs[0])} + SlotSet(proofs[1..][..j])
  {
    hide SlotOf;
    var all, tail := proofs[..j + 1], proofs[1..][..j];
    assert all[0] == proofs[0];
    assert forall i :: 0 <= i < j ==> tail[i] == all[i + 1];
    forall slot | slot in SlotSet(all) ensures slot in {SlotOf(proofs[0])} + SlotSet(tail) {
      var i :| 0 <= i < |all| && SlotOf(all[i]) == slot;
      if i > 0 {
        assert SlotOf(tail[i - 1]) == slot;
      }
    }
    forall slot | slot in SlotSet(tail) ensures slot in SlotSet(all) {
      var i :| 0 <= i < |tail| && SlotOf(tail[i]) == slot;
      assert SlotOf(all[i + 1]) == slot;
    }
  }

  /** Without a fault every slot is filled at most once, by a valid record. */
  lemma NoFaultIsNew(proofs: seq<PhaseZeroProof>)
    ensures NoFault(proofs) <==> AllNew(proofs, {}) && DistinctSlots(proofs)
  {
    hide ValidTypedProof, CANONICAL;
    forall i | 0 <= i < |proofs|
      ensures SlotOf(proofs[i]) in SlotSet(proofs[..i]) <==>
              exists j :: 0 <= j < i && SlotOf(proofs[j]) == SlotOf(proofs[i])
    {
      EarlierSlot(proofs, i);
    }
    assert forall i :: 0 <= i < |proofs| ==> SlotList(proofs)[i] == SlotOf(proofs[i]);
    hide SlotSet, SlotList, SlotOf;
    if NoFault(proofs) {
      forall i | 0 <= i < |proofs| ensures Admissible(CANONICAL, proofs[i]) {
        assert FaultOf(proofs[i], SlotSet(proofs[..i])) == None;
      }
      forall j, i | 0 <= j < i < |proofs| ensures SlotOf(proofs[j]) != SlotOf(proofs[i]) {
        assert FaultOf(proofs[i], SlotSet(proofs[..i])) == None;
      }
    }
    if AllNew(proofs, {}) && DistinctSlots(proofs) {
      forall i | 0 <= i < |proofs| ensures FaultOf(proofs[i], SlotSet(proofs[..i])) == None {
        assert Admissible(CANONICAL, proofs[i]);
      }
    }
  }

  lemma EarlierSlot(proofs: seq<PhaseZeroProof>, i: nat)
    requires i < |proofs|
    ensures SlotOf(proofs[i]) in SlotSet(proofs[..i]) <==>
            exists j :: 0 <= j < i && SlotOf(proofs[j]) == SlotOf(proofs[i])
  {
    hide SlotOf;
    assert forall j :: 0 <= j < i ==> proofs[..i][j] == proofs[j];
  }

  /** If no record has a fault, the error names the first slot of the matrix that none fills. */
  lemma FirstGapIsReported(proofs: seq<PhaseZeroProof>, k: nat)
    requires NoFault(proofs) && k < |Slots(CANONICAL)| && !Filled(Slots(CANONICAL)[k], proofs)
    requires forall j :: 0 <= j < k ==> Filled(Slots(CANONICAL)[j], proofs)
    ensures GateVerdict(CANONICAL, proofs) ==
            Err(MissingEvidence(SlotKey(Slots(CANONICAL)[k].0, Slots(CANONICAL)[k].1)))
  {
    NoFaultIsNew(proofs);
    hide NoFault, ScanProofs, CANONICAL, SeenIs, AllNew, DistinctSlots, FirstMissing, SlotKey, Slots;
    NothingSeen();
    ScanIsExact(proofs, {}, {});
    var seen := ScanProofs(CANONICAL, proofs, {}).value;
    var slots := Slots(CANONICAL);
    assert {} + SlotSet(proofs) == SlotSet(proofs);
    assert forall slot: Slot :: slot in SlotSet(proofs) <==> Filled(slot, proofs);
    forall i | 0 <= i < |slots| ensures slots[i].0 in CANONICAL {
      SlotsBelongToRows(CANONICAL, slots[i]);
    }
    hide Filled, SlotSet;
    FirstMissingIs(slots, seen, SlotSet(proofs), k);
  }

  lemma {:induction false} FirstMissingIs(slots: seq<Slot>, seen: set<string>, filled: set<Slot>, k: nat)
    requires SeenIs(seen, filled) && forall i :: 0 <= i < |slots| ==> slots[i].0 in CANONICAL
    requires k < |slots| && slots[k] !in filled && forall j :: 0 <= j < k ==> slots[j] in filled
    ensures FirstMissing(slots, seen) == Some(SlotKey(slots[k].0, slots[k].1))
    decreases k
  {
    hide SlotKey, SeenIs, CANONICAL;
    HeadSeen(slots[0], seen, filled);
    if k > 0 {
      assert forall i :: 0 <= i < |slots[1..]| ==> slots[1..][i] == slots[i + 1];
      FirstMissingIs(slots[1..], seen, filled, k - 1);
    }
  }

  /** If nothing is missing either, the relations of the releases come before those of the uploads. */
  lemma RelationsAreReported(proofs: seq<PhaseZeroProof>)
    requires NoFault(proofs) && forall slot | slot in Slots(CANONICAL) :: Filled(slot, proofs)
    ensures !AllRelated(Distribution, proofs, CANONICAL) ==>
              GateVerdict(CANONICAL, proofs) == Err(DistributionRelationships)
    ensures AllRelated(Distribution, proofs, CANONICAL) && !AllRelated(Gemini, proofs, CANONICAL) ==>
              GateVerdict(CANONICAL, proofs) == Err(GeminiRelationship)
  {
    NoFaultIsNew(proofs);
    hide NoFault, ScanProofs, CANONICAL, SeenIs, AllNew, DistinctSlots, FirstMissing, SlotKey, Slots, AllRelated;
    NothingSeen();
    ScanIsExact(proofs, {}, {});
    var seen := ScanProofs(CANONICAL, proofs, {}).value;
    var slots := Slots(CANONICAL);
    assert {} + SlotSet(proofs) == SlotSet(proofs);
    assert forall slot: Slot :: slot in SlotSet(proofs) <==> Filled(slot, proofs);
    forall i | 0 <= i < |slots| ensures slots[i].0 in CANONICAL {
      SlotsBelongToRows(CANONICAL, slots[i]);
    }
    hide Filled, SlotSet;
    NothingMissing(slots, seen, SlotSet(proofs));
  }
}
