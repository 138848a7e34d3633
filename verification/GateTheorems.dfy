/** What acceptance by the gate means: an exact cover of the matrix. */
module GateTheorems {
  import opened Prelude
  import opened Proofs
  import opened MatrixKeys
  import opened Gate

  type Slot = (RequiredEvidence, ProofComponent)

  function SlotOf(proof: PhaseZeroProof): Slot { (ClaimedRow(proof), proof.component) }

  function SlotList(proofs: seq<PhaseZeroProof>): seq<Slot> {
    seq(|proofs|, i requires 0 <= i < |proofs| => SlotOf(proofs[i]))
  }

  ghost predicate DistinctSlots(proofs: seq<PhaseZeroProof>) { Distinct(SlotList(proofs)) }

  ghost predicate Admissible(rows: seq<RequiredEvidence>, proof: PhaseZeroProof) {
    ClaimedRow(proof) in rows && ValidTypedProof(ClaimedRow(proof), proof)
  }

  ghost predicate Filled(slot: Slot, proofs: seq<PhaseZeroProof>) {
    exists i :: 0 <= i < |proofs| && SlotOf(proofs[i]) == slot
  }

  /** Acceptance in terms of rows and components, without string keys or a scan. */
  ghost predicate Accepted(rows: seq<RequiredEvidence>, proofs: seq<PhaseZeroProof>) {
    && (forall i :: 0 <= i < |proofs| ==> Admissible(rows, proofs[i]))
    && DistinctSlots(proofs)
    && (forall slot | slot in Slots(rows) :: Filled(slot, proofs))
    && AllRelated(Distribution, proofs, rows)
    && AllRelated(Gemini, proofs, rows)
  }

  // ---- string keys stand for slots ------------------------------------------------

  lemma ComponentNamesDiffer(a: ProofComponent, b: ProofComponent)
    ensures NoBar(a.AsStr())
    ensures a.AsStr() == b.AsStr() ==> a == b
  {
    NameMark(a);
    NameMark(b);
    hide *;
    MarksDiffer(a, b);
  }

  /** Length and last character tell the component names apart. */
  function Mark(component: ProofComponent): (nat, char) {
    match component
    case CPreview => (7, 'w')
    case CMediaCpu => (9, 'u')
    case CMediaHardware => (14, 'e')
    case CMediaForcedFallback => (21, 'k')
    case CGeminiStage => (12, 'e')
    case CGeminiResume => (13, 'e')
    case CPlatformKeyring => (16, 'g')
    case CPlatformTray => (13, 'y')
    case CPlatformNoTray => (16, 'y')
    case CPlatformProcess => (16, 's')
    case CPlatformCheckpoint => (19, 't')
    case CDistributionFfmpeg => (19, 'g')
    case CDistributionPackage => (20, 'e')
    case CDistributionUpdate => (19, 'e')
  }

  predicate MarksName(a: ProofComponent) {
    && NoBar(a.AsStr()) && a.AsStr() != ""
    && Mark(a) == (|a.AsStr()|, a.AsStr()[|a.AsStr()| - 1])
  }

  lemma NameMark(a: ProofComponent)
    ensures NoBar(a.AsStr()) && a.AsStr() != ""
    ensures Mark(a) == (|a.AsStr()|, a.AsStr()[|a.AsStr()| - 1])
  {
    MarkOfName(a);
    hide ProofComponent.AsStr, Mark;
  }

  lemma MarkOfName(a: ProofComponent)
    ensures MarksName(a)
  {
    hide MarksName;
    if a in {CPreview, CMediaCpu, CMediaHardware, CMediaForcedFallback, CGeminiStage, CGeminiResume} {
      EarlyNameMark(a);
    } else if a in {CDistributionFfmpeg, CDistributionPackage, CDistributionUpdate} {
      DistributionNameMark(a);
    } else {
      PlatformNameMark(a);
    }
  }

  lemma EarlyNameMark(a: ProofComponent)
    requires a in {CPreview, CMediaCpu, CMediaHardware, CMediaForcedFallback, CGeminiStage, CGeminiResume}
    ensures MarksName(a)
  {
  }

  lemma DistributionNameMark(a: ProofComponent)
    requires a in {CDistributionFfmpeg, CDistributionPackage, CDistributionUpdate}
    ensures MarksName(a)
  {
  }

  lemma PlatformNameMark(a: ProofComponent)
    requires a in {CPlatformKeyring, CPlatformTray, CPlatformNoTray, CPlatformProcess, CPlatformCheckpoint}
    ensures MarksName(a)
  {
  }

  lemma MarksDiffer(a: ProofComponent, b: ProofComponent)
    ensures Mark(a) == Mark(b) ==> a == b
  {
  }

  lemma SlotKeysAreInjective(a: Slot, b: Slot)
    requires a.0 in CANONICAL && b.0 in CANONICAL
    ensures SlotKey(a.0, a.1) == SlotKey(b.0, b.1) <==> a == b
  {
    hide RequiredKey;
    if SlotKey(a.0, a.1) == SlotKey(b.0, b.1) {
      ComponentNamesDiffer(a.1, b.1);
      ComponentNamesDiffer(b.1, a.1);
      LastBar(RequiredKey(a.0), a.1.AsStr(), RequiredKey(b.0), b.1.AsStr());
      CanonicalKeysAreInjective(a.0, b.0);
    }
  }

  ghost predicate SeenIs(seen: set<string>, filled: set<Slot>) {
    && (forall slot | slot in filled :: slot.0 in CANONICAL)
    && (forall slot: Slot {:trigger SlotKey(slot.0, slot.1)} :: slot.0 in CANONICAL ==>
          (SlotKey(slot.0, slot.1) in seen <==> slot in filled))
  }

  ghost function SlotSet(proofs: seq<PhaseZeroProof>): set<Slot> {
    set i | 0 <= i < |proofs| :: SlotOf(proofs[i])
  }

  /** All proofs are admissible and fill slots that are still free. */
  ghost predicate AllNew(proofs: seq<PhaseZeroProof>, filled: set<Slot>) {
    forall i :: 0 <= i < |proofs| ==> Admissible(CANONICAL, proofs[i]) && SlotOf(proofs[i]) !in filled
  }

  lemma {:induction false} ScanIsExact(proofs: seq<PhaseZeroProof>, seen: set<string>, filled: set<Slot>)
    requires SeenIs(seen, filled)
    ensures ScanProofs(CANONICAL, proofs, seen).Ok? <==> AllNew(proofs, filled) && DistinctSlots(proofs)
    ensures ScanProofs(CANONICAL, proofs, seen).Ok? ==>
              SeenIs(ScanProofs(CANONICAL, proofs, seen).value, filled + SlotSet(proofs))
    decreases |proofs|
  {
    hide ValidTypedProof, SlotKey, DistinctSlots, SeenIs, AllNew, SlotSet;
    if proofs == [] {
      NothingRepeats(proofs, filled);
    } else {
      var head, tail := proofs[0], proofs[1..];
      assert proofs == [head] + tail;
      var slot := SlotOf(head);
      ConsNew(head, tail, filled);
      if slot.0 in CANONICAL {
        HeadSeen(slot, seen, filled);
        ExtendSeen(seen, filled, slot);
        ScanIsExact(tail, seen + {SlotKey(slot.0, slot.1)}, filled + {slot});
      }
    }
  }

  lemma ConsNew(head: PhaseZeroProof, tail: seq<PhaseZeroProof>, filled: set<Slot>)
    ensures AllNew([head] + tail, filled) && DistinctSlots([head] + tail) <==>
            && Admissible(CANONICAL, head) && SlotOf(head) !in filled
            && AllNew(tail, filled + {SlotOf(head)}) && DistinctSlots(tail)
    ensures filled + SlotSet([head] + tail) == filled + {SlotOf(head)} + SlotSet(tail)
  {
    hide Admissible, DistinctSlots, SlotOf;
    ConsSlots(head, tail);
    var all := [head] + tail;
    assert forall i :: 0 <= i < |tail| ==> tail[i] == all[i + 1];
    assert forall i :: 0 < i < |all| ==> all[i] == tail[i - 1];
    assert all[0] == head;
    assert AllNew(all, filled) <==> Admissible(CANONICAL, head) && SlotOf(head) !in filled && AllNew(tail, filled);
  }

  lemma NothingRepeats(proofs: seq<PhaseZeroProof>, filled: set<Slot>)
    requires proofs == []
    ensures DistinctSlots(proofs) && AllNew(proofs, filled) && filled + SlotSet(proofs) == filled
  {
  }

  lemma ConsSlots(head: PhaseZeroProof, tail: seq<PhaseZeroProof>)
    ensures DistinctSlots([head] + tail) <==>
            DistinctSlots(tail) && forall i :: 0 <= i < |tail| ==> SlotOf(tail[i]) != SlotOf(head)
  {
    hide SlotOf;
    var slots := SlotList(tail);
    assert SlotList([head] + tail) == [SlotOf(head)] + slots;
    ConsDistinct(SlotOf(head), slots);
    assert forall i :: 0 <= i < |tail| ==> slots[i] == SlotOf(tail[i]);
    hide Distinct;
  }

  lemma ExtendSeen(seen: set<string>, filled: set<Slot>, slot: Slot)
    requires SeenIs(seen, filled) && slot.0 in CANONICAL
    ensures SeenIs(seen + {SlotKey(slot.0, slot.1)}, filled + {slot})
  {
    hide SlotKey;
    forall other: Slot | other.0 in CANONICAL
      ensures SlotKey(other.0, other.1) in seen + {SlotKey(slot.0, slot.1)} <==> other in filled + {slot}
    {
      SlotKeysAreInjective(other, slot);
    }
  }

  lemma {:induction false} NothingMissing(slots: seq<Slot>, seen: set<string>, filled: set<Slot>)
    requires SeenIs(seen, filled)
    requires forall i :: 0 <= i < |slots| ==> slots[i].0 in CANONICAL
    ensures FirstMissing(slots, seen).None? <==> forall i :: 0 <= i < |slots| ==> slots[i] in filled
    decreases |slots|
  {
    if slots != [] {
      HeadSeen(slots[0], seen, filled);
      hide SlotKey, SeenIs;
      NothingMissing(slots[1..], seen, filled);
      assert forall i :: 0 < i < |slots| ==> slots[i] == slots[1..][i - 1];
      assert forall i :: 0 <= i < |slots[1..]| ==> slots[1..][i] == slots[i + 1];
    }
  }

  lemma HeadSeen(slot: Slot, seen: set<string>, filled: set<Slot>)
    requires SeenIs(seen, filled) && slot.0 in CANONICAL
    ensures SlotKey(slot.0, slot.1) in seen <==> slot in filled
  {
  }

  lemma {:induction false} SlotsBelongToRows(rows: seq<RequiredEvidence>, slot: Slot)
    ensures slot in Slots(rows) <==> slot.0 in rows && slot.1 in RequiredComponents(slot.0)
    decreases |rows|
  {
    hide RequiredComponents;
    if rows != [] {
      SlotsBelongToRows(rows[1..], slot);
      assert rows == [rows[0]] + rows[1..];
      RowSlotsMembers(rows[0], RequiredComponents(rows[0]), slot);
    }
  }

  lemma RowSlotsMembers(row: RequiredEvidence, components: seq<ProofComponent>, slot: Slot)
    ensures slot in RowSlots(row, components) <==> slot.0 == row && slot.1 in components
  {
    if slot.0 == row && slot.1 in components {
      var i :| 0 <= i < |components| && components[i] == slot.1;
      assert RowSlots(row, components)[i] == slot;
    }
  }

  lemma NothingSeen()
    ensures SeenIs({}, {})
  {
    hide CANONICAL, SlotKey;
  }

  /** The scan over string keys accepts exactly the lists that are accepted in terms
      of rows and components. */
  lemma VerdictIsAcceptance(proofs: seq<PhaseZeroProof>)
    ensures GateVerdict(CANONICAL, proofs).Ok? <==> Accepted(CANONICAL, proofs)
  {
    hide ValidTypedProof, SlotKey, AllRelated, RequiredComponents, CANONICAL, SeenIs, ScanProofs, Slots, FirstMissing,
         DistinctSlots;
    NothingSeen();
    ScanIsExact(proofs, {}, {});
    if ScanProofs(CANONICAL, proofs, {}).Ok? {
      var seen := ScanProofs(CANONICAL, proofs, {}).value;
      assert {} + SlotSet(proofs) == SlotSet(proofs);
      forall i | 0 <= i < |Slots(CANONICAL)| ensures Slots(CANONICAL)[i].0 in CANONICAL {
        SlotsBelongToRows(CANONICAL, Slots(CANONICAL)[i]);
      }
      NothingMissing(Slots(CANONICAL), seen, SlotSet(proofs));
      assert forall slot: Slot :: slot in SlotSet(proofs) <==> Filled(slot, proofs);
    }
  }

  /** Every required slot is filled by exactly one proof, and that proof is valid. */
  lemma AcceptanceIsExactCover(proofs: seq<PhaseZeroProof>, row: RequiredEvidence, component: ProofComponent)
    returns (i: nat)
    requires GateVerdict(CANONICAL, proofs).Ok?
    requires row in CANONICAL && component in RequiredComponents(row)
    ensures i < |proofs| && SlotOf(proofs[i]) == (row, component) && ValidTypedProof(row, proofs[i])
    ensures forall j :: 0 <= j < |proofs| && SlotOf(proofs[j]) == (row, component) ==> j == i
  {
    hide GateVerdict, ValidTypedProof, AllRelated, RequiredComponents, DistinctSlots, CANONICAL;
    VerdictIsAcceptance(proofs);
    SlotsBelongToRows(CANONICAL, (row, component));
    assert Filled((row, component), proofs);
    i :| 0 <= i < |proofs| && SlotOf(proofs[i]) == (row, component);
    assert Admissible(CANONICAL, proofs[i]);
    forall j | 0 <= j < |proofs| && SlotOf(proofs[j]) == (row, component) ensures j == i {
      SlotFilledOnce(proofs, i, j);
    }
  }

  lemma SlotFilledOnce(proofs: seq<PhaseZeroProof>, i: nat, j: nat)
    requires DistinctSlots(proofs) && i < |proofs| && j < |proofs| && SlotOf(proofs[i]) == SlotOf(proofs[j])
    ensures i == j
  {
    var slots := SlotList(proofs);
    assert slots[i] == slots[j];
  }

  // ---- seventy-five ------------------------------------------------------------------

  /** Every proof is for a component its own row asks for. */
  ghost predicate OnTheirRows(proofs: seq<PhaseZeroProof>) {
    forall i :: 0 <= i < |proofs| ==> proofs[i].component in RequiredComponents(ClaimedRow(proofs[i]))
  }

  lemma ComponentsDiffer(row: RequiredEvidence, i: nat, j: nat)
    requires i < j < |RequiredComponents(row)|
    ensures RequiredComponents(row)[i] != RequiredComponents(row)[j]
  {
  }

  lemma {:induction false} SlotsAreDistinct(rows: seq<RequiredEvidence>)
    requires Distinct(rows)
    ensures Distinct(Slots(rows))
    decreases |rows|
  {
    hide RequiredComponents;
    if rows != [] {
      var row, rest := rows[0], rows[1..];
      assert forall i :: 0 <= i < |rest| ==> rest[i] == rows[i + 1];
      SlotsAreDistinct(rest);
      var components := RequiredComponents(row);
      var first, others := RowSlots(row, components), Slots(rest);
      forall i, j | 0 <= i < j < |first + others| ensures (first + others)[i] != (first + others)[j] {
        if j < |first| {
          ComponentsDiffer(row, i, j);
        } else if i < |first| {
          SlotsBelongToRows(rest, others[j - |first|]);
        }
      }
    }
  }

  function SlotCount(rows: seq<RequiredEvidence>): nat {
    if rows == [] then 0 else |RequiredComponents(rows[0])| + SlotCount(rows[1..])
  }

  lemma {:induction false} SlotsLength(rows: seq<RequiredEvidence>)
    ensures |Slots(rows)| == SlotCount(rows)
    decreases |rows|
  {
    if rows != [] {
      SlotsLength(rows[1..]);
    }
  }

  lemma {:induction false} SlotCountAppend(a: seq<RequiredEvidence>, b: seq<RequiredEvidence>)
    ensures SlotCount(a + b) == SlotCount(a) + SlotCount(b)
    decreases |a|
  {
    hide RequiredComponents;
    if a == [] {
      assert a + b == b;
    } else {
      assert (a + b)[1..] == a[1..] + b;
      SlotCountAppend(a[1..], b);
    }
  }

  lemma BlockCount(rows: seq<RequiredEvidence>)
    requires 5 <= |rows| <= 6
    ensures SlotCount(rows) ==
            |RequiredComponents(rows[0])| + |RequiredComponents(rows[1])| + |RequiredComponents(rows[2])|
            + |RequiredComponents(rows[3])| + |RequiredComponents(rows[4])|
            + if |rows| == 6 then |RequiredComponents(rows[5])| else 0
  {
    hide RequiredComponents;
    forall k | 0 <= k < |rows|
      ensures SlotCount(rows[k..]) == |RequiredComponents(rows[k])| + SlotCount(rows[k + 1..])
    {
      assert rows[k..][1..] == rows[k + 1..];
    }
    assert rows[0..] == rows && rows[|rows|..] == [];
    assert SlotCount(rows[4..]) == |RequiredComponents(rows[4])| + SlotCount(rows[5..]);
  }

  lemma MacosVtCount()
    ensures SlotCount(MACOS_VT) == 14
  {
    assert MACOS_VT[1].backend.value[0] == 'v';
    BlockCount(MACOS_VT);
    hide SlotCount;
  }

  lemma WindowsMfCount()
    ensures SlotCount(WINDOWS_MF) == 14
  {
    assert WINDOWS_MF[1].backend.value[0] == 'd';
    BlockCount(WINDOWS_MF);
    hide SlotCount;
  }

  lemma WindowsNvidiaCount()
    ensures SlotCount(WINDOWS_NVIDIA) == 11
  {
    assert WINDOWS_NVIDIA[1].backend.value[0] == 'n';
    BlockCount(WINDOWS_NVIDIA);
    hide SlotCount;
  }

  lemma LinuxWaylandCount()
    ensures SlotCount(LINUX_WAYLAND) == 14
  {
    assert LINUX_WAYLAND[1].backend.value[0] == 'v';
    BlockCount(LINUX_WAYLAND);
    hide SlotCount;
  }

  lemma LinuxX11Count()
    ensures SlotCount(LINUX_X11) == 11
  {
    assert LINUX_X11[1].backend.value[0] == 'v';
    BlockCount(LINUX_X11);
    hide SlotCount;
  }

  lemma LinuxNvidiaCount()
    ensures SlotCount(LINUX_NVIDIA) == 11
  {
    assert LINUX_NVIDIA[1].backend.value[0] == 'n';
    BlockCount(LINUX_NVIDIA);
    hide SlotCount;
  }

  lemma SumOfBlocks(a: seq<RequiredEvidence>, b: seq<RequiredEvidence>, c: seq<RequiredEvidence>,
                    d: seq<RequiredEvidence>, e: seq<RequiredEvidence>, f: seq<RequiredEvidence>)
    ensures SlotCount(a + b + c + d + e + f) ==
            SlotCount(a) + SlotCount(b) + SlotCount(c) + SlotCount(d) + SlotCount(e) + SlotCount(f)
  {
    hide SlotCount;
    SlotCountAppend(a, b);
    SlotCountAppend(a + b, c);
    SlotCountAppend(a + b + c, d);
    SlotCountAppend(a + b + c + d, e);
    SlotCountAppend(a + b + c + d + e, f);
  }

  lemma CanonicalSlotCount()
    ensures SlotCount(CANONICAL) == 75
  {
    hide SlotCount;
    MacosVtCount();
    WindowsMfCount();
    WindowsNvidiaCount();
    LinuxWaylandCount();
    LinuxX11Count();
    LinuxNvidiaCount();
    SumOfBlocks(MACOS_VT, WINDOWS_MF, WINDOWS_NVIDIA, LINUX_WAYLAND, LINUX_X11, LINUX_NVIDIA);
  }

  /** An accepted list has at least 75 records, and exactly 75 when and only when each of
      them is for a component of its own row. */
  lemma AcceptanceCounts(proofs: seq<PhaseZeroProof>)
    requires GateVerdict(CANONICAL, proofs).Ok?
    ensures |proofs| >= 75
    ensures |proofs| == 75 <==> OnTheirRows(proofs)
  {
    VerdictIsAcceptance(proofs);
    CanonicalIsDistinct();
    hide GateVerdict, ValidTypedProof, AllRelated, RequiredComponents, SlotCount, CANONICAL, Distinct;
    var filled, wanted := SlotList(proofs), Slots(CANONICAL);
    SlotsAreDistinct(CANONICAL);
    SlotsLength(CANONICAL);
    CanonicalSlotCount();
    CountsDistinct(filled);
    CountsDistinct(wanted);
    var filledSet, wantedSet := set slot | slot in filled, set slot | slot in wanted;
    forall slot | slot in wantedSet ensures slot in filledSet {
      var i :| 0 <= i < |proofs| && SlotOf(proofs[i]) == slot;
      assert filled[i] == slot;
    }
    WithinMeansFewer(wantedSet, filledSet);
    forall i | 0 <= i < |proofs|
      ensures SlotOf(proofs[i]) in wantedSet <==> proofs[i].component in RequiredComponents(ClaimedRow(proofs[i]))
    {
      assert Admissible(CANONICAL, proofs[i]);
      SlotsBelongToRows(CANONICAL, SlotOf(proofs[i]));
    }
    assert forall i :: 0 <= i < |proofs| ==> filled[i] == SlotOf(proofs[i]) && filled[i] in filled;
    assert filledSet <= wantedSet <==> OnTheirRows(proofs);
  }

  lemma WithinMeansFewer<T>(a: set<T>, b: set<T>)
    requires a <= b
    ensures |a| <= |b|
    ensures |a| == |b| <==> b <= a
  {
    assert b == a + (b - a);
    if b <= a {
      assert a == b;
    }
  }
}
