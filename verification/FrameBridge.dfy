/** The one-slot frame mailbox and the single pending UI closure
    (crates/spike-media/src/preview.rs and apps/ovayra-spike/src/preview_app.rs). */
module FrameBridge {
  import opened Prelude
  import opened Framing

  // ---- the shared objects, one atomic operation at a time ----------------------------

  /** `LatestFrame`: replacing a waiting frame drops it. The drop is counted in a second
      step, still under the lock. */
  class LatestFrame {
    var slot: Option<Frame>
    var dropped: nat

    constructor ()
      ensures slot == None && dropped == 0
    {
      slot, dropped := None, 0;
    }

    method Replace(frame: Frame) returns (replaced: bool)
      modifies this
      ensures slot == Some(frame) && dropped == old(dropped) && replaced == old(slot).Some?
    {
      replaced := slot.Some?;
      slot := Some(frame);
    }

    method CountDrop()
      modifies this
      ensures dropped == old(dropped) + 1 && slot == old(slot)
    {
      dropped := dropped + 1;
    }

    /** `publish`, as it looks from outside the lock: of the frames that were published
        and not taken, all but the last are counted as dropped. */
    method Publish(frame: Frame)
      modifies this
      ensures slot == Some(frame)
      ensures dropped == old(dropped) + if old(slot).Some? then 1 else 0
    {
      var replaced := Replace(frame);
      if replaced {
        CountDrop();
      }
    }

    method Take() returns (frame: Option<Frame>)
      modifies this
      ensures frame == old(slot) && slot == None && dropped == old(dropped)
    {
      frame := slot;
      slot := None;
    }
  }

  /** `ApplySchedule`: at most one UI closure is queued at a time. */
  class ApplySchedule {
    var queued: bool

    constructor ()
      ensures !queued
    {
      queued := false;
    }

    /** The atomic swap: true for the one caller that found the flag clear. */
    method TryQueue() returns (won: bool)
      modifies this
      ensures won == !old(queued) && queued
    {
      won := !queued;
      queued := true;
    }

    /** `complete` and `enter_ui_closure`. */
    method Clear()
      modifies this
      ensures !queued
    {
      queued := false;
    }
  }

  // ---- the protocol --------------------------------------------------------------------

  /** Where a publisher is between two of its atomic steps. */
  datatype Publisher =
    | Idle
    | Counted(frame: Frame)   // frames_read counted, about to publish
    | Replacing               // holds the slot lock and owes the drop counter one
    | Published               // about to try the flag
    | Reserved                // won the flag, about to submit the closure
    | Refused                 // the event loop refused the closure
    | Releasing               // counted the error, about to clear the flag

  /** Where the UI thread is between two of its atomic steps. */
  datatype Ui =
    | Waiting
    | Starting                // took the closure off the queue, flag not yet cleared
    | Entered(window: bool)   // flag cleared; whether the window handle could be upgraded
    | Holding(frame: Frame)   // took a frame out, about to record it

  /** Ghost counters sit beside the real ones: `published`, `taken`, and `unseen`, the frames
      taken out when the window was gone; `stranded` is set by a refusal. */
  datatype State = State(
    publishers: map<nat, Publisher>,
    slot: Option<Frame>,
    dropped: nat,
    queued: bool,
    waiting: nat,
    ui: Ui,
    framesRead: nat,
    framesApplied: nat,
    errors: nat,
    published: nat,
    taken: nat,
    applied: seq<Frame>,
    unseen: nat,
    stranded: bool)
  {
    function At(p: nat): Publisher { if p in publishers then publishers[p] else Idle }

    function Move(p: nat, to: Publisher): State { this.(publishers := publishers[p := to]) }
  }

  const START := State(map[], None, 0, false, 0, Waiting, 0, 0, 0, 0, 0, [], 0, false)

  /** The slot lock is free: nobody is between replacing a frame and counting the drop. */
  ghost predicate Unlocked(s: State) { forall p :: s.At(p) != Replacing }

  datatype Step =
    | Read(p: nat, frame: Frame)
    | Replace(p: nat)
    | CountDrop(p: nat)
    | TryQueue(p: nat)
    | Submit(p: nat, accepted: bool)
    | CountError(p: nat)
    | Release(p: nat)
    | UiPop
    | UiEnter(window: bool)
    | UiTake
    | UiRecord

  ghost predicate Enabled(s: State, step: Step) {
    match step
    case Read(p, _) => s.At(p) == Idle
    case Replace(p) => s.At(p).Counted? && Unlocked(s)
    case CountDrop(p) => s.At(p) == Replacing
    case TryQueue(p) => s.At(p) == Published
    case Submit(p, _) => s.At(p) == Reserved
    case CountError(p) => s.At(p) == Refused
    case Release(p) => s.At(p) == Releasing
    case UiPop => s.ui == Waiting && s.waiting > 0
    case UiEnter(_) => s.ui == Starting
    case UiTake => s.ui.Entered? && Unlocked(s)
    case UiRecord => s.ui.Holding?
  }

  /** The state after a step. The window handle and the slot are both evaluated before
      either is looked at, so a frame is taken out even when the window is gone. */
  ghost function Apply(s: State, step: Step): State
    requires Enabled(s, step)
  {
    match step
    case Read(p, frame) => s.(framesRead := s.framesRead + 1).Move(p, Counted(frame))
    case Replace(p) =>
      s.(slot := Some(s.At(p).frame), published := s.published + 1)
       .Move(p, if s.slot.Some? then Replacing else Published)
    case CountDrop(p) => s.(dropped := s.dropped + 1).Move(p, Published)
    case TryQueue(p) => s.(queued := true).Move(p, if s.queued then Idle else Reserved)
    case Submit(p, accepted) =>
      if accepted then s.(waiting := s.waiting + 1, stranded := false).Move(p, Idle) else s.Move(p, Refused)
    case CountError(p) => s.(errors := s.errors + 1).Move(p, Releasing)
    case Release(p) => s.(queued := false, stranded := true).Move(p, Idle)
    case UiPop => s.(waiting := s.waiting - 1, ui := Starting)
    case UiEnter(window) => s.(queued := false, ui := Entered(window))
    case UiTake =>
      var emptied := s.(slot := None, taken := s.taken + (if s.slot.Some? then 1 else 0),
                        unseen := s.unseen + (if s.slot.Some? && !s.ui.window then 1 else 0), stranded := false);
      if s.slot.Some? && s.ui.window then emptied.(ui := Holding(s.slot.value)) else emptied.(ui := Waiting)
    case UiRecord =>
      s.(framesApplied := s.framesApplied + 1, applied := s.applied + [s.ui.frame], ui := Waiting)
  }

  // ---- invariants -----------------------------------------------------------------------

  /** A publisher that owns the flag: it won it and has not handed it on yet. */
  predicate Owns(publisher: Publisher) {
    publisher.Reserved? || publisher.Refused? || publisher.Releasing?
  }

  /** The publishers in a state that satisfies `Owns`, and those that have counted a
      frame they have not published yet. */
  ghost function Owners(s: State): set<nat> { set p | p in s.publishers && Owns(s.publishers[p]) }

  ghost function Pending(s: State): set<nat> { set p | p in s.publishers && s.publishers[p].Counted? }

  ghost function Replacers(s: State): set<nat> { set p | p in s.publishers && s.publishers[p].Replacing? }

  /** Closures that are reserved, waiting in the event loop, or just taken off it. */
  ghost function Closures(s: State): nat {
    |Owners(s)| + s.waiting + if s.ui.Starting? then 1 else 0
  }

  /** The flag is set exactly while one closure is on its way, so there are never two. */
  ghost predicate OneClosure(s: State) {
    Closures(s) == if s.queued then 1 else 0
  }

  /** Somebody is going to see the frame in the slot. */
  ghost predicate Awaited(s: State) {
    || (exists p :: s.At(p) == Replacing || s.At(p) == Published)
    || Closures(s) > 0
    || s.ui.Entered?
    || s.stranded
  }

  ghost predicate NoLostWakeup(s: State) { s.slot.Some? ==> Awaited(s) }

  /** Every frame counted is on its way, in the slot, dropped, or taken out. */
  ghost predicate Conserved(s: State) {
    && PublishedConserved(s)
    && (s.errors == 0 ==> !s.stranded && forall p :: s.At(p) != Releasing)
    && s.framesApplied + (if s.ui.Holding? then 1 else 0) + s.unseen == s.taken
    && s.framesApplied == |s.applied|
  }

  ghost predicate PublishedConserved(s: State) {
    && s.framesRead == s.published + |Pending(s)|
    && s.published == s.taken + s.dropped + |Replacers(s)| + (if s.slot.Some? then 1 else 0)
    && |Replacers(s)| <= 1
  }

  ghost predicate Invariant(s: State) { OneClosure(s) && NoLostWakeup(s) && Conserved(s) }

  // ---- moving one publisher ---------------------------------------------------------------

  lemma MoveChangesOne(s: State, t: State, p: nat, to: Publisher)
    requires t.publishers == s.publishers[p := to]
    ensures Owners(t) == if Owns(to) then Owners(s) + {p} else Owners(s) - {p}
    ensures Pending(t) == if to.Counted? then Pending(s) + {p} else Pending(s) - {p}
    ensures Replacers(t) == if to.Replacing? then Replacers(s) + {p} else Replacers(s) - {p}
    ensures forall q :: t.At(q) == if q == p then to else s.At(q)
    ensures p in Owners(s) <==> Owns(s.At(p))
    ensures p in Pending(s) <==> s.At(p).Counted?
    ensures p in Replacers(s) <==> s.At(p).Replacing?
  {
  }

  /** The same in numbers: one publisher leaves what it was and joins what it becomes. */
  lemma MoveCounts(s: State, t: State, p: nat, to: Publisher)
    requires t.publishers == s.publishers[p := to]
    ensures |Owners(t)| == |Owners(s)| - (if Owns(s.At(p)) then 1 else 0) + (if Owns(to) then 1 else 0)
    ensures |Pending(t)| == |Pending(s)| - (if s.At(p).Counted? then 1 else 0) + (if to.Counted? then 1 else 0)
    ensures |Replacers(t)| == |Replacers(s)| - (if s.At(p).Replacing? then 1 else 0) + (if to.Replacing? then 1 else 0)
    ensures forall q :: t.At(q) == if q == p then to else s.At(q)
  {
    MoveChangesOne(s, t, p, to);
    hide Owners, Pending, Replacers;
    OneMoreOrLess(Owners(s), p);
    OneMoreOrLess(Pending(s), p);
    OneMoreOrLess(Replacers(s), p);
  }

  lemma OneMoreOrLess(xs: set<nat>, x: nat)
    ensures |xs + {x}| == |xs| + if x in xs then 0 else 1
    ensures |xs - {x}| == |xs| - if x in xs then 1 else 0
  {
    if x in xs {
      assert xs + {x} == xs;
    } else {
      assert xs - {x} == xs;
    }
  }

  lemma UnlockedHasNoReplacer(s: State)
    ensures Unlocked(s) <==> Replacers(s) == {}
  {
    assert forall p :: p in Replacers(s) <==> s.At(p) == Replacing;
  }

  // ---- every step keeps the invariants ------------------------------------------------------

  /** The publisher a step belongs to; the steps of the UI thread belong to nobody. */
  function Actor(step: Step): Option<nat> {
    match step
    case Read(p, _) => Some(p)
    case Replace(p) => Some(p)
    case CountDrop(p) => Some(p)
    case TryQueue(p) => Some(p)
    case Submit(p, _) => Some(p)
    case CountError(p) => Some(p)
    case Release(p) => Some(p)
    case _ => None
  }

  lemma StepCounts(s: State, step: Step)
    requires Enabled(s, step)
    ensures var t := Apply(s, step);
            match Actor(step)
            case Some(p) =>
              && t.publishers == s.publishers[p := t.At(p)]
              && |Owners(t)| == |Owners(s)| - (if Owns(s.At(p)) then 1 else 0) + (if Owns(t.At(p)) then 1 else 0)
              && |Pending(t)| ==
                 |Pending(s)| - (if s.At(p).Counted? then 1 else 0) + (if t.At(p).Counted? then 1 else 0)
              && |Replacers(t)| ==
                 |Replacers(s)| - (if s.At(p).Replacing? then 1 else 0) + (if t.At(p).Replacing? then 1 else 0)
              && forall q :: q != p ==> t.At(q) == s.At(q)
            case None =>
              && Owners(t) == Owners(s) && Pending(t) == Pending(s) && Replacers(t) == Replacers(s)
              && forall q :: t.At(q) == s.At(q)
  {
    hide Owners, Pending, Replacers;
    var t := Apply(s, step);
    if Actor(step).Some? {
      MoveCounts(s, t, Actor(step).value, t.At(Actor(step).value));
    } else {
      SamePublishers(s, t);
    }
  }

  lemma StepKeepsOneClosure(s: State, step: Step)
    requires OneClosure(s) && Enabled(s, step)
    ensures OneClosure(Apply(s, step))
  {
    StepCounts(s, step);
    hide Owners, Pending, Replacers;
  }

  lemma StepKeepsWakeup(s: State, step: Step)
    requires OneClosure(s) && NoLostWakeup(s) && Enabled(s, step)
    ensures NoLostWakeup(Apply(s, step))
  {
    StepKeepsOneClosure(s, step);
    hide Owners, Pending, Replacers;
    var t := Apply(s, step);
    match step
    case Read(p, frame) => MoveKeepsAwaited(s, t, p);
    case Replace(p) => assert t.At(p) == Replacing || t.At(p) == Published;
    case CountDrop(p) => assert t.At(p) == Published;
    case TryQueue(p) =>
    case Submit(p, accepted) =>
      if !accepted {
        MoveKeepsAwaited(s, t, p);
      }
    case CountError(p) => MoveKeepsAwaited(s, t, p);
    case Release(p) =>
    case UiPop => MoveKeepsAwaited(s, t, 0);
    case UiEnter(_) =>
    case UiTake =>
    case UiRecord => MoveKeepsAwaited(s, t, 0);
  }

  /** A step of a publisher that is not at its flag attempt, or of the UI outside the
      closure's first two steps, leaves a waiting frame awaited. */
  lemma MoveKeepsAwaited(s: State, t: State, p: nat)
    requires t.publishers == s.publishers || t.publishers == s.publishers[p := t.At(p)]
    requires t.publishers != s.publishers ==> s.At(p) != Replacing && s.At(p) != Published
    requires OneClosure(s) && OneClosure(t) && t.queued == s.queued && t.stranded == s.stranded
    requires s.ui.Entered? ==> t.ui.Entered?
    ensures Awaited(s) ==> Awaited(t)
  {
    hide Owners;
    if exists q :: s.At(q) == Replacing || s.At(q) == Published {
      var q :| s.At(q) == Replacing || s.At(q) == Published;
      assert t.At(q) == s.At(q);
    }
  }

  lemma StepKeepsConserved(s: State, step: Step)
    requires Conserved(s) && Enabled(s, step)
    ensures Conserved(Apply(s, step))
  {
    StepKeepsPublished(s, step);
    StepCounts(s, step);
    hide Owners, Pending, Replacers, PublishedConserved;
  }

  lemma StepKeepsPublished(s: State, step: Step)
    requires PublishedConserved(s) && Enabled(s, step)
    ensures PublishedConserved(Apply(s, step))
  {
    UnlockedHasNoReplacer(s);
    StepCounts(s, step);
    hide Owners, Pending, Replacers;
  }

  lemma SamePublishers(s: State, t: State)
    requires t.publishers == s.publishers
    ensures Owners(t) == Owners(s) && Pending(t) == Pending(s) && Replacers(t) == Replacers(s)
    ensures forall p :: t.At(p) == s.At(p)
  {
  }

  // ---- runs -----------------------------------------------------------------------------------

  /** A run: steps that are each enabled where they happen, in any interleaving. */
  ghost predicate IsRun(s: State, steps: seq<Step>)
    decreases |steps|
  {
    steps == [] || (Enabled(s, steps[0]) && IsRun(Apply(s, steps[0]), steps[1..]))
  }

  ghost function After(s: State, steps: seq<Step>): State
    requires IsRun(s, steps)
    decreases |steps|
  {
    if steps == [] then s else After(Apply(s, steps[0]), steps[1..])
  }

  lemma StartIsFine()
    ensures Invariant(START)
  {
    assert Owners(START) == {} && Pending(START) == {} && Replacers(START) == {};
  }

  lemma {:induction false} RunKeepsInvariant(s: State, steps: seq<Step>)
    requires Invariant(s) && IsRun(s, steps)
    ensures Invariant(After(s, steps))
    decreases |steps|
  {
    hide OneClosure, NoLostWakeup, Conserved, Enabled, Apply;
    if steps != [] {
      StepKeepsOneClosure(s, steps[0]);
      StepKeepsWakeup(s, steps[0]);
      StepKeepsConserved(s, steps[0]);
      RunKeepsInvariant(Apply(s, steps[0]), steps[1..]);
    }
  }

  /** No publisher is between two of its steps and no closure waits or runs. */
  ghost predicate Quiet(s: State) {
    (forall p :: s.At(p) == Idle) && s.waiting == 0 && s.ui == Waiting
  }

  /** In every interleaving of any number of publishers with the UI thread: the flag is
      set exactly while one closure is reserved, waiting or about to clear it, never two;
      frames are conserved; and what the acceptance gate asks of the counters holds. */
  lemma EveryInterleaving(steps: seq<Step>)
    requires IsRun(START, steps)
    ensures var s := After(START, steps);
            && OneClosure(s)
            && s.published == s.taken + s.dropped + |Replacers(s)| + (if s.slot.Some? then 1 else 0)
            && s.taken == s.framesApplied + (if s.ui.Holding? then 1 else 0) + s.unseen
            && s.framesApplied + s.dropped <= s.framesRead
            && (s.framesRead <= U64_MAX ==> (s.framesApplied + s.dropped) % (U64_MAX + 1) <= s.framesRead)
  {
    StartIsFine();
    RunKeepsInvariant(START, steps);
  }

  // ---- exactly when a frame is stranded -------------------------------------------------------

  /** What the event loop answered to the submissions of a run, in order. */
  ghost function Outcomes(steps: seq<Step>): seq<bool>
    decreases |steps|
  {
    if steps == [] then []
    else (if steps[0].Submit? then [steps[0].accepted] else []) + Outcomes(steps[1..])
  }

  predicate EndsRefused(outcomes: seq<bool>) { outcomes != [] && !outcomes[|outcomes| - 1] }

  /** Only the last submission can be one whose refusal is not over yet, or left a frame. */
  ghost predicate RefusalIsLast(s: State, refused: bool) {
    s.stranded || (exists p :: s.At(p) == Refused || s.At(p) == Releasing) ==> refused
  }

  lemma StepKeepsRefusalLast(s: State, step: Step, refused: bool)
    requires OneClosure(s) && Enabled(s, step) && RefusalIsLast(s, refused)
    ensures RefusalIsLast(Apply(s, step), if step.Submit? then !step.accepted else refused)
  {
    StepCounts(s, step);
    var t := Apply(s, step);
    if step.Submit? && step.accepted {
      hide OneClosure, Owners, Pending, Replacers;
      forall q ensures t.At(q) != Refused && t.At(q) != Releasing {
        if t.At(q) == Refused || t.At(q) == Releasing {
          OneOwner(s, step.p, q);
        }
      }
    }
    hide Owners, Pending, Replacers;
  }

  lemma OneOwner(s: State, p: nat, q: nat)
    requires OneClosure(s) && Owns(s.At(p)) && Owns(s.At(q))
    ensures p == q
  {
    assert {p, q} <= Owners(s);
    if p != q {
      SubsetCount({p, q}, Owners(s));
    }
  }

  lemma SubsetCount(xs: set<nat>, ys: set<nat>)
    requires xs <= ys
    ensures |xs| <= |ys|
  {
    assert ys == xs + (ys - xs);
  }

  lemma {:induction false} RunKeepsRefusalLast(s: State, steps: seq<Step>, before: seq<bool>)
    requires Invariant(s) && IsRun(s, steps) && RefusalIsLast(s, EndsRefused(before))
    ensures RefusalIsLast(After(s, steps), EndsRefused(before + Outcomes(steps)))
    decreases |steps|
  {
    hide OneClosure, NoLostWakeup, Conserved, Enabled, Apply, RefusalIsLast;
    if steps == [] {
      assert before + [] == before;
    } else {
      StepKeepsOneClosure(s, steps[0]);
      StepKeepsWakeup(s, steps[0]);
      StepKeepsConserved(s, steps[0]);
      StepKeepsRefusalLast(s, steps[0], EndsRefused(before));
      var answer := if steps[0].Submit? then [steps[0].accepted] else [];
      assert before + answer + Outcomes(steps[1..]) == before + Outcomes(steps);
      assert steps[0].Submit? || before + answer == before;
      RunKeepsRefusalLast(Apply(s, steps[0]), steps[1..], before + answer);
    }
  }

  ghost predicate SomeRefused(s: State) { exists p :: s.At(p) == Refused }

  /** The errors counted, and the one about to be. */
  ghost function ErrorsDue(s: State): nat { s.errors + if SomeRefused(s) then 1 else 0 }

  function Refusals(outcomes: seq<bool>): nat {
    if outcomes == [] then 0 else (if outcomes[0] then 0 else 1) + Refusals(outcomes[1..])
  }

  lemma StepCountsErrors(s: State, step: Step)
    requires OneClosure(s) && Enabled(s, step)
    ensures ErrorsDue(Apply(s, step)) == ErrorsDue(s) + if step.Submit? && !step.accepted then 1 else 0
  {
    StepCounts(s, step);
    var t := Apply(s, step);
    hide Owners, Pending, Replacers, OneClosure;
    match step
    case Submit(p, accepted) =>
      forall q ensures s.At(q) != Refused {
        if s.At(q) == Refused {
          OneOwner(s, p, q);
        }
      }
      if !accepted {
        assert t.At(p) == Refused;
      }
    case CountError(p) =>
      assert s.At(p) == Refused;
      forall q ensures t.At(q) != Refused {
        if s.At(q) == Refused {
          OneOwner(s, p, q);
        }
      }
    case _ => assert forall q :: t.At(q) == Refused <==> s.At(q) == Refused;
  }

  lemma {:induction false} RunCountsErrors(s: State, steps: seq<Step>)
    requires Invariant(s) && IsRun(s, steps)
    ensures ErrorsDue(After(s, steps)) == ErrorsDue(s) + Refusals(Outcomes(steps))
    decreases |steps|
  {
    hide OneClosure, NoLostWakeup, Conserved, Enabled, Apply, ErrorsDue;
    if steps != [] {
      StepKeepsOneClosure(s, steps[0]);
      StepKeepsWakeup(s, steps[0]);
      StepKeepsConserved(s, steps[0]);
      StepCountsErrors(s, steps[0]);
      RunCountsErrors(Apply(s, steps[0]), steps[1..]);
      var rest := Outcomes(steps[1..]);
      assert ([false] + rest)[1..] == rest && ([true] + rest)[1..] == rest && [] + rest == rest;
    }
  }

  /** At rest the errors counted are the refusals. */
  lemma ErrorsAreRefusals(steps: seq<Step>)
    requires IsRun(START, steps) && Quiet(After(START, steps))
    ensures After(START, steps).errors == Refusals(Outcomes(steps))
  {
    StartIsFine();
    RunCountsErrors(START, steps);
  }

  /** In a quiet system a frame is left in the slot only if the last submission to the
      event loop was refused, and no frame was taken out since. If none was ever refused,
      every frame read was taken or dropped. */
  lemma NoFrameIsStranded(steps: seq<Step>)
    requires IsRun(START, steps) && Quiet(After(START, steps))
    ensures var s := After(START, steps);
            && (s.slot.Some? ==> s.stranded && EndsRefused(Outcomes(steps)))
            && (s.errors == 0 ==> s.slot == None && s.taken + s.dropped == s.framesRead)
  {
    StartIsFine();
    RunKeepsInvariant(START, steps);
    RunKeepsRefusalLast(START, steps, []);
    assert [] + Outcomes(steps) == Outcomes(steps);
    hide Outcomes, IsRun, After;
    var s := After(START, steps);
    assert Owners(s) == {} && Pending(s) == {} && Replacers(s) == {} by {
      assert forall p :: p in s.publishers ==> s.At(p) == s.publishers[p];
    }
  }

  /** Publisher 0 is somewhere, and nothing else is on its way. */
  ghost predicate Alone(s: State, publisher: Publisher) {
    OthersIdle(s) && s.At(0) == publisher && s.waiting == 0 && s.ui == Waiting
  }

  ghost predicate OthersIdle(s: State) { forall p :: p != 0 ==> s.At(p) == Idle }

  lemma OthersStayIdle(s: State, step: Step)
    requires OthersIdle(s) && Enabled(s, step) && (Actor(step) == Some(0) || Actor(step) == None)
    ensures OthersIdle(Apply(s, step))
  {
    var t := Apply(s, step);
    assert forall p :: p != 0 ==> t.At(p) == s.At(p);
  }

  /** Publisher 0 publishes a frame, over a waiting one if there is one, and wins the flag. */
  lemma PublishAlone(s: State, frame: Frame) returns (steps: seq<Step>)
    requires Alone(s, Idle) && !s.queued
    ensures IsRun(s, steps) && Outcomes(steps) == []
    ensures var t := After(s, steps); Alone(t, Reserved) && t.slot == Some(frame) && t.errors == s.errors
  {
    hide IsRun, After, Outcomes;
    OthersStayIdle(s, Read(0, frame));
    var read := Apply(s, Read(0, frame));
    assert read.At(0) == Counted(frame) && Unlocked(read);
    OthersStayIdle(read, Replace(0));
    var published := Apply(read, Replace(0));
    if s.slot.Some? {
      OthersStayIdle(published, CountDrop(0));
    }
    var counted := if s.slot.Some? then Apply(published, CountDrop(0)) else published;
    OthersStayIdle(counted, TryQueue(0));
    hide OthersIdle;
    RunNothing(Apply(counted, TryQueue(0)));
    steps := RunPrepend(counted, TryQueue(0), []);
    if s.slot.Some? {
      steps := RunPrepend(published, CountDrop(0), steps);
    }
    steps := RunPrepend(read, Replace(0), steps);
    steps := RunPrepend(s, Read(0, frame), steps);
  }

  /** The closure is refused, and publisher 0 clears the flag without looking at the slot. */
  lemma RefusedAlone(s: State) returns (steps: seq<Step>)
    requires Alone(s, Reserved)
    ensures IsRun(s, steps) && Outcomes(steps) == [false]
    ensures var t := After(s, steps); Alone(t, Idle) && !t.queued && t.slot == s.slot && t.errors == s.errors + 1
  {
    hide IsRun, After, Outcomes;
    OthersStayIdle(s, Submit(0, false));
    var refused := Apply(s, Submit(0, false));
    OthersStayIdle(refused, CountError(0));
    var counted := Apply(refused, CountError(0));
    OthersStayIdle(counted, Release(0));
    hide OthersIdle;
    RunNothing(Apply(counted, Release(0)));
    steps := RunPrepend(counted, Release(0), []);
    steps := RunPrepend(refused, CountError(0), steps);
    steps := RunPrepend(s, Submit(0, false), steps);
  }

  /** The closure is accepted, and takes the frame out. */
  lemma AcceptedAlone(s: State) returns (steps: seq<Step>)
    requires Alone(s, Reserved)
    ensures IsRun(s, steps) && Outcomes(steps) == [true]
    ensures var t := After(s, steps); Alone(t, Idle) && !t.queued && t.slot == None
  {
    hide IsRun, After, Outcomes;
    OthersStayIdle(s, Submit(0, true));
    var accepted := Apply(s, Submit(0, true));
    OthersStayIdle(accepted, UiPop);
    var popped := Apply(accepted, UiPop);
    OthersStayIdle(popped, UiEnter(false));
    var entered := Apply(popped, UiEnter(false));
    assert Unlocked(entered);
    OthersStayIdle(entered, UiTake);
    hide OthersIdle;
    RunNothing(Apply(entered, UiTake));
    steps := RunPrepend(entered, UiTake, []);
    steps := RunPrepend(popped, UiEnter(false), steps);
    steps := RunPrepend(accepted, UiPop, steps);
    steps := RunPrepend(s, Submit(0, true), steps);
  }

  /** One frame published by publisher 0 alone, with the given answer of the event loop. */
  lemma OneFrameAlone(s: State, frame: Frame, accepted: bool) returns (steps: seq<Step>)
    requires Alone(s, Idle) && !s.queued
    ensures IsRun(s, steps) && Outcomes(steps) == [accepted]
    ensures var t := After(s, steps);
            && Alone(t, Idle) && !t.queued && t.slot == (if accepted then None else Some(frame))
            && (!accepted ==> t.errors == s.errors + 1)
  {
    hide Alone, IsRun, After, Outcomes;
    var first := PublishAlone(s, frame);
    var rest: seq<Step>;
    if accepted {
      rest := AcceptedAlone(After(s, first));
    } else {
      rest := RefusedAlone(After(s, first));
    }
    RunAppend(s, first, rest);
    steps := first + rest;
  }

  const BLANK := Frame(PREVIEW_WIDTH, PREVIEW_HEIGHT, seq(PREVIEW_FRAME_BYTES, _ => 0), 1)

  /** Any answers of the event loop can come about in a run that ends in a quiet system,
      with a frame in the slot if the last answer is a refusal. */
  lemma {:induction false} QuietRunAlone(s: State, outcomes: seq<bool>) returns (steps: seq<Step>)
    requires Alone(s, Idle) && !s.queued
    ensures IsRun(s, steps) && Outcomes(steps) == outcomes && Quiet(After(s, steps))
    ensures After(s, steps).slot.Some? <==> if outcomes == [] then s.slot.Some? else EndsRefused(outcomes)
    decreases |outcomes|
  {
    if outcomes == [] {
      steps := [];
    } else {
      hide Alone, IsRun, After, Outcomes, Quiet;
      var first := OneFrameAlone(s, BLANK, outcomes[0]);
      var t := After(s, first);
      var rest := QuietRunAlone(t, outcomes[1..]);
      RunAppend(s, first, rest);
      steps := first + rest;
      assert [outcomes[0]] + outcomes[1..] == outcomes;
    }
  }

  /** What the event loop answered to the submissions decides whether a frame can be left
      behind: a quiet system is sure to have an empty slot exactly when the last submission
      was not refused. */
  lemma QuietMeansEmptyExactly(outcomes: seq<bool>)
    ensures (forall steps :: IsRun(START, steps) && Outcomes(steps) == outcomes && Quiet(After(START, steps))
                             ==> After(START, steps).slot == None)
            <==> !EndsRefused(outcomes)
  {
    hide IsRun, After, Outcomes, Quiet;
    forall steps | IsRun(START, steps) && Outcomes(steps) == outcomes && Quiet(After(START, steps))
      ensures !EndsRefused(outcomes) ==> After(START, steps).slot == None
    {
      NoFrameIsStranded(steps);
    }
    var run := QuietRunAlone(START, outcomes);
  }

  /** A refused submission really can leave a frame behind: the flag is cleared without
      looking at the slot again, and only the next frame wakes the UI thread. */
  lemma RefusalStrandsAFrame(frame: Frame) returns (steps: seq<Step>)
    ensures IsRun(START, steps) && Quiet(After(START, steps))
    ensures After(START, steps).slot == Some(frame) && After(START, steps).errors == 1
  {
    hide IsRun, After;
    steps := OneFrameAlone(START, frame, false);
  }

  // ---- putting runs together --------------------------------------------------------------------

  lemma RunNothing(s: State)
    ensures IsRun(s, []) && After(s, []) == s && Outcomes([]) == []
  {
  }

  function Answered(step: Step): seq<bool> { if step.Submit? then [step.accepted] else [] }

  lemma RunCons(s: State, step: Step, rest: seq<Step>)
    ensures IsRun(s, [step] + rest) <==> Enabled(s, step) && IsRun(Apply(s, step), rest)
    ensures IsRun(s, [step] + rest) ==> After(s, [step] + rest) == After(Apply(s, step), rest)
    ensures Outcomes([step] + rest) == Answered(step) + Outcomes(rest)
  {
    hide Enabled, Apply;
    assert ([step] + rest)[1..] == rest;
  }

  lemma RunPrepend(s: State, step: Step, rest: seq<Step>) returns (steps: seq<Step>)
    requires Enabled(s, step) && IsRun(Apply(s, step), rest)
    ensures IsRun(s, steps) && After(s, steps) == After(Apply(s, step), rest)
    ensures Outcomes(steps) == Answered(step) + Outcomes(rest)
  {
    hide Enabled, Apply, IsRun, After, Outcomes;
    RunCons(s, step, rest);
    steps := [step] + rest;
  }

  lemma {:induction false} RunAppend(s: State, first: seq<Step>, rest: seq<Step>)
    requires IsRun(s, first) && IsRun(After(s, first), rest)
    ensures IsRun(s, first + rest) && After(s, first + rest) == After(After(s, first), rest)
    ensures Outcomes(first + rest) == Outcomes(first) + Outcomes(rest)
    decreases |first|
  {
    hide *;
    if first == [] {
      RunNothing(s);
      assert [] + rest == rest && [] + Outcomes(rest) == Outcomes(rest);
    } else {
      var step, tail := first[0], first[1..];
      assert first == [step] + tail && first + rest == [step] + (tail + rest);
      RunCons(s, step, tail);
      RunAppend(Apply(s, step), tail, rest);
      RunCons(s, step, tail + rest);
      assert Answered(step) + Outcomes(tail) + Outcomes(rest) == Answered(step) + (Outcomes(tail) + Outcomes(rest));
    }
  }

  // ---- one reader -------------------------------------------------------------------------------

  /** The frame with this number, counted from one, among those the reader is given. */
  predicate IsNth(frames: seq<Frame>, frame: Frame, number: nat) {
    0 < number <= |frames| && frame == frames[number - 1]
  }

  /** The reader thread is publisher 0 and publishes the frames it is given, one by one. */
  ghost predicate ByOneReader(s: State, steps: seq<Step>, frames: seq<Frame>)
    requires IsRun(s, steps)
    decreases |steps|
  {
    steps == [] ||
      ((steps[0].Read? ==> steps[0].p == 0 && IsNth(frames, steps[0].frame, s.framesRead + 1))
       && ByOneReader(Apply(s, steps[0]), steps[1..], frames))
  }

  ghost predicate Increasing(xs: seq<nat>) { forall i, j :: 0 <= i < j < |xs| ==> xs[i] < xs[j] }

  ghost predicate AllBelow(xs: seq<nat>, bound: nat) { forall i :: 0 <= i < |xs| ==> xs[i] < bound }

  /** The numbers of the frame published last, the frame held and the frames applied. */
  datatype Numbers = Numbers(last: nat, held: nat, applied: seq<nat>)

  ghost function Renumber(s: State, n: Numbers, step: Step): Numbers {
    match step
    case Replace(_) => n.(last := s.framesRead)
    case UiTake => n.(held := n.last)
    case UiRecord => n.(applied := n.applied + [n.held])
    case _ => n
  }

  /** The publisher's side: only publisher 0 is at work, on the frame it counted last, and
      the slot holds the one published last. */
  ghost predicate ReaderInOrder(s: State, frames: seq<Frame>, n: Numbers) {
    && OthersIdle(s)
    && n.last <= s.framesRead
    && (if s.At(0).Counted? then IsNth(frames, s.At(0).frame, s.framesRead) && n.last < s.framesRead
        else n.last == s.framesRead)
    && (s.slot.Some? ==> IsNth(frames, s.slot.value, n.last))
  }

  /** The UI's side: applied, held and waiting frames follow each other. */
  ghost predicate UiInOrder(s: State, frames: seq<Frame>, n: Numbers) {
    && Increasing(n.applied) && AllBelow(n.applied, n.last + 1)
    && (s.ui.Holding? ==> n.held <= n.last && IsNth(frames, s.ui.frame, n.held) && AllBelow(n.applied, n.held))
    && (s.slot.Some? ==> AllBelow(n.applied, n.last) && (s.ui.Holding? ==> n.held < n.last))
    && (s.slot.None? && n.last > 0 && s.unseen == 0 ==>
          if s.ui.Holding? then n.held == n.last else EndsWith(n.applied, n.last))
  }

  ghost predicate EndsWith(xs: seq<nat>, x: nat) { xs != [] && xs[|xs| - 1] == x }

  ghost predicate AreApplied(s: State, frames: seq<Frame>, n: Numbers) {
    && |n.applied| == |s.applied|
    && forall i :: 0 <= i < |s.applied| ==> IsNth(frames, s.applied[i], n.applied[i])
  }

  ghost predicate Ordered(s: State, frames: seq<Frame>, n: Numbers) {
    ReaderInOrder(s, frames, n) && UiInOrder(s, frames, n) && AreApplied(s, frames, n)
  }

  ghost predicate FromReader(s: State, step: Step, frames: seq<Frame>) {
    step.Read? ==> step.p == 0 && IsNth(frames, step.frame, s.framesRead + 1)
  }

  lemma StepKeepsReaderInOrder(s: State, step: Step, frames: seq<Frame>, n: Numbers)
    requires ReaderInOrder(s, frames, n) && Enabled(s, step) && FromReader(s, step, frames)
    ensures ReaderInOrder(Apply(s, step), frames, Renumber(s, n, step))
  {
    hide IsNth;
    var t := Apply(s, step);
    assert Actor(step).Some? ==> s.At(Actor(step).value) != Idle || step.Read?;
    assert Actor(step) == None || Actor(step) == Some(0);
    OthersStayIdle(s, step);
    hide OthersIdle;
  }

  lemma StepKeepsUiInOrder(s: State, step: Step, frames: seq<Frame>, n: Numbers)
    requires ReaderInOrder(s, frames, n) && UiInOrder(s, frames, n) && Enabled(s, step)
    ensures UiInOrder(Apply(s, step), frames, Renumber(s, n, step))
  {
    hide IsNth;
    match step
    case Replace(p) => PublishedInOrder(s, p, frames, n);
    case UiTake => hide Increasing, AllBelow;
    case UiRecord => AppendNumber(n.applied, n.held);
    case _ => hide Increasing, AllBelow;
  }

  lemma PublishedInOrder(s: State, p: nat, frames: seq<Frame>, n: Numbers)
    requires ReaderInOrder(s, frames, n) && UiInOrder(s, frames, n) && Enabled(s, Replace(p))
    ensures UiInOrder(Apply(s, Replace(p)), frames, n.(last := s.framesRead))
  {
    hide IsNth, Increasing;
    assert p == 0;
  }

  lemma AppendNumber(xs: seq<nat>, x: nat)
    requires Increasing(xs) && AllBelow(xs, x)
    ensures EndsWith(xs + [x], x)
    ensures Increasing(xs + [x]) && forall bound :: AllBelow(xs, bound) && x < bound ==> AllBelow(xs + [x], bound)
  {
  }

  lemma StepKeepsApplied(s: State, step: Step, frames: seq<Frame>, n: Numbers)
    requires UiInOrder(s, frames, n) && AreApplied(s, frames, n) && Enabled(s, step)
    ensures AreApplied(Apply(s, step), frames, Renumber(s, n, step))
  {
    hide IsNth, Increasing, AllBelow;
  }

  lemma {:induction false} RunKeepsOrdered(s: State, steps: seq<Step>, frames: seq<Frame>, n: Numbers)
    returns (m: Numbers)
    requires Ordered(s, frames, n) && IsRun(s, steps) && ByOneReader(s, steps, frames)
    ensures Ordered(After(s, steps), frames, m)
    decreases |steps|
  {
    hide ReaderInOrder, UiInOrder, AreApplied, IsNth, Enabled, Apply, Renumber;
    m := n;
    if steps != [] {
      StepKeepsReaderInOrder(s, steps[0], frames, n);
      StepKeepsUiInOrder(s, steps[0], frames, n);
      StepKeepsApplied(s, steps[0], frames, n);
      m := RunKeepsOrdered(Apply(s, steps[0]), steps[1..], frames, Renumber(s, n, steps[0]));
    }
  }

  /** Every closure of the run finds the window. */
  predicate WindowStays(steps: seq<Step>) { forall i :: 0 <= i < |steps| && steps[i].UiEnter? ==> steps[i].window }

  lemma {:induction false} WindowStaysSeen(s: State, steps: seq<Step>)
    requires IsRun(s, steps) && WindowStays(steps) && s.unseen == 0 && (s.ui.Entered? ==> s.ui.window)
    ensures After(s, steps).unseen == 0
    decreases |steps|
  {
    if steps != [] {
      assert steps[0].UiEnter? ==> steps[0].window;
      var t := Apply(s, steps[0]);
      assert t.unseen == 0 && (t.ui.Entered? ==> t.ui.window);
      forall i | 0 <= i < |steps[1..]| && steps[1..][i].UiEnter? ensures steps[1..][i].window {
        assert steps[1..][i] == steps[i + 1];
      }
      hide Apply, Enabled, WindowStays;
      WindowStaysSeen(t, steps[1..]);
    }
  }

  /** At rest every frame read was applied, dropped, taken when the window was gone, or is in
      the slot; if every closure found the window, none was taken in vain. */
  lemma EveryFrameIsAccountedFor(steps: seq<Step>)
    requires IsRun(START, steps) && Quiet(After(START, steps))
    ensures var s := After(START, steps);
            && s.framesApplied + s.dropped + s.unseen + (if s.slot.Some? then 1 else 0) == s.framesRead
            && s.framesApplied == |s.applied|
            && (WindowStays(steps) ==> s.unseen == 0)
  {
    StartIsFine();
    RunKeepsInvariant(START, steps);
    if WindowStays(steps) {
      WindowStaysSeen(START, steps);
    }
    hide IsRun, After, WindowStays;
    QuietHasNoOwners(After(START, steps));
  }

  lemma QuietHasNoOwners(s: State)
    requires Quiet(s)
    ensures Owners(s) == {} && Pending(s) == {} && Replacers(s) == {}
  {
    assert forall p :: p in s.publishers ==> s.At(p) == s.publishers[p];
  }

  /** With the single reader, if the last submission was not refused and every closure found
      the window, then at rest the frame shown last is the frame read last. */
  lemma LastReadIsShown(steps: seq<Step>, frames: seq<Frame>)
    requires IsRun(START, steps) && ByOneReader(START, steps, frames) && Quiet(After(START, steps))
    requires !EndsRefused(Outcomes(steps)) && WindowStays(steps)
    ensures var s := After(START, steps);
            s.framesRead > 0 ==>
              && s.framesRead <= |frames|
              && s.applied != [] && s.applied[|s.applied| - 1] == frames[s.framesRead - 1]
  {
    NoFrameIsStranded(steps);
    WindowStaysSeen(START, steps);
    hide IsRun, After, ByOneReader, Outcomes, WindowStays;
    assert Ordered(START, frames, Numbers(0, 0, []));
    var n := RunKeepsOrdered(START, steps, frames, Numbers(0, 0, []));
  }

  /** With the single reader, the applied frames are frames it was given, in the same order
      and none twice. */
  lemma AppliedInOrder(steps: seq<Step>, frames: seq<Frame>) returns (numbers: seq<nat>)
    requires IsRun(START, steps) && ByOneReader(START, steps, frames)
    ensures var applied := After(START, steps).applied;
            && |numbers| == |applied| && Increasing(numbers)
            && forall i :: 0 <= i < |applied| ==> IsNth(frames, applied[i], numbers[i])
  {
    hide IsRun, After, ByOneReader;
    var n := RunKeepsOrdered(START, steps, frames, Numbers(0, 0, []));
    numbers := n.applied;
  }

  /** Read and shown: if the reader is given the frames cut from the child's output, every
      applied frame is a block of that output, later ones later in it, and as long as the
      counter of the reader does not saturate so are their sequence numbers. */
  lemma AppliedAreBlocks(steps: seq<Step>, frames: seq<Frame>, stream: seq<byte>) returns (numbers: seq<nat>)
    requires IsRun(START, steps) && ByOneReader(START, steps, frames) && AreBlocks(stream, frames)
    ensures var applied := After(START, steps).applied;
            && |numbers| == |applied| && Increasing(numbers)
            && (forall i :: 0 <= i < |applied| ==>
                  0 < numbers[i] <= |frames| && numbers[i] * PREVIEW_FRAME_BYTES <= |stream|
                  && applied[i] == Block(stream, numbers[i] - 1))
            && (|frames| <= U64_MAX ==>
                  forall i, j :: 0 <= i < j < |applied| ==> applied[i].sequence < applied[j].sequence)
  {
    hide IsRun, After, ByOneReader;
    numbers := AppliedInOrder(steps, frames);
    var applied := After(START, steps).applied;
    forall i | 0 <= i < |applied|
      ensures 0 < numbers[i] <= |frames| && numbers[i] * PREVIEW_FRAME_BYTES <= |stream|
      ensures applied[i] == Block(stream, numbers[i] - 1) && applied[i].sequence == Min(numbers[i], U64_MAX)
    {
      NthIsBlock(frames, stream, applied[i], numbers[i]);
    }
    hide Block, AreBlocks, IsNth, PREVIEW_FRAME_BYTES;
  }

  lemma NthIsBlock(frames: seq<Frame>, stream: seq<byte>, frame: Frame, number: nat)
    requires AreBlocks(stream, frames) && IsNth(frames, frame, number)
    ensures number * PREVIEW_FRAME_BYTES <= |stream| && frame == Block(stream, number - 1)
    ensures frame.sequence == Min(number, U64_MAX)
  {
    hide PREVIEW_FRAME_BYTES;
  }

  // ---- the objects carry out the protocol ----------------------------------------------------------

  /** The bridge with its two shared objects; the program counters of the publishers and
      of the UI thread are fields so that any interleaving can be played on it. */
  class Bridge {
    const latest: LatestFrame
    const schedule: ApplySchedule
    var publishers: map<nat, Publisher>
    var waiting: nat
    var ui: Ui
    var framesRead: nat
    var framesApplied: nat
    var errors: nat
    ghost var published: nat
    ghost var taken: nat
    ghost var applied: seq<Frame>
    ghost var unseen: nat
    ghost var stranded: bool

    ghost function Model(): State
      reads this, latest, schedule
    {
      State(publishers, latest.slot, latest.dropped, schedule.queued, waiting, ui, framesRead, framesApplied,
        errors, published, taken, applied, unseen, stranded)
    }

    constructor ()
      ensures Model() == START && fresh(latest) && fresh(schedule)
    {
      latest := new LatestFrame();
      schedule := new ApplySchedule();
      publishers, waiting, ui := map[], 0, Waiting;
      framesRead, framesApplied, errors := 0, 0, 0;
      published, taken, applied, unseen, stranded := 0, 0, [], 0, false;
    }

    /** The publisher's side, one atomic step at a time. */
    method Publisher(step: Step)
      requires Enabled(Model(), step)
      requires !step.UiPop? && !step.UiEnter? && !step.UiTake? && !step.UiRecord?
      modifies this, latest, schedule
      ensures Model() == Apply(old(Model()), step)
    {
      match step {
        case Read(p, frame) =>
          framesRead := framesRead + 1;
          publishers := publishers[p := Counted(frame)];
        case Replace(p) =>
          var frame := publishers[p].frame;
          var replaced := latest.Replace(frame);
          published := published + 1;
          publishers := publishers[p := if replaced then Replacing else Published];
        case CountDrop(p) =>
          latest.CountDrop();
          publishers := publishers[p := Published];
        case TryQueue(p) =>
          var won := schedule.TryQueue();
          publishers := publishers[p := if won then Reserved else Idle];
        case Submit(p, accepted) =>
          if accepted {
            waiting, stranded := waiting + 1, false;
          }
          publishers := publishers[p := if accepted then Idle else Refused];
        case CountError(p) =>
          errors := errors + 1;
          publishers := publishers[p := Releasing];
        case Release(p) =>
          schedule.Clear();
          stranded := true;
          publishers := publishers[p := Idle];
      }
    }

    /** The UI closure, one atomic step at a time. */
    method UiThread(step: Step)
      requires Enabled(Model(), step)
      requires step.UiPop? || step.UiEnter? || step.UiTake? || step.UiRecord?
      modifies this, latest, schedule
      ensures Model() == Apply(old(Model()), step)
    {
      match step {
        case UiPop =>
          waiting, ui := waiting - 1, Starting;
        case UiEnter(window) =>
          schedule.Clear();
          ui := Entered(window);
        case UiTake =>
          var window := ui.window;
          var frame := latest.Take();
          taken, stranded := taken + (if frame.Some? then 1 else 0), false;
          unseen := unseen + (if frame.Some? && !window then 1 else 0);
          ui := if frame.Some? && window then Holding(frame.value) else Waiting;
        case UiRecord =>
          framesApplied := framesApplied + 1;
          applied := applied + [ui.frame];
          ui := Waiting;
      }
    }
  }
}
