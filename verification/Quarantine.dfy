/** The two-attempt execution policy and the process-wide hardware quarantine
    (crates/spike-media/src/capability.rs). */
module Quarantine {
  import opened Prelude

  datatype Backend = VideoToolbox | D3d11vaMf | NvencNvdec | Vaapi | Cpu

  datatype DowngradeCode =
    | ProbeFailed | SpawnFailed | TimedOut | NonZeroExit | MissingFrames | InvalidFfprobe | Failed
    | HardwareQuarantined

  datatype AttemptOutcome =
    | Succeeded
    | DidNotProbe | DidNotSpawn | RanOutOfTime | ExitedNonZero | LackedFrames | GaveBadFfprobe
    | FailedBecause(reason: string)

  function CodeOf(outcome: AttemptOutcome): Option<DowngradeCode> {
    match outcome
    case Succeeded => None
    case DidNotProbe => Some(ProbeFailed)
    case DidNotSpawn => Some(SpawnFailed)
    case RanOutOfTime => Some(TimedOut)
    case ExitedNonZero => Some(NonZeroExit)
    case LackedFrames => Some(MissingFrames)
    case GaveBadFfprobe => Some(InvalidFfprobe)
    case FailedBecause(_) => Some(Failed)
  }

  /** Each code stands for one failure, so that the failure can be read off it. */
  lemma CodesAreThese(outcome: AttemptOutcome)
    ensures CodeOf(outcome) == None <==> outcome.Succeeded?
    ensures CodeOf(outcome) == Some(ProbeFailed) <==> outcome.DidNotProbe?
    ensures CodeOf(outcome) == Some(SpawnFailed) <==> outcome.DidNotSpawn?
    ensures CodeOf(outcome) == Some(TimedOut) <==> outcome.RanOutOfTime?
    ensures CodeOf(outcome) == Some(NonZeroExit) <==> outcome.ExitedNonZero?
    ensures CodeOf(outcome) == Some(MissingFrames) <==> outcome.LackedFrames?
    ensures CodeOf(outcome) == Some(InvalidFfprobe) <==> outcome.GaveBadFfprobe?
    ensures CodeOf(outcome) == Some(Failed) <==> outcome.FailedBecause?
    ensures CodeOf(outcome) != Some(HardwareQuarantined)
  {
  }

  // ---- the bounded reason ----------------------------------------------------------------

  const MAX_REASON_BYTES := 512

  /** `char::len_utf8`. */
  function CharBytes(c: char): (n: nat)
    ensures 1 <= n <= 4
  {
    if c < '\U{80}' then 1 else if c < '\U{800}' then 2 else if c < '\U{10000}' then 3 else 4
  }

  /** The length of a text in UTF-8. */
  function Bytes(text: string): nat {
    if text == "" then 0 else Bytes(text[..|text| - 1]) + CharBytes(text[|text| - 1])
  }

  lemma {:induction false} BytesGrow(text: string, n: nat)
    requires n <= |text|
    ensures Bytes(text[..n]) <= Bytes(text)
    decreases |text|
  {
    if n == |text| {
      assert text[..n] == text;
    } else {
      var init := text[..|text| - 1];
      assert init[..n] == text[..n];
      BytesGrow(init, n);
    }
  }

  /** The longest prefix of whole characters that fits the bound. */
  function Bounded(reason: string): (r: string)
    ensures r <= reason && Bytes(r) <= MAX_REASON_BYTES
    ensures Bytes(reason) <= MAX_REASON_BYTES ==> r == reason
  {
    if Bytes(reason) <= MAX_REASON_BYTES then reason else Bounded(reason[..|reason| - 1])
  }

  lemma {:induction false} BoundedIsLongest(reason: string, n: nat)
    requires n <= |reason| && Bytes(reason[..n]) <= MAX_REASON_BYTES
    ensures n <= |Bounded(reason)|
    decreases |reason|
  {
    assert reason[..|reason|] == reason;
    if n < |reason| && Bytes(reason) > MAX_REASON_BYTES {
      assert reason[..|reason| - 1][..n] == reason[..n];
      BoundedIsLongest(reason[..|reason| - 1], n);
    }
  }

  /** `bound_reason`. */
  method BoundReason(reason: string) returns (r: string)
    ensures r == Bounded(reason)
  {
    if Bytes(reason) <= MAX_REASON_BYTES {
      return reason;
    }
    var end := 0;
    ghost var bytes := 0;
    var i := 0;
    var index := 0;
    while i < |reason|
      invariant end == i <= |reason| && index == Bytes(reason[..end]) <= MAX_REASON_BYTES
      decreases |reason| - i
    {
      assert reason[..i + 1][..i] == reason[..i];
      var next := index + CharBytes(reason[i]);
      if next > MAX_REASON_BYTES {
        break;
      }
      i := i + 1;
      index := next;
      end := i;
    }
    assert reason[..|reason|] == reason;
    CutIsBounded(reason, end);
    return reason[..end];
  }

  /** A prefix that fits, and with one character more does not, is the bounded one. */
  lemma CutIsBounded(reason: string, end: nat)
    requires end <= |reason| && Bytes(reason[..end]) <= MAX_REASON_BYTES
    requires end < |reason| ==> Bytes(reason[..end + 1]) > MAX_REASON_BYTES
    ensures reason[..end] == Bounded(reason)
  {
    hide Bounded, Bytes;
    BoundedIsLongest(reason, end);
    var longest := |Bounded(reason)|;
    assert reason[..longest] == Bounded(reason);
    if end < |reason| {
      PrefixesGrow(reason, end + 1, longest);
    }
  }

  lemma PrefixesGrow(reason: string, m: nat, n: nat)
    requires m <= |reason| && n <= |reason|
    ensures m <= n ==> Bytes(reason[..m]) <= Bytes(reason[..n])
  {
    hide Bytes;
    if m <= n {
      assert reason[..n][..m] == reason[..m];
      BytesGrow(reason[..n], m);
    }
  }

  // ---- the policy ------------------------------------------------------------------------

  datatype Policy = Policy(
    requested: Backend,
    scheduled: Option<Backend>,
    actual: Option<Backend>,
    code: Option<DowngradeCode>,
    reason: Option<string>,
    started: nat,
    quarantined: bool,
    shared: bool)

  function BackendBit(backend: Backend): bv8 {
    match backend
    case VideoToolbox => 1
    case D3d11vaMf => 2
    case NvencNvdec => 4
    case Vaapi => 8
    case Cpu => 0
  }

  predicate Holds(mask: bv8, backend: Backend) { mask & BackendBit(backend) != 0 }

  lemma BitIsOwn(mask: bv8, added: Backend, asked: Backend)
    requires added != Cpu
    ensures Holds(mask | BackendBit(added), asked) <==> Holds(mask, asked) || asked == added
    ensures !Holds(0, asked)
  {
  }

  /** `ExecutionPolicy::new`. */
  function Fresh(mask: bv8, backend: Backend, shared: bool): Policy {
    var quarantined := shared && Holds(mask, backend);
    Policy(backend, Some(if quarantined then Cpu else backend), None,
           if quarantined then Some(HardwareQuarantined) else None, None, 1, quarantined, shared)
  }

  /** What one observation makes of the policy. */
  function Observed(p: Policy, outcome: AttemptOutcome): Policy {
    if p.scheduled == None then p
    else if outcome == Succeeded then p.(actual := p.scheduled, scheduled := None)
    else if p.scheduled == Some(Cpu) then p.(scheduled := None)
    else p.(quarantined := true, code := CodeOf(outcome),
            reason := if outcome.FailedBecause? then Some(Bounded(outcome.reason)) else None,
            scheduled := Some(Cpu), started := 2)
  }

  /** The backend this observation reports a hardware failure on, if it does. */
  function FailedHardware(p: Policy, outcome: AttemptOutcome): Option<Backend> {
    if outcome != Succeeded && p.scheduled != Some(Cpu) then p.scheduled else None
  }

  function MaskAfter(mask: bv8, p: Policy, outcome: AttemptOutcome): bv8 {
    var failed := FailedHardware(p, outcome);
    if p.shared && failed.Some? then mask | BackendBit(failed.value) else mask
  }

  /** What `observe` answers; `None` is the terminal error. */
  function Answer(p: Policy, outcome: AttemptOutcome): Option<Backend> {
    if p.scheduled == None then None
    else if outcome == Succeeded then p.scheduled
    else if p.scheduled == Some(Cpu) then None
    else Some(Cpu)
  }

  /** The process-wide atomic. */
  class QuarantinedHardware {
    var mask: bv8

    constructor ()
      ensures mask == 0
    {
      mask := 0;
    }

    /** `quarantine`: one `fetch_or`. */
    method Quarantine(backend: Backend)
      modifies this
      ensures mask == old(mask) | BackendBit(backend)
    {
      mask := mask | BackendBit(backend);
    }
  }

  class ExecutionPolicy {
    var requestedBackend: Backend
    var scheduledBackend: Option<Backend>
    var actualBackend: Option<Backend>
    var downgradeCode: Option<DowngradeCode>
    var downgradeReason: Option<string>
    var attemptsStarted: nat
    var hardwareQuarantined: bool
    var processWideQuarantine: bool

    ghost function Value(): Policy
      reads this
    {
      Policy(requestedBackend, scheduledBackend, actualBackend, downgradeCode, downgradeReason,
             attemptsStarted, hardwareQuarantined, processWideQuarantine)
    }

    /** `prefer` and `prefer_isolated`; asking for the CPU panics. */
    constructor (global: QuarantinedHardware, backend: Backend, useGlobalQuarantine: bool)
      requires backend != Cpu
      ensures Value() == Fresh(global.mask, backend, useGlobalQuarantine)
    {
      hide BackendBit, Bounded, Bytes;
      var isQuarantined := useGlobalQuarantine && global.mask & BackendBit(backend) != 0;
      requestedBackend := backend;
      scheduledBackend := Some(if isQuarantined then Cpu else backend);
      actualBackend := None;
      downgradeCode := if isQuarantined then Some(HardwareQuarantined) else None;
      downgradeReason := None;
      attemptsStarted := 1;
      hardwareQuarantined := isQuarantined;
      processWideQuarantine := useGlobalQuarantine;
    }

    method Observe(global: QuarantinedHardware, outcome: AttemptOutcome) returns (r: Option<Backend>)
      modifies this, global
      ensures Value() == Observed(old(Value()), outcome)
      ensures global.mask == MaskAfter(old(global.mask), old(Value()), outcome)
      ensures r == Answer(old(Value()), outcome)
    {
      hide Bounded, Bytes, CodeOf, BackendBit;
      if scheduledBackend.None? {
        return None;
      }
      var current := scheduledBackend.value;
      if outcome == Succeeded {
        actualBackend := Some(current);
        scheduledBackend := None;
        return Some(current);
      }
      if current == Cpu {
        scheduledBackend := None;
        return None;
      }
      if processWideQuarantine {
        global.Quarantine(current);
      }
      Downgrade(outcome);
      return Some(Cpu);
    }

    /** The part of `observe` that follows a hardware failure. */
    method Downgrade(outcome: AttemptOutcome)
      requires scheduledBackend.Some? && scheduledBackend != Some(Cpu) && outcome != Succeeded
      modifies this
      ensures Value() == Observed(old(Value()), outcome)
    {
      var reason := None;
      if outcome.FailedBecause? {
        var bounded := BoundReason(outcome.reason);
        reason := Some(bounded);
      }
      hide Bounded, Bytes;
      hardwareQuarantined := true;
      downgradeCode := CodeOf(outcome);
      downgradeReason := reason;
      scheduledBackend := Some(Cpu);
      attemptsStarted := 2;
    }

    method MayRetryHardwareInThisSession() returns (may: bool)
      ensures may <==> MayRetry(Value())
    {
      may := !hardwareQuarantined && scheduledBackend.Some?;
    }
  }

  predicate MayRetry(p: Policy) { !p.quarantined && p.scheduled.Some? }

  // ---- any number of policies in one process ---------------------------------------------

  /** Each event holds at most one access to the shared mask, so runs of events are all the
      interleavings of any number of threads. */
  datatype Event =
    | Create(backend: Backend, shared: bool)
    | Observe(policy: nat, outcome: AttemptOutcome)

  /** The mask, the policies made so far, and what each has tried. */
  datatype Process = Process(mask: bv8, policies: seq<Policy>, attempts: seq<seq<Backend>>)

  const START := Process(0, [], [])

  predicate Possible(s: Process, e: Event) {
    match e
    case Create(backend, _) => backend != Cpu
    case Observe(i, _) => i < |s.policies| == |s.attempts|
  }

  function Next(s: Process, e: Event): Process
    requires Possible(s, e)
  {
    match e
    case Create(backend, shared) =>
      Process(s.mask, s.policies + [Fresh(s.mask, backend, shared)], s.attempts + [[]])
    case Observe(i, outcome) =>
      var p := s.policies[i];
      Process(MaskAfter(s.mask, p, outcome), s.policies[i := Observed(p, outcome)],
              if p.scheduled.Some? then s.attempts[i := s.attempts[i] + [p.scheduled.value]] else s.attempts)
  }

  /** The process after the events, if each was possible where it stood. */
  function After(events: seq<Event>): Option<Process> {
    if events == [] then Some(START)
    else
      var before := After(events[..|events| - 1]);
      var e := events[|events| - 1];
      if before.Some? && Possible(before.value, e) then Some(Next(before.value, e)) else None
  }

  /** The last event is a process-wide policy failing on `backend`. */
  predicate FailsOn(s: Process, e: Event, backend: Backend) {
    && e.Observe?
    && e.policy < |s.policies|
    && s.policies[e.policy].shared
    && s.policies[e.policy].scheduled == Some(backend)
    && backend != Cpu
    && e.outcome != Succeeded
  }

  ghost predicate HasFailedOn(events: seq<Event>, backend: Backend) {
    exists k :: FailureAt(events, k, backend)
  }

  predicate FailureAt(events: seq<Event>, k: int, backend: Backend) {
    0 <= k < |events| && After(events[..k]).Some? && FailsOn(After(events[..k]).value, events[k], backend)
  }

  lemma {:induction false} PrefixRuns(events: seq<Event>, k: nat)
    requires k <= |events| && After(events).Some?
    ensures After(events[..k]).Some?
    decreases |events|
  {
    if k == |events| {
      assert events[..k] == events;
    } else {
      var init := events[..|events| - 1];
      assert init[..k] == events[..k];
      PrefixRuns(init, k);
    }
  }

  lemma FailuresSnoc(init: seq<Event>, e: Event, backend: Backend)
    requires After(init).Some?
    ensures HasFailedOn(init + [e], backend) <==> HasFailedOn(init, backend) || FailsOn(After(init).value, e, backend)
  {
    hide FailsOn, After;
    var events := init + [e];
    assert events[..|init|] == init;
    assert FailureAt(events, |init|, backend) <==> FailsOn(After(init).value, e, backend);
    forall k | 0 <= k < |init| ensures FailureAt(events, k, backend) <==> FailureAt(init, k, backend) {
      assert events[..k] == init[..k];
    }
  }

  /** In every run the mask holds exactly the backends some process-wide policy has failed
      on; isolated policies leave no trace in it. */
  lemma {:induction false} MaskIsExactlyTheFailures(events: seq<Event>, backend: Backend)
    requires After(events).Some?
    ensures Holds(After(events).value.mask, backend) <==> HasFailedOn(events, backend)
    decreases |events|
  {
    if events == [] {
      BitIsOwn(0, VideoToolbox, backend);
    } else {
      var init, e := events[..|events| - 1], events[|events| - 1];
      MaskIsExactlyTheFailures(init, backend);
      assert events == init + [e];
      var s := After(init).value;
      hide Holds, After, Next, HasFailedOn, FailsOn;
      FailuresSnoc(init, e, backend);
      MaskStep(s, e, backend);
    }
  }

  lemma MaskStep(s: Process, e: Event, backend: Backend)
    requires Possible(s, e)
    ensures Holds(Next(s, e).mask, backend) <==> Holds(s.mask, backend) || FailsOn(s, e, backend)
  {
    hide BackendBit, Holds, MaskAfter, Observed, Fresh;
    if e.Observe? {
      ObservationMarks(s.mask, s.policies[e.policy], e.outcome, backend);
    }
  }

  lemma ObservationMarks(mask: bv8, p: Policy, outcome: AttemptOutcome, backend: Backend)
    ensures Holds(MaskAfter(mask, p, outcome), backend) <==>
            Holds(mask, backend) || (p.shared && FailedHardware(p, outcome) == Some(backend))
  {
    hide Holds, BackendBit;
    var failed := FailedHardware(p, outcome);
    if failed.Some? {
      BitIsOwn(mask, failed.value, backend);
    }
  }

  lemma FailuresStay(events: seq<Event>, k: nat, backend: Backend)
    requires k <= |events|
    ensures HasFailedOn(events[..k], backend) ==> HasFailedOn(events, backend)
  {
    if HasFailedOn(events[..k], backend) {
      var m :| FailureAt(events[..k], m, backend);
      hide After, FailsOn;
      assert events[..k][..m] == events[..m];
      assert FailureAt(events, m, backend);
    }
  }

  /** A backend once quarantined stays quarantined, whatever happens later. */
  lemma MaskOnlyGrows(events: seq<Event>, k: nat, backend: Backend)
    requires k <= |events| && After(events).Some?
    ensures After(events[..k]).Some?
    ensures Holds(After(events[..k]).value.mask, backend) ==> Holds(After(events).value.mask, backend)
  {
    PrefixRuns(events, k);
    MaskIsExactlyTheFailures(events, backend);
    MaskIsExactlyTheFailures(events[..k], backend);
    FailuresStay(events, k, backend);
    hide *;
  }

  /** A process-wide policy made after a failure on its backend schedules the CPU at once and
      says why; made before any, it schedules the hardware. */
  lemma LaterPoliciesScheduleCpu(events: seq<Event>, backend: Backend)
    requires backend != Cpu && After(events).Some?
    ensures var p := Fresh(After(events).value.mask, backend, true);
            && After(events + [Create(backend, true)]) == Some(
                 Process(After(events).value.mask, After(events).value.policies + [p],
                         After(events).value.attempts + [[]]))
            && p.scheduled == Some(if HasFailedOn(events, backend) then Cpu else backend)
            && p.code == (if HasFailedOn(events, backend) then Some(HardwareQuarantined) else None)
  {
    MaskIsExactlyTheFailures(events, backend);
    assert (events + [Create(backend, true)])[..|events|] == events;
  }

  // ---- one policy over a whole run -------------------------------------------------------

  /** Everything a policy can be: it has tried a prefix of hardware and CPU, or of CPU alone
      if the hardware was quarantined when it was made, and what it records fits that. */
  predicate Sound(p: Policy, tried: seq<Backend>) {
    && p.requested != Cpu
    && (if p.code == Some(HardwareQuarantined) then tried <= [Cpu] else tried <= [p.requested, Cpu])
    && p.started == |tried| + (if p.scheduled.Some? then 1 else 0)
    && (p.scheduled.Some? ==>
          || (tried == [] && p.scheduled == Some(p.requested) && !p.quarantined && p.code == None)
          || (p.scheduled == Some(Cpu) && p.quarantined && Cpu !in tried))
    && (p.scheduled.Some? ==> p.actual == None)
    && (p.scheduled.None? ==> tried != [])
    && (p.actual.Some? ==> tried != [] && p.actual == Some(tried[|tried| - 1]))
    && (p.actual.Some? && p.actual != Some(Cpu) ==> p.code == None)
    && (p.quarantined <==> p.code.Some?)
    && (Cpu in tried ==> p.quarantined)
    && (p.code == None ==> |tried| <= 1 && Cpu !in tried)
    && (p.scheduled == Some(Cpu) && p.code != Some(HardwareQuarantined) ==> tried == [p.requested])
    && (p.reason.Some? <==> p.code == Some(Failed))
    && (p.reason.Some? ==> Bytes(p.reason.value) <= MAX_REASON_BYTES)
  }

  lemma FreshIsSound(mask: bv8, backend: Backend, shared: bool)
    requires backend != Cpu
    ensures Sound(Fresh(mask, backend, shared), [])
  {
  }

  lemma ObservedIsSound(p: Policy, tried: seq<Backend>, outcome: AttemptOutcome)
    requires Sound(p, tried)
    ensures Sound(Observed(p, outcome), if p.scheduled.Some? then tried + [p.scheduled.value] else tried)
  {
    hide Bytes;
    if p.scheduled.Some? {
      var next := tried + [p.scheduled.value];
      assert next[|next| - 1] == p.scheduled.value;
      if p.code == Some(HardwareQuarantined) {
        assert tried == [] && next == [Cpu];
      } else if tried == [] {
        assert next == [p.requested];
      } else {
        assert next == [p.requested, Cpu];
      }
    }
  }

  /** In every run every policy is sound. */
  lemma {:induction false} PoliciesAreSound(events: seq<Event>)
    requires After(events).Some?
    ensures |After(events).value.policies| == |After(events).value.attempts|
    ensures forall i :: 0 <= i < |After(events).value.policies| ==>
      Sound(After(events).value.policies[i], After(events).value.attempts[i])
    decreases |events|
  {
    if events != [] {
      var init, e := events[..|events| - 1], events[|events| - 1];
      PoliciesAreSound(init);
      var s := After(init).value;
      hide Sound, Fresh, Observed, MaskAfter;
      match e
      case Create(backend, shared) => FreshIsSound(s.mask, backend, shared);
      case Observe(i, outcome) => ObservedIsSound(s.policies[i], s.attempts[i], outcome);
    }
  }

  /** What a caller can rely on about any policy in any run: at most two attempts, hardware
      first and at most once; the CPU is scheduled, tried or the result only with a
      downgrade code; hardware may be retried only while nothing was tried at all. */
  lemma TwoAttempts(events: seq<Event>, i: nat)
    requires After(events).Some? && i < |After(events).value.policies|
    ensures i < |After(events).value.attempts|
    ensures var p, tried := After(events).value.policies[i], After(events).value.attempts[i];
            && |tried| <= 2 && p.started <= 2
            && (forall j :: 0 <= j < |tried| && tried[j] != Cpu ==> j == 0 && tried[j] == p.requested)
            && (p.scheduled == Some(Cpu) || p.actual == Some(Cpu) || Cpu in tried ==> p.code.Some?)
            && (p.actual == Some(p.requested) ==> p.code == None)
            && (MayRetry(p) <==> tried == [] && p.scheduled == Some(p.requested))
            && (p.scheduled.None? ==> Answer(p, Succeeded) == None && Observed(p, Succeeded) == p)
  {
    PoliciesAreSound(events);
    hide After, Bytes;
    var p, tried := After(events).value.policies[i], After(events).value.attempts[i];
    assert Sound(p, tried);
  }

  // ---- the story of a policy ---------------------------------------------------------------

  /** What became of a policy, told from what it observed: of the outcomes only the first two
      matter, the first for the hardware unless that was quarantined from the beginning, the
      other for the CPU. */
  function Story(backend: Backend, shared: bool, quarantined: bool, outcomes: seq<AttemptOutcome>): Policy {
    if quarantined then
      var done := outcomes != [];
      Policy(backend, if done then None else Some(Cpu), if done && outcomes[0] == Succeeded then Some(Cpu) else None,
             Some(HardwareQuarantined), None, 1, true, shared)
    else if outcomes == [] then Policy(backend, Some(backend), None, None, None, 1, false, shared)
    else if outcomes[0] == Succeeded then Policy(backend, None, Some(backend), None, None, 1, false, shared)
    else
      var reason := if outcomes[0].FailedBecause? then Some(Bounded(outcomes[0].reason)) else None;
      var done := |outcomes| > 1;
      Policy(backend, if done then None else Some(Cpu), if done && outcomes[1] == Succeeded then Some(Cpu) else None,
             CodeOf(outcomes[0]), reason, 2, true, shared)
  }

  /** Everything the policy was told, in order, whether or not an attempt was scheduled. */
  function Observations(events: seq<Event>, i: nat): seq<AttemptOutcome> {
    if events == [] then []
    else
      var e := events[|events| - 1];
      Observations(events[..|events| - 1], i) + if e.Observe? && e.policy == i then [e.outcome] else []
  }

  function Creations(events: seq<Event>): nat {
    if events == [] then 0
    else Creations(events[..|events| - 1]) + if events[|events| - 1].Create? then 1 else 0
  }

  /** A third outcome changes nothing: the story looks at two. */
  lemma StoryIsOver(backend: Backend, shared: bool, quarantined: bool, outcomes: seq<AttemptOutcome>,
                    outcome: AttemptOutcome)
    requires |outcomes| >= 2
    ensures Observed(Story(backend, shared, quarantined, outcomes), outcome)
         == Story(backend, shared, quarantined, outcomes + [outcome])
  {
    hide Bounded, CodeOf;
    var all := outcomes + [outcome];
    assert |all| > 1 && all[0] == outcomes[0] && all[1] == outcomes[1];
    assert Story(backend, shared, quarantined, all) == Story(backend, shared, quarantined, outcomes);
    assert Story(backend, shared, quarantined, outcomes).scheduled.None?;
  }

  lemma StoryTurns(backend: Backend, shared: bool, quarantined: bool, first: AttemptOutcome, outcome: AttemptOutcome)
    ensures Observed(Story(backend, shared, quarantined, [first]), outcome)
         == Story(backend, shared, quarantined, [first, outcome])
  {
    hide Bounded, CodeOf;
  }

  lemma StoryStarts(backend: Backend, shared: bool, quarantined: bool, outcome: AttemptOutcome)
    requires backend != Cpu
    ensures Observed(Story(backend, shared, quarantined, []), outcome)
         == Story(backend, shared, quarantined, [outcome])
  {
    hide Bounded;
  }

  lemma StoryGoesOn(backend: Backend, shared: bool, quarantined: bool, outcomes: seq<AttemptOutcome>,
                    outcome: AttemptOutcome)
    requires backend != Cpu
    ensures Observed(Story(backend, shared, quarantined, outcomes), outcome)
         == Story(backend, shared, quarantined, outcomes + [outcome])
  {
    hide *;
    if |outcomes| >= 2 {
      StoryIsOver(backend, shared, quarantined, outcomes, outcome);
    } else if |outcomes| == 1 {
      assert outcomes == [outcomes[0]] && outcomes + [outcome] == [outcomes[0], outcome];
      StoryTurns(backend, shared, quarantined, outcomes[0], outcome);
    } else {
      assert outcomes == [] && outcomes + [outcome] == [outcome];
      StoryStarts(backend, shared, quarantined, outcome);
    }
  }

  lemma {:induction false} EveryCreationHasAPolicy(events: seq<Event>)
    requires After(events).Some?
    ensures |After(events).value.policies| == |After(events).value.attempts| == Creations(events)
    decreases |events|
  {
    if events != [] {
      EveryCreationHasAPolicy(events[..|events| - 1]);
      hide Fresh, Observed, MaskAfter;
    }
  }

  /** An event is about one policy: the others stay as they were. */
  lemma LastEventIsObserved(events: seq<Event>, i: nat)
    requires events != [] && After(events).Some?
    ensures var init, e := events[..|events| - 1], events[|events| - 1];
            && After(init).Some?
            && (i < |After(init).value.policies| ==>
                && i < |After(events).value.policies|
                && var was := After(init).value.policies[i];
                   After(events).value.policies[i] == Told(was, e, i))
  {
    hide Fresh, Observed, MaskAfter;
  }

  /** The story of the policy made by event `k`, up to the end of `events`. */
  ghost function StoryOf(events: seq<Event>, k: nat): Policy
    requires k < |events| && events[k].Create? && After(events[..k]).Some?
  {
    Story(events[k].backend, events[k].shared, events[k].shared && HasFailedOn(events[..k], events[k].backend),
          Observations(events[k + 1..], Creations(events[..k])))
  }

  function Told(was: Policy, e: Event, i: nat): Policy {
    if e.Observe? && e.policy == i then Observed(was, e.outcome) else was
  }

  lemma StoryOfGoesOn(init: seq<Event>, e: Event, k: nat)
    requires k < |init| && init[k].Create? && init[k].backend != Cpu && After(init[..k]).Some?
    ensures (init + [e])[..k] == init[..k]
    ensures StoryOf(init + [e], k) == Told(StoryOf(init, k), e, Creations(init[..k]))
  {
    var i, tail := Creations(init[..k]), init[k + 1..];
    assert (init + [e])[..k] == init[..k] && (init + [e])[k + 1..] == tail + [e];
    assert (tail + [e])[..|tail|] == tail;
    hide Story, Observed, HasFailedOn, Creations, After;
    if e.Observe? && e.policy == i {
      StoryGoesOn(init[k].backend, init[k].shared, init[k].shared && HasFailedOn(init[..k], init[k].backend),
                  Observations(tail, i), e.outcome);
    } else {
      assert Observations(tail, i) + [] == Observations(tail, i);
    }
  }

  lemma LastEventCreates(events: seq<Event>)
    requires events != [] && events[|events| - 1].Create? && After(events).Some?
    ensures var init, e := events[..|events| - 1], events[|events| - 1];
            && After(init).Some?
            && Creations(init) < |After(events).value.policies|
            && After(events).value.policies[Creations(init)] ==
               Fresh(After(init).value.mask, e.backend, e.shared)
  {
    EveryCreationHasAPolicy(events[..|events| - 1]);
    hide Fresh, Observed, MaskAfter, Creations;
  }

  /** The policy made by event `k` is what its story says. */
  ghost predicate Follows(events: seq<Event>, k: nat)
    requires k < |events| && events[k].Create? && After(events).Some? && After(events[..k]).Some?
  {
    var i, policies := Creations(events[..k]), After(events).value.policies;
    i < |policies| && policies[i] == StoryOf(events, k)
  }

  lemma FollowsAtFirst(events: seq<Event>)
    requires events != [] && events[|events| - 1].Create? && After(events).Some?
    ensures After(events[..|events| - 1]).Some? && Follows(events, |events| - 1)
  {
    var init, e := events[..|events| - 1], events[|events| - 1];
    assert events[|events|..] == [];
    LastEventCreates(events);
    StoryBegins(init, e, Creations(init));
    hide Fresh, Story, HasFailedOn, Creations, After;
  }

  lemma FollowsOn(init: seq<Event>, e: Event, k: nat)
    requires k < |init| && init[k].Create? && init[k].backend != Cpu
    requires After(init).Some? && After(init + [e]).Some? && After(init[..k]).Some? && Follows(init, k)
    ensures (init + [e])[..k] == init[..k] && Follows(init + [e], k)
  {
    assert (init + [e])[..|init|] == init;
    hide StoryOf, Creations, After;
    StoryOfGoesOn(init, e, k);
    LastEventIsObserved(init + [e], Creations(init[..k]));
  }

  /** In every run each policy is exactly what its story says: what it was made for, whether a
      process-wide failure on that backend came before, and what it was told since. */
  lemma {:induction false} PoliciesFollowTheirStory(events: seq<Event>, k: nat)
    requires k < |events| && events[k].Create? && After(events).Some?
    ensures After(events[..k]).Some? && Follows(events, k)
    decreases |events|
  {
    PrefixRuns(events, k);
    if k == |events| - 1 {
      FollowsAtFirst(events);
    } else {
      var init, e := events[..|events| - 1], events[|events| - 1];
      assert init[..k] == events[..k] && init + [e] == events;
      PrefixRuns(events, |events| - 1);
      CreatedIsNoCpu(events, k);
      hide *;
      PoliciesFollowTheirStory(init, k);
      FollowsOn(init, e, k);
    }
  }

  lemma StoryBegins(before: seq<Event>, e: Event, i: nat)
    requires e.Create? && After(before).Some?
    ensures Fresh(After(before).value.mask, e.backend, e.shared) ==
            Story(e.backend, e.shared, e.shared && HasFailedOn(before, e.backend), [])
    ensures Observations([], i) == []
  {
    MaskIsExactlyTheFailures(before, e.backend);
    hide Holds, HasFailedOn, After;
  }

  lemma CreatedIsNoCpu(events: seq<Event>, k: nat)
    requires k < |events| && events[k].Create? && After(events).Some?
    ensures events[k].backend != Cpu
  {
    PrefixRuns(events, k + 1);
    assert events[..k + 1][..k] == events[..k] && events[..k + 1][k] == events[k];
  }

  /** The policy was told of a success while an attempt was scheduled. */
  predicate SuccessAt(events: seq<Event>, k: int, i: nat) {
    && 0 <= k < |events| && events[k] == Observe(i, Succeeded) && After(events[..k]).Some?
    && i < |After(events[..k]).value.policies| && After(events[..k]).value.policies[i].scheduled.Some?
  }

  ghost predicate HasSucceeded(events: seq<Event>, i: nat) { exists k :: SuccessAt(events, k, i) }

  /** In every run a policy has a result exactly when one of its scheduled attempts succeeded,
      and then that is the last it made. */
  lemma {:induction false} ResultIsTheSuccess(events: seq<Event>, i: nat)
    requires After(events).Some? && i < |After(events).value.policies|
    ensures i < |After(events).value.attempts|
    ensures var p, tried := After(events).value.policies[i], After(events).value.attempts[i];
            && (p.actual.Some? <==> HasSucceeded(events, i))
            && (p.actual.Some? ==> tried != [] && p.actual == Some(tried[|tried| - 1]) && p.scheduled.None?)
    decreases |events|
  {
    PoliciesAreSound(events);
    var init, e := events[..|events| - 1], events[|events| - 1];
    PoliciesAreSound(init);
    SuccessesSnoc(init, e, i);
    assert events == init + [e];
    if i < |After(init).value.policies| {
      ResultIsTheSuccess(init, i);
      hide HasSucceeded, Bytes, Bounded;
      assert Sound(After(init).value.policies[i], After(init).value.attempts[i]);
      assert Sound(After(events).value.policies[i], After(events).value.attempts[i]);
    } else {
      NoSuccessBefore(init, i);
      hide HasSucceeded, SuccessAt;
    }
  }

  lemma NoSuccessBefore(events: seq<Event>, i: nat)
    requires After(events).Some? && i >= |After(events).value.policies|
    ensures !HasSucceeded(events, i)
  {
    forall k ensures !SuccessAt(events, k, i) {
      if SuccessAt(events, k, i) {
        PoliciesStay(events, k);
      }
    }
  }

  lemma {:induction false} PoliciesStay(events: seq<Event>, k: nat)
    requires k <= |events| && After(events).Some?
    ensures After(events[..k]).Some? && |After(events[..k]).value.policies| <= |After(events).value.policies|
    decreases |events|
  {
    if k == |events| {
      assert events[..k] == events;
    } else {
      var init := events[..|events| - 1];
      assert init[..k] == events[..k];
      PoliciesStay(init, k);
      hide Fresh, Observed, MaskAfter;
    }
  }

  lemma SuccessesSnoc(init: seq<Event>, e: Event, i: nat)
    requires After(init).Some?
    ensures HasSucceeded(init + [e], i) <==>
            HasSucceeded(init, i)
            || (e == Observe(i, Succeeded) && i < |After(init).value.policies|
                && After(init).value.policies[i].scheduled.Some?)
  {
    hide After;
    var events := init + [e];
    assert events[..|init|] == init;
    assert forall k :: 0 <= k < |init| ==> events[..k] == init[..k] && events[k] == init[k];
    if HasSucceeded(init, i) {
      var k :| SuccessAt(init, k, i);
      assert SuccessAt(events, k, i);
    }
    if e == Observe(i, Succeeded) && i < |After(init).value.policies| && After(init).value.policies[i].scheduled.Some? {
      assert SuccessAt(events, |init|, i);
    }
    if HasSucceeded(events, i) {
      var k :| SuccessAt(events, k, i);
      if k < |init| {
        assert SuccessAt(init, k, i);
      }
    }
  }
}
