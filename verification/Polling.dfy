/** Waiting for a remote file to become ready: `poll_until_ready_with_policy`
    (crates/spike-gemini/src/client.rs), against any clock and any remote behaviour. */
module Polling {
  import opened Prelude
  import opened UploadServer

  datatype PollError = GetFailed | FileFailed | PollTimeout

  /** What the k-th round meets: the answer of the server, if there is one, how long the
      request took, and how much longer than asked for the sleep behind it lasted. */
  datatype Round = Round(answer: Option<FileState>, latency: nat, oversleep: nat)

  predicate Pending(round: Round) { round.answer == Some(Processing) || round.answer == Some(Unspecified) }

  /** The time when the answer of round `k` has been read, if no round before it ended the wait. */
  function AnsweredAt(rounds: nat -> Round, k: nat, start: nat, interval: nat, deadline: nat): nat {
    WokenAt(rounds, k, start, interval, deadline) + rounds(k).latency
  }

  /** The time when round `k` begins. */
  function WokenAt(rounds: nat -> Round, k: nat, start: nat, interval: nat, deadline: nat): nat {
    if k == 0 then start
    else
      var answered := WokenAt(rounds, k - 1, start, interval, deadline) + rounds(k - 1).latency;
      answered + Pause(answered, interval, deadline) + rounds(k - 1).oversleep
  }

  /** `policy.interval.min(deadline.saturating_duration_since(now))`. */
  function Pause(now: nat, interval: nat, deadline: nat): nat {
    if now >= deadline then 0 else Min(interval, deadline - now)
  }

  /** Round `k` is where the wait ends. */
  ghost predicate EndsAt(rounds: nat -> Round, k: nat, start: nat, interval: nat, deadline: nat) {
    && (forall j: nat :: j < k ==> Pending(rounds(j)) && AnsweredAt(rounds, j, start, interval, deadline) < deadline)
    && (Pending(rounds(k)) ==> AnsweredAt(rounds, k, start, interval, deadline) >= deadline)
  }

  /** None of the first `n` rounds ends the wait. */
  ghost predicate Undecided(rounds: nat -> Round, n: nat, start: nat, interval: nat, deadline: nat) {
    forall k: nat :: k < n ==> !EndsAt(rounds, k, start, interval, deadline)
  }

  function Outcome(round: Round): Result<(), PollError> {
    match round.answer
    case None => Err(GetFailed)
    case Some(Active) => Ok(())
    case Some(FailedState) => Err(FileFailed)
    case Some(_) => Err(PollTimeout)
  }

  /** With a non-zero interval the wait ends, in the first round that decides it or whose
      answer comes at or after the deadline; a timeout therefore always follows an answer
      read at or after the deadline. It asks at most once more than the timeout holds
      intervals, rounded up, and sleeps no longer than the timeout in all, oversleeping
      aside. With a zero interval the loop only ends with the rounds it meets: `patience`
      says after how many undecided ones to stop looking, with no result. */
  method PollUntilReady(rounds: nat -> Round, start: nat, interval: nat, timeout: nat, patience: nat)
    returns (r: Option<Result<(), PollError>>, polls: nat, slept: nat)
    ensures r.Some? ==>
              && polls >= 1 && EndsAt(rounds, polls - 1, start, interval, start + timeout)
              && r.value == Outcome(rounds(polls - 1))
    ensures r.None? ==>
              && interval == 0 && polls == patience
              && Undecided(rounds, patience, start, interval, start + timeout)
    ensures interval > 0 ==> r.Some? && (polls >= 2 ==> (polls - 2) * interval < timeout)
    ensures slept <= timeout && (r.Some? ==> slept <= (polls - 1) * interval)
    // An active file is a success; a failed one, a failed request and an answer after the
    // deadline that is neither are told apart.
    ensures r.Some? ==>
              var answer := rounds(polls - 1).answer;
              && (r.value.Ok? <==> answer == Some(Active))
              && (r.value == Err(FileFailed) <==> answer == Some(FailedState))
              && (r.value == Err(GetFailed) <==> answer == None)
              && (r.value == Err(PollTimeout) <==> answer == Some(Processing) || answer == Some(Unspecified))
  {
    hide WokenAt, Pending;
    var deadline := start + timeout;
    var now := start;
    polls, slept := 0, 0;
    ghost var intervals := 0;
    FirstWake(rounds, start, interval, deadline);
    while interval > 0 || polls < patience
      invariant now == WokenAt(rounds, polls, start, interval, deadline)
      invariant forall j: nat :: j < polls ==>
                  Pending(rounds(j)) && AnsweredAt(rounds, j, start, interval, deadline) < deadline
      invariant start + slept <= now && slept <= timeout
      invariant intervals == polls * interval && slept <= intervals
      invariant now >= deadline || now >= start + intervals
      invariant polls >= 1 ==> intervals < timeout + interval || interval == 0
      invariant interval == 0 ==> polls <= patience
      decreases if now >= deadline then 0 else 1 + deadline - now, if interval > 0 then 0 else patience - polls
    {
      var round := rounds(polls);
      NextWake(rounds, polls, start, interval, deadline);
      now := now + round.latency;
      polls := polls + 1;
      OneMore(polls, interval);
      if !Pending(round) || now >= deadline {
        if polls >= 2 {
          OneMore(polls - 1, interval);
        }
        return Some(Outcome(round)), polls, slept;
      }
      intervals := intervals + interval;
      var pause := Pause(now, interval, deadline);
      slept := slept + pause;
      now := now + pause + round.oversleep;
    }
    return None, polls, slept;
  }

  lemma FirstWake(rounds: nat -> Round, start: nat, interval: nat, deadline: nat)
    ensures WokenAt(rounds, 0, start, interval, deadline) == start
  {
  }

  lemma NextWake(rounds: nat -> Round, k: nat, start: nat, interval: nat, deadline: nat)
    ensures var answered := AnsweredAt(rounds, k, start, interval, deadline);
            WokenAt(rounds, k + 1, start, interval, deadline) ==
            answered + Pause(answered, interval, deadline) + rounds(k).oversleep
  {
  }

  lemma OneMore(n: nat, interval: nat)
    requires n >= 1
    ensures n * interval == (n - 1) * interval + interval
  {
  }

  /** The round a wait ends in is unique, so its result is a function of what it met. */
  lemma EndIsUnique(rounds: nat -> Round, k: nat, m: nat, start: nat, interval: nat, deadline: nat)
    requires EndsAt(rounds, k, start, interval, deadline) && EndsAt(rounds, m, start, interval, deadline)
    ensures k == m
  {
    hide AnsweredAt, Pending;
  }
}
