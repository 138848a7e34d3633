/** The resumable-upload client (crates/spike-gemini/src/client.rs). */
module UploadClient {
  import opened Prelude
  import opened UploadServer

  const FALLBACK_CHUNK_BYTES: u64 := 8 * 1024 * 1024

  type u8 = n: int | 0 <= n < 256

  /** `max_attempts` and the cap on one delay, in milliseconds. */
  datatype RetryPolicy = RetryPolicy(maxAttempts: u8, maxDelay: nat)

  datatype UploadSession = UploadSession(url: string, granularity: Option<u64>)

  datatype GeminiError = Protocol | ChunkMisaligned | HttpStatus(status: nat) | Transport | Decode

  /** `is_multiple_of`: only zero is a multiple of zero. */
  predicate IsMultipleOf(n: nat, of: nat) {
    if of == 0 then n == 0 else n % of == 0
  }

  function ChunkSize(session: UploadSession): u64 {
    session.granularity.GetOr(FALLBACK_CHUNK_BYTES)
  }

  // ---- delays --------------------------------------------------------------------

  function Pow2(n: nat): nat { if n == 0 then 1 else 2 * Pow2(n - 1) }

  /** `100 * 2_u64.pow(attempt)`: 64-bit arithmetic, which wraps in a release build. */
  function BackoffMillis(attempt: nat): u64 {
    100 * (Pow2(attempt) % (U64_MAX + 1)) % (U64_MAX + 1)
  }

  /** Retry-After is delay-seconds, section 10.2.3 of RFC 9110. */
  function RetryDelay(retryAfter: Option<u64>, attempt: nat, maximum: nat): (millis: nat)
    ensures millis <= maximum
  {
    match retryAfter
    case Some(seconds) => Min(seconds * 1000, maximum)
    case None => Min(BackoffMillis(attempt), maximum)
  }

  /** Up to the maximum the delay is what the server asks for, in seconds, or else doubles with
      every attempt. */
  lemma DelayIsAskedFor(retryAfter: Option<u64>, attempt: nat, maximum: nat)
    ensures var millis := RetryDelay(retryAfter, attempt, maximum);
            && (retryAfter.Some? && 1000 * retryAfter.value <= maximum ==> millis == 1000 * retryAfter.value)
            && (retryAfter.Some? && 1000 * retryAfter.value > maximum ==> millis == maximum)
            && (retryAfter.None? && attempt <= 57 && 100 * Pow2(attempt) <= maximum ==> millis == 100 * Pow2(attempt))
            && (retryAfter.None? && attempt <= 57 && 100 * Pow2(attempt) > maximum ==> millis == maximum)
  {
    if attempt <= 57 {
      BackoffIsExactUpTo57(attempt);
    }
    hide Pow2, BackoffMillis;
  }

  lemma {:induction false} Pow2Adds(a: nat, b: nat)
    ensures Pow2(a + b) == Pow2(a) * Pow2(b)
  {
    if a > 0 {
      Pow2Adds(a - 1, b);
      Doubled(Pow2(a - 1), Pow2(b));
    }
  }

  lemma Doubled(x: nat, y: nat)
    ensures 2 * x * y == 2 * (x * y)
  {
  }

  lemma {:induction false} Pow2Grows(a: nat, b: nat)
    requires a <= b
    ensures Pow2(a) <= Pow2(b)
  {
    if a < b {
      Pow2Grows(a, b - 1);
    }
  }

  lemma BigPowers()
    ensures Pow2(57) == 0x0200_0000_0000_0000 && Pow2(58) == 0x0400_0000_0000_0000
  {
    SmallPowers();
    hide Pow2;
    PowersMultiply(8, 0x100, 8, 0x100, 0x1_0000);
    PowersMultiply(16, 0x1_0000, 16, 0x1_0000, 0x1_0000_0000);
    PowersMultiply(32, 0x1_0000_0000, 16, 0x1_0000, 0x1_0000_0000_0000);
    PowersMultiply(48, 0x1_0000_0000_0000, 8, 0x100, 0x0100_0000_0000_0000);
    PowersMultiply(56, 0x0100_0000_0000_0000, 1, 2, 0x0200_0000_0000_0000);
    PowersMultiply(56, 0x0100_0000_0000_0000, 2, 4, 0x0400_0000_0000_0000);
  }

  lemma SmallPowers()
    ensures Pow2(1) == 2 && Pow2(2) == 4 && Pow2(8) == 0x100
  {
    assert Pow2(5) == 2 * Pow2(4) == 4 * Pow2(3) == 32;
  }

  lemma PowersMultiply(a: nat, x: nat, b: nat, y: nat, product: nat)
    requires Pow2(a) == x && Pow2(b) == y && x * y == product
    ensures Pow2(a + b) == product
  {
    hide Pow2;
    Pow2Adds(a, b);
  }

  /** The backoff is exact up to attempt 57 and wrong from there on. */
  lemma BackoffIsExactUpTo57(attempt: nat)
    ensures BackoffMillis(attempt) == 100 * Pow2(attempt) <==> attempt <= 57
  {
    BigPowers();
    hide Pow2;
    Wraps(Pow2(attempt));
    if attempt <= 57 {
      Pow2Grows(attempt, 57);
    } else {
      Pow2Grows(58, attempt);
    }
  }

  lemma Wraps(x: nat)
    ensures 100 * (x % (U64_MAX + 1)) % (U64_MAX + 1) == 100 * x <==> 100 * x <= U64_MAX
  {
  }

  /** A delay follows attempt `a` only if another attempt is left, so no backoff of a
      policy ever overflows exactly when it allows at most 59 attempts. */
  lemma PolicyNeverOverflowsUpTo59(policy: RetryPolicy)
    ensures (forall a: nat {:trigger BackoffMillis(a)} ::
               a + 1 < policy.maxAttempts ==> BackoffMillis(a) == 100 * Pow2(a))
            <==> policy.maxAttempts <= 59
  {
    forall a: nat ensures BackoffMillis(a) == 100 * Pow2(a) <==> a <= 57 {
      BackoffIsExactUpTo57(a);
    }
    if policy.maxAttempts > 59 {
      assert BackoffMillis(58) != 100 * Pow2(58);
    }
  }

  // ---- requests with retries -------------------------------------------------------

  /** `n` delays of at most `delay` each. */
  function Delays(n: nat, delay: nat): nat { n * delay }

  lemma DelaysAdd(a: nat, b: nat, delay: nat)
    ensures Delays(a, delay) + Delays(b, delay) == Delays(a + b, delay)
    ensures a <= b ==> Delays(a, delay) <= Delays(b, delay)
    ensures Delays(1, delay) == delay
  {
    if a <= b {
      assert b * delay == a * delay + (b - a) * delay;
    }
  }

  /** Every upload sent since `before` is this request, and left the server at most a
      prefix of its body ahead of where it was; not even that if it was misplaced. */
  ghost predicate SentOnly(before: Snapshot, now: Snapshot, request: Request)
    requires request.Upload?
  {
    && before.sent <= now.sent
    && forall i :: |before.sent| <= i < |now.sent| ==>
         && now.sent[i].request == request
         && Grew(before.server, now.sent[i].after, request.body, request.finalize)
         && (!Admits(before.server, request) ==> now.sent[i].after == before.server)
  }

  /** What the caller gets of the exchange that decides. */
  function Outcome(server: ServerState, request: Request, fault: Fault): Result<Response, GeminiError> {
    match fault.kind
    case Lost => Err(Transport)
    case Served => if Admits(server, request) then Ok(Answer(server, request, fault).value) else Err(HttpStatus(400))
    case _ => Err(HttpStatus(Status(server, request, fault)))
  }

  /** The delays behind the first `k` attempts, each asked for by the answer or computed. */
  function Waits(schedule: nat -> Fault, step: nat, k: nat, maximum: nat): nat {
    if k == 0 then 0
    else Waits(schedule, step, k - 1, maximum) + RetryDelay(schedule(step + k - 1).retryAfter, k - 1, maximum)
  }

  lemma {:induction false} WaitsAreDelays(schedule: nat -> Fault, step: nat, k: nat, maximum: nat)
    ensures Waits(schedule, step, k, maximum) <= Delays(k, maximum)
  {
    if k > 0 {
      WaitsAreDelays(schedule, step, k - 1, maximum);
      DelaysAdd(k - 1, 1, maximum);
      hide Delays;
    }
  }

  /** What was waited when `used` attempts were made, with a delay between any two. */
  ghost predicate Waited(schedule: nat -> Fault, before: Snapshot, now: Snapshot, policy: RetryPolicy) {
    && before.step <= now.step <= before.step + policy.maxAttempts
    && var between := if now.step > before.step then now.step - before.step - 1 else 0;
       now.slept == before.slept + Waits(schedule, before.step, between, policy.maxDelay)
  }

  /** `retry`: repeat on 429 and 5xx, give up on anything else and on a lost answer. Attempts
      are made until the deciding one, whose outcome is the result, with the prescribed
      delay between any two; only if a server error kept something of an upload may more
      attempts follow, and then all of them fail. */
  method Retry(wire: Wire, policy: RetryPolicy, request: Request) returns (r: Result<Response, GeminiError>)
    modifies wire
    ensures policy.maxAttempts == 0 ==> r == Err(Transport) && wire.at == old(wire.at)
    ensures policy.maxAttempts > 0 ==>
              var server := old(wire.at).server;
              var last := Deciding(wire.schedule, server, request, old(wire.at).step, policy.maxAttempts);
              && wire.at.server == NextState(server, request, wire.schedule(last))
              && if KeptOnError(server, request, wire.schedule(last)) then r.Err?
                 else wire.at.step == last + 1 && r == Outcome(server, request, wire.schedule(last))
    ensures Waited(wire.schedule, old(wire.at), wire.at, policy)
    ensures wire.at.queries == old(wire.at).queries + (if request.Query? then wire.at.step - old(wire.at).step else 0)
    ensures |wire.at.sent| == |old(wire.at).sent| + (if request.Upload? then wire.at.step - old(wire.at).step else 0)
    ensures !request.Upload? ==> wire.at.sent == old(wire.at).sent
    ensures request.Upload? ==>
              && SentOnly(old(wire.at), wire.at, request)
              && Grew(old(wire.at).server, wire.at.server, request.body, request.finalize)
  {
    hide Grew, SentOnly, NextState, Admits, Take, Status, Deciding, PassesOver, Undecided,
         KeptOnError, Outcome, Waits, RetryDelay;
    ghost var before := wire.at;
    if policy.maxAttempts > 0 {
      NothingTried(wire.schedule, before, request, policy);
    }
    if request.Upload? {
      GrewNothing(before.server, request.body, request.finalize);
      NothingSent(before, request);
    }
    NothingWaited(wire.schedule, before, policy);
    var attempt := 0;
    while attempt < policy.maxAttempts
      invariant 0 <= attempt <= policy.maxAttempts
      invariant attempt > 0 ==> attempt < policy.maxAttempts
      invariant attempt == 0 ==> wire.at == before
      invariant attempt < policy.maxAttempts ==> Tried(wire.schedule, before, wire.at, request, attempt, policy)
    {
      ghost var now := wire.at;
      TryAgain(wire.schedule, before, now, request, attempt, policy);
      var response := wire.Send(request);
      if response.None? {
        return Err(Transport);
      }
      var status := response.value.status;
      if IsSuccess(status) {
        return Ok(response.value);
      }
      if !Transient(status) || attempt + 1 == policy.maxAttempts {
        return Err(HttpStatus(status));
      }
      wire.Sleep(RetryDelay(response.value.retryAfter, attempt, policy.maxDelay));
      attempt := attempt + 1;
    }
    return Err(Transport);
  }

  lemma NothingSent(before: Snapshot, request: Request)
    requires request.Upload?
    ensures SentOnly(before, before, request)
  {
  }

  lemma NothingWaited(schedule: nat -> Fault, before: Snapshot, policy: RetryPolicy)
    ensures Waited(schedule, before, before, policy)
  {
  }

  /** What one answer is to the client. */
  function Reply(answer: Option<Response>): Result<Response, GeminiError> {
    match answer
    case None => Err(Transport)
    case Some(response) => if IsSuccess(response.status) then Ok(response) else Err(HttpStatus(response.status))
  }

  /** Where some attempts that were all worth another one lead to, with the delays behind them. */
  ghost predicate Tried(schedule: nat -> Fault, before: Snapshot, now: Snapshot, request: Request, attempts: nat,
                        policy: RetryPolicy)
    requires attempts < policy.maxAttempts
  {
    && now.step == before.step + attempts
    && now.slept == before.slept + Waits(schedule, before.step, attempts, policy.maxDelay)
    && now.queries == before.queries + (if request.Query? then attempts else 0)
    && (if request.Upload? then UploadTried(before, now, request, attempts)
        else now.server == before.server && now.sent == before.sent)
    && Undecided(schedule, before, now, request, attempts, policy.maxAttempts)
  }

  /** The server was moved once at most, and can then no longer take the request. */
  ghost predicate UploadTried(before: Snapshot, now: Snapshot, request: Request, attempts: nat)
    requires request.Upload?
  {
    && |now.sent| == |before.sent| + attempts
    && SentOnly(before, now, request)
    && Grew(before.server, now.server, request.body, request.finalize)
    && (!Admits(before.server, request) ==> now.server == before.server)
  }

  /** The deciding attempt is still to come, or was one whose error hid that something was kept. */
  ghost predicate Undecided(schedule: nat -> Fault, before: Snapshot, now: Snapshot, request: Request, attempts: nat,
                            n: nat)
    requires attempts < n
  {
    var last := Deciding(schedule, before.server, request, before.step, n);
    if now.server == before.server then last == Deciding(schedule, before.server, request, now.step, n - attempts)
    else
      && KeptOnError(before.server, request, schedule(last))
      && now.server == NextState(before.server, request, schedule(last)) && !Admits(now.server, request)
  }

  /** Where the last attempt leads to, and with what result. */
  ghost predicate Ended(schedule: nat -> Fault, before: Snapshot, now: Snapshot, request: Request, n: nat,
                        r: Result<Response, GeminiError>)
    requires n > 0
  {
    var last := Deciding(schedule, before.server, request, before.step, n);
    && now.server == NextState(before.server, request, schedule(last))
    && if KeptOnError(before.server, request, schedule(last)) then r.Err?
       else now.step == last + 1 && r == Outcome(before.server, request, schedule(last))
  }

  lemma NothingTried(schedule: nat -> Fault, before: Snapshot, request: Request, policy: RetryPolicy)
    requires policy.maxAttempts > 0
    ensures Tried(schedule, before, before, request, 0, policy)
  {
    if request.Upload? {
      GrewNothing(before.server, request.body, request.finalize);
    }
    hide Grew, NextState, Admits;
  }

  /** One attempt more: it is the last, or after its delay all is as before it. */
  lemma TryAgain(schedule: nat -> Fault, before: Snapshot, now: Snapshot, request: Request, attempts: nat,
                 policy: RetryPolicy)
    requires attempts < policy.maxAttempts && Tried(schedule, before, now, request, attempts, policy)
    ensures var fault, n := schedule(now.step), policy.maxAttempts;
            var later, answer := now.Exchange(request, fault), Answer(now.server, request, fault);
            && later.queries == before.queries + (if request.Query? then attempts + 1 else 0)
            && (if request.Upload? then UploadTried(before, later, request, attempts + 1)
                else later.sent == before.sent)
            && if answer.Some? && Transient(answer.value.status) && attempts + 1 < n then
                 var delay := RetryDelay(answer.value.retryAfter, attempts, policy.maxDelay);
                 Tried(schedule, before, later.(slept := later.slept + delay), request, attempts + 1, policy)
               else Ended(schedule, before, later, request, n, Reply(answer))
  {
    var fault, n := schedule(now.step), policy.maxAttempts;
    var later, answer := now.Exchange(request, fault), Answer(now.server, request, fault);
    if request.Upload? {
      UploadAgain(before, now, request, fault, attempts);
    }
    Decides(schedule, before, now, request, attempts, n);
    hide NextState, UploadTried, Undecided, Ended, Status, Admits;
    if answer.Some? && Transient(answer.value.status) && attempts + 1 < n {
      StillTrying(schedule, before, now, request, attempts, n);
      assert schedule(before.step + attempts) == fault;
    }
  }

  lemma UploadAgain(before: Snapshot, now: Snapshot, request: Request, fault: Fault, attempts: nat)
    requires request.Upload? && UploadTried(before, now, request, attempts)
    requires now.server == before.server || !Admits(now.server, request)
    ensures UploadTried(before, now.Exchange(request, fault), request, attempts + 1)
  {
    ExchangeGrows(now.server, request, fault);
    hide Grew, SentOnly, Admits;
    SentOneMore(before, now, request, NextState(now.server, request, fault));
  }

  /** An attempt that is not followed by another one is the deciding one, or comes after it. */
  lemma Decides(schedule: nat -> Fault, before: Snapshot, now: Snapshot, request: Request, attempts: nat, n: nat)
    requires attempts < n && Undecided(schedule, before, now, request, attempts, n)
    ensures var fault := schedule(now.step);
            var later, answer := now.Exchange(request, fault), Answer(now.server, request, fault);
            answer.None? || !Transient(answer.value.status) || attempts + 1 == n ==>
              Ended(schedule, before, later, request, n, Reply(answer))
  {
  }

  /** An attempt that is followed by another one was passed over, or kept something. */
  lemma StillTrying(schedule: nat -> Fault, before: Snapshot, now: Snapshot, request: Request, attempts: nat, n: nat)
    requires attempts + 1 < n && Undecided(schedule, before, now, request, attempts, n)
    requires var answer := Answer(now.server, request, schedule(now.step));
             answer.Some? && Transient(answer.value.status)
    requires !request.Upload? ==> now.server == before.server
    ensures Undecided(schedule, before, now.Exchange(request, schedule(now.step)), request, attempts + 1, n)
    ensures !request.Upload? ==> now.Exchange(request, schedule(now.step)).server == before.server
  {
    if request.Upload? {
      AfterFailure(before.server, request, schedule(now.step));
    }
  }

  lemma SentOneMore(before: Snapshot, now: Snapshot, request: Request, after: ServerState)
    requires request.Upload? && SentOnly(before, now, request)
    ensures var later := now.(sent := now.sent + [Sent(request, now.server, after)]);
            Grew(before.server, after, request.body, request.finalize)
            && (!Admits(before.server, request) ==> after == before.server) ==>
              SentOnly(before, later, request)
  {
    hide Grew, Admits;
  }

  /** An upload that was not answered with success either changed nothing or can no
      longer be taken when it is sent again. */
  lemma AfterFailure(server: ServerState, request: Request, fault: Fault)
    requires request.Upload?
    ensures var next := NextState(server, request, fault);
            next == server || !Admits(next, request)
            || (fault.kind.Served? && next == Take(server, request))
  {
    if Admits(server, request) && (fault.kind.ServerFailed? || fault.kind.Lost?) {
      var kept := Min(fault.persisted, |request.body|);
      if kept == 0 {
        assert server.received + request.body[..kept] == server.received;
      }
    }
  }

  /** What a request with retries costs: the steps it takes, and the delays between them. */
  lemma WaitedLittle(schedule: nat -> Fault, before: Snapshot, now: Snapshot, policy: RetryPolicy)
    requires Waited(schedule, before, now, policy)
    ensures before.slept <= now.slept
    ensures now.slept <=
            before.slept + Delays(if policy.maxAttempts > 0 then policy.maxAttempts - 1 else 0, policy.maxDelay)
  {
    var k := if now.step > before.step then now.step - before.step - 1 else 0;
    WaitsAreDelays(schedule, before.step, k, policy.maxDelay);
    DelaysAdd(k, if policy.maxAttempts > 0 then policy.maxAttempts - 1 else 0, policy.maxDelay);
    hide Delays, Waits;
  }

  /** `query_offset`: succeeds exactly if the deciding attempt is answered with the count. */
  method QueryOffset(wire: Wire, policy: RetryPolicy) returns (r: Result<u64, GeminiError>)
    modifies wire
    ensures wire.at.server == old(wire.at).server && wire.at.sent == old(wire.at).sent
    ensures var answered := AnsweredBy(wire.schedule, wire.at.server, old(wire.at).step, policy.maxAttempts);
            && (r.Ok? <==> answered.Some?)
            && (r.Ok? ==> r.value == |wire.at.server.received| && wire.at.step == answered.value)
    ensures wire.at.queries == old(wire.at).queries + (wire.at.step - old(wire.at).step)
    ensures Waited(wire.schedule, old(wire.at), wire.at, policy)
  {
    hide Waited;
    var response := Retry(wire, policy, Query);
    if response.Err? {
      return Err(response.error);
    }
    if response.value.sizeReceived.None? {
      return Err(Protocol);
    }
    return Ok(response.value.sizeReceived.value);
  }

  /** The session a calm answer announces. */
  function Announced(fault: Fault): UploadSession {
    UploadSession(fault.uploadUrl.GetOr(""),
                  if fault.granularity.Granularity? then Some(fault.granularity.value) else None)
  }

  /** `start_upload`: succeeds exactly if the deciding attempt is answered with a URL and a
      granularity that is absent or not zero. */
  method StartUpload(wire: Wire, policy: RetryPolicy) returns (r: Result<UploadSession, GeminiError>)
    modifies wire
    ensures wire.at.sent == old(wire.at).sent
    ensures r.Ok? ==> wire.at.server == ServerState([], false) && r.value.granularity != Some(0)
    ensures wire.at.server in {old(wire.at).server, ServerState([], false)}
    ensures policy.maxAttempts == 0 ==> r.Err?
    ensures policy.maxAttempts > 0 ==>
              var last := Deciding(wire.schedule, old(wire.at).server, Start, old(wire.at).step, policy.maxAttempts);
              var fault := wire.schedule(last);
              && wire.at.step == last + 1
              && (r.Ok? <==> && fault.kind.Served? && fault.uploadUrl.Some?
                             && fault.granularity != Malformed && fault.granularity != Granularity(0))
              && (r.Ok? ==> r.value == Announced(fault))
    ensures Waited(wire.schedule, old(wire.at), wire.at, policy)
  {
    hide Waited, Deciding;
    var response := Retry(wire, policy, Start);
    if response.Err? {
      return Err(response.error);
    }
    if response.value.uploadUrl.None? {
      return Err(Protocol);
    }
    var granularity: Option<u64>;
    match response.value.granularity {
      case Absent => granularity := None;
      case Malformed => return Err(Protocol);
      case Granularity(value) => granularity := Some(value);
    }
    if granularity == Some(0) {
      return Err(Protocol);
    }
    return Ok(UploadSession(response.value.uploadUrl.value, granularity));
  }

  // ---- one chunk -----------------------------------------------------------------------

  /** Every upload of `chunk` since `before` was sent while the server still was where
      it was at the start: nothing is ever replayed at a stale offset. */
  ghost predicate NeverStale(before: Snapshot, now: Snapshot, request: Request)
    requires request.Upload?
  {
    && SentOnly(before, now, request)
    && forall i :: |before.sent| <= i < |now.sent| ==> now.sent[i].before == before.server
  }

  /** The budget of one `upload_chunk`: n uploads, n*n queries, (n*n - 1) delays. */
  ghost predicate WithinBudget(before: Snapshot, now: Snapshot, policy: RetryPolicy) {
    var n: nat := policy.maxAttempts;
    && |now.sent| <= |before.sent| + n
    && now.queries <= before.queries + n * n
    && now.slept <= before.slept + Delays(if n > 0 then n * n - 1 else 0, policy.maxDelay)
  }

  /** What `attempt` attempts of `upload_chunk` with `delays` delays may have cost. */
  ghost predicate Spent(before: Snapshot, now: Snapshot, policy: RetryPolicy, attempt: nat, delays: nat) {
    && delays <= attempt * policy.maxAttempts
    && |now.sent| <= |before.sent| + attempt
    && now.queries <= before.queries + attempt * policy.maxAttempts
    && now.slept <= before.slept + Delays(delays, policy.maxDelay)
  }

  lemma SpentIsWithinBudget(before: Snapshot, now: Snapshot, policy: RetryPolicy, attempt: nat, delays: nat)
    requires Spent(before, now, policy, attempt, delays) && attempt <= policy.maxAttempts
    requires delays < policy.maxAttempts * policy.maxAttempts || delays == 0
    ensures WithinBudget(before, now, policy)
  {
    var n: nat := policy.maxAttempts;
    if n > 0 {
      AtMostSquare(attempt, n);
      DelaysAdd(delays, n * n - 1, policy.maxDelay);
    }
  }

  /** One attempt more keeps the budget: a full n delays only before the last one. */
  lemma AfterAttempt(before: Snapshot, now: Snapshot, later: Snapshot, policy: RetryPolicy, request: Request,
                     attempt: nat, delays: nat, more: nat)
    requires request.Upload? && now.server == before.server
    requires attempt < policy.maxAttempts && Spent(before, now, policy, attempt, delays)
    requires later.sent == now.sent + [Sent(request, now.server, later.server)]
    requires NeverStale(before, now, request) && Grew(before.server, later.server, request.body, request.finalize)
    requires !Admits(before.server, request) ==> later.server == before.server
    requires later.queries <= now.queries + policy.maxAttempts
    requires more <= policy.maxAttempts && later.slept <= now.slept + Delays(more, policy.maxDelay)
    ensures NeverStale(before, later, request)
    ensures Spent(before, later, policy, attempt + 1, delays + more)
    ensures attempt + 1 < policy.maxAttempts || more < policy.maxAttempts ==> WithinBudget(before, later, policy)
  {
    hide Grew;
    var n: nat := policy.maxAttempts;
    DelaysAdd(delays, more, policy.maxDelay);
    assert (attempt + 1) * n == attempt * n + n;
    AtMostSquare(attempt + 1, n);
    if attempt + 1 < n || more < n {
      SpentIsWithinBudget(before, later, policy, attempt + 1, delays + more);
    }
  }

  lemma NothingSpent(before: Snapshot, policy: RetryPolicy, request: Request)
    requires request.Upload?
    ensures Grew(before.server, before.server, request.body, request.finalize)
    ensures NeverStale(before, before, request)
    ensures Spent(before, before, policy, 0, 0) && WithinBudget(before, before, policy)
  {
    GrewNothing(before.server, request.body, request.finalize);
    SpentIsWithinBudget(before, before, policy, 0, 0);
  }

  lemma AtMostSquare(a: nat, n: nat)
    requires a <= n && n > 0
    ensures a * n <= n * n && (a < n ==> a * n < n * n)
  {
    assert n * n == a * n + (n - a) * n;
    if a < n {
      assert (n - a) * n > 0;
    }
  }

  lemma WaitedSteps(schedule: nat -> Fault, before: Snapshot, now: Snapshot, policy: RetryPolicy)
    requires Waited(schedule, before, now, policy)
    ensures before.step <= now.step <= before.step + policy.maxAttempts
  {
  }

  /** What becomes of one turn that sends a piece: it gets through, another turn follows at
      the given step, or it is all over. */
  datatype Turn = Through(next: nat) | Over(next: nat) | Stopped

  /** The turn that begins at `step`, by what happens to the piece: a piece that was taken is
      through; throttling is waited out while there are more turns; after a server error, if
      there are more turns, or a lost answer, the count of the server decides, if it can be had. */
  function TurnAt(schedule: nat -> Fault, n: nat, server: ServerState, piece: Request, step: nat, more: bool): Turn
    requires piece.Upload?
  {
    var fault := schedule(step);
    var after := NextState(server, piece, fault);
    match fault.kind
    case Served => if Admits(server, piece) then Through(step + 1) else Stopped
    case Refused => Stopped
    case Throttled => if more then Over(step + 1) else Stopped
    case _ =>
      if fault.kind.ServerFailed? && !more then Stopped
      else
        match AnsweredBy(schedule, after, step + 1, n)
        case None => Stopped
        case Some(next) =>
          if |after.received| == piece.offset + |piece.body| then Through(next)
          else if |after.received| == piece.offset then Over(next)
          else Stopped
  }

  /** If one of at most `turns` turns from `step` on gets through: which one, and where it ends. */
  function Delivered(schedule: nat -> Fault, n: nat, server: ServerState, piece: Request, step: nat, turns: nat):
    (r: Option<(nat, nat)>)
    requires piece.Upload?
    ensures r.Some? ==> 0 < r.value.0 <= turns
    decreases turns
  {
    if turns == 0 then None
    else
      match TurnAt(schedule, n, server, piece, step, turns > 1)
      case Through(next) => Some((1, next))
      case Stopped => None
      case Over(next) =>
        var later := Delivered(schedule, n, server, piece, next, turns - 1);
        if later.Some? then Some((later.value.0 + 1, later.value.1)) else None
  }

  /** A turn that fails and changes nothing: throttled, or failed or lost with nothing kept, and
      the query behind it goes through. */
  predicate HarmlessTurn(schedule: nat -> Fault, server: ServerState, piece: Request, step: nat, next: nat)
    requires piece.Upload?
  {
    || (schedule(step).kind.Throttled? && next == step + 1)
    || ((schedule(step).kind.ServerFailed? || schedule(step).kind.Lost?)
        && (schedule(step).persisted == 0 || !Admits(server, piece)) && Calm(schedule(step + 1)) && next == step + 2)
  }

  /** A turn that delivers the piece: it is taken, or a failure or a lost answer hides that all
      of it was kept, and the query behind it goes through. */
  predicate DeliveringTurn(schedule: nat -> Fault, server: ServerState, piece: Request, step: nat, more: bool)
    requires piece.Upload?
  {
    || schedule(step).kind.Served?
    || (((schedule(step).kind.ServerFailed? && more) || schedule(step).kind.Lost?)
        && schedule(step).persisted >= |piece.body| && Calm(schedule(step + 1)))
  }

  /** Fewer harmless turns than there are attempts do not keep a piece from being delivered; it
      is sent once for each, and once to be taken. */
  lemma {:induction false} HarmlessTurnsDelay(schedule: nat -> Fault, n: nat, server: ServerState, piece: Request,
                                              starts: seq<nat>, turns: nat)
    requires n > 0 && piece.Upload? && !piece.finalize && piece.body != []
    requires Admits(server, piece) && piece.offset + |piece.body| <= U64_MAX
    requires 0 < |starts| <= turns
    requires forall i :: 0 <= i < |starts| - 1 ==> HarmlessTurn(schedule, server, piece, starts[i], starts[i + 1])
    requires DeliveringTurn(schedule, server, piece, starts[|starts| - 1], |starts| < turns)
    ensures var delivered := Delivered(schedule, n, server, piece, starts[0], turns);
            delivered.Some? && delivered.value.0 == |starts|
    decreases |starts|
  {
    if |starts| == 1 {
      DeliveringIsThrough(schedule, n, server, piece, starts[0], turns > 1);
    } else {
      var rest := starts[1..];
      HarmlessIsOver(schedule, n, server, piece, starts[0], starts[1]);
      hide HarmlessTurn, DeliveringTurn, TurnAt;
      forall i | 0 <= i < |rest| - 1 ensures HarmlessTurn(schedule, server, piece, rest[i], rest[i + 1]) {
        assert HarmlessTurn(schedule, server, piece, starts[i + 1], starts[i + 2]);
      }
      HarmlessTurnsDelay(schedule, n, server, piece, rest, turns - 1);
    }
  }

  lemma HarmlessIsOver(schedule: nat -> Fault, n: nat, server: ServerState, piece: Request, step: nat, next: nat)
    requires n > 0 && piece.Upload? && !piece.finalize && piece.body != []
    requires Admits(server, piece) && piece.offset + |piece.body| <= U64_MAX
    requires HarmlessTurn(schedule, server, piece, step, next)
    ensures TurnAt(schedule, n, server, piece, step, true) == Over(next)
  {
  }

  lemma DeliveringIsThrough(schedule: nat -> Fault, n: nat, server: ServerState, piece: Request, step: nat, more: bool)
    requires n > 0 && piece.Upload? && Admits(server, piece) && piece.offset + |piece.body| <= U64_MAX
    requires DeliveringTurn(schedule, server, piece, step, more)
    ensures TurnAt(schedule, n, server, piece, step, more).Through?
  {
  }

  /** One turn of the loop of `upload_chunk`: send once, and unless that settles the
      matter query and wait. `None` means another attempt, from an unchanged server. */
  method AttemptChunk(wire: Wire, policy: RetryPolicy, offset: u64, chunk: seq<byte>, attempt: nat)
    returns (settled: Option<Result<(), GeminiError>>, ghost delays: nat)
    requires attempt < policy.maxAttempts && offset + |chunk| <= U64_MAX
    modifies wire
    ensures wire.at.sent ==
            old(wire.at).sent + [Sent(Upload(offset, chunk, false), old(wire.at).server, wire.at.server)]
    ensures wire.at.queries <= old(wire.at).queries + policy.maxAttempts
    ensures delays <= policy.maxAttempts && wire.at.slept <= old(wire.at).slept + Delays(delays, policy.maxDelay)
    ensures settled.Some? || attempt + 1 == policy.maxAttempts ==> delays < policy.maxAttempts
    ensures Grew(old(wire.at).server, wire.at.server, chunk, false)
    ensures !Admits(old(wire.at).server, Upload(offset, chunk, false)) ==> wire.at.server == old(wire.at).server
    ensures settled.None? ==> wire.at.server == old(wire.at).server
    ensures settled.Some? && settled.value.Ok? && offset == |old(wire.at).server.received| ==>
              wire.at.server.received == old(wire.at).server.received + chunk
    ensures settled.Some? && settled.value.Ok? ==> |wire.at.server.received| == offset + |chunk|
    ensures match TurnAt(wire.schedule, policy.maxAttempts, old(wire.at).server, Upload(offset, chunk, false),
                         old(wire.at).step, attempt + 1 < policy.maxAttempts)
            case Through(next) => settled == Some(Ok(())) && wire.at.step == next
            case Over(next) => settled == None && wire.at.step == next
            case Stopped => settled.Some? && settled.value.Err?
  {
    ghost var server := wire.at.server;
    ExchangeGrows(server, Upload(offset, chunk, false), wire.schedule(wire.at.step));
    hide Grew, Delays, AnsweredBy, Waited, NextState, Take, RetryDelay, Admits;
    delays := 0;
    var response := wire.Send(Upload(offset, chunk, false));
    if response.Some? && IsSuccess(response.value.status) {
      return Some(Ok(())), delays;
    }
    if response.Some? && !(Transient(response.value.status) && attempt + 1 < policy.maxAttempts) {
      return Some(Err(HttpStatus(response.value.status))), delays;
    }
    if response.None? || IsServerError(response.value.status) {
      ghost var asked := wire.at;
      var observed := QueryOffset(wire, policy);
      WaitedLittle(wire.schedule, asked, wire.at, policy);
      WaitedSteps(wire.schedule, asked, wire.at, policy);
      delays := policy.maxAttempts - 1;
      if observed.Err? {
        return Some(Err(observed.error)), delays;
      }
      FullLengthIsAll(server, wire.at.server, chunk);
      if observed.value == offset + |chunk| {
        return Some(Ok(())), delays;
      }
      if observed.value != offset {
        return Some(Err(Protocol)), delays;
      }
    }
    SameLengthIsNothing(server, wire.at.server, chunk);
    if response.Some? {
      wire.Sleep(RetryDelay(response.value.retryAfter, attempt, policy.maxDelay));
      DelaysAdd(delays, 1, policy.maxDelay);
      delays := delays + 1;
    }
    return None, delays;
  }

  /** `upload_chunk`. */
  method UploadChunk(wire: Wire, policy: RetryPolicy, session: UploadSession, offset: u64, chunk: seq<byte>)
    returns (r: Result<(), GeminiError>)
    modifies wire
    ensures WithinBudget(old(wire.at), wire.at, policy)
    ensures NeverStale(old(wire.at), wire.at, Upload(offset, chunk, false))
    ensures Grew(old(wire.at).server, wire.at.server, chunk, false)
    ensures r.Ok? && offset == |old(wire.at).server.received| ==>
              wire.at.server.received == old(wire.at).server.received + chunk
    ensures r.Ok? ==> |wire.at.server.received| == offset + |chunk|
    ensures (session.granularity.Some? ==> IsMultipleOf(|chunk|, session.granularity.value))
            && offset + |chunk| <= U64_MAX ==>
              var delivered := Delivered(wire.schedule, policy.maxAttempts, old(wire.at).server,
                                         Upload(offset, chunk, false), old(wire.at).step, policy.maxAttempts);
              && (r.Ok? <==> delivered.Some?)
              && (r.Ok? ==> |wire.at.sent| == |old(wire.at).sent| + delivered.value.0
                            && wire.at.step == delivered.value.1)
    ensures r.Ok? ==> session.granularity.Some? ==> IsMultipleOf(|chunk|, session.granularity.value)
    ensures session.granularity.Some? && !IsMultipleOf(|chunk|, session.granularity.value) ==>
              r == Err(ChunkMisaligned) && wire.at == old(wire.at)
    ensures offset + |chunk| > U64_MAX ==> r.Err? && wire.at == old(wire.at)
    ensures !Admits(old(wire.at).server, Upload(offset, chunk, false)) ==> wire.at.server == old(wire.at).server
  {
    hide WithinBudget, Delays, Grew, NeverStale, Spent, TurnAt, Admits;
    ghost var before := wire.at;
    NothingSpent(before, policy, Upload(offset, chunk, false));
    if session.granularity.Some? && !IsMultipleOf(|chunk|, session.granularity.value) {
      return Err(ChunkMisaligned);
    }
    if offset + |chunk| > U64_MAX {
      return Err(Protocol);
    }
    var attempt := 0;
    ghost var delays: nat := 0;
    while attempt < policy.maxAttempts
      invariant 0 <= attempt <= policy.maxAttempts
      invariant wire.at.server == before.server
      invariant |wire.at.sent| == |before.sent| + attempt
      invariant var left := Delivered(wire.schedule, policy.maxAttempts, before.server, Upload(offset, chunk, false),
                                      wire.at.step, policy.maxAttempts - attempt);
                Delivered(wire.schedule, policy.maxAttempts, before.server, Upload(offset, chunk, false), before.step,
                          policy.maxAttempts) ==
                if left.Some? then Some((left.value.0 + attempt, left.value.1)) else None
      invariant NeverStale(before, wire.at, Upload(offset, chunk, false))
      invariant Spent(before, wire.at, policy, attempt, delays)
      invariant WithinBudget(before, wire.at, policy)
    {
      ghost var now := wire.at;
      var settled;
      ghost var more;
      settled, more := AttemptChunk(wire, policy, offset, chunk, attempt);
      AfterAttempt(before, now, wire.at, policy, Upload(offset, chunk, false), attempt, delays, more);
      delays := delays + more;
      attempt := attempt + 1;
      if settled.Some? {
        return settled.value;
      }
    }
    return Err(Transport);
  }

  lemma FullLengthIsAll(before: ServerState, after: ServerState, body: seq<byte>)
    requires Grew(before, after, body, false)
    ensures |after.received| == |before.received| + |body| ==> after.received == before.received + body
  {
    assert body[..|body|] == body;
  }

  lemma SameLengthIsNothing(before: ServerState, after: ServerState, body: seq<byte>)
    requires Grew(before, after, body, false)
    ensures |after.received| == |before.received| ==> after == before
  {
    assert before.received + body[..0] == before.received;
  }

  /** `finalize_chunk`: the last piece and the end of the session in one request. It succeeds
      exactly if the deciding attempt is taken and answered with the file. A server error that
      kept something decides too: the caller is not told, and it fails. */
  method FinalizeChunk(wire: Wire, policy: RetryPolicy, offset: u64, chunk: seq<byte>)
    returns (r: Result<RemoteFile, GeminiError>)
    modifies wire
    ensures policy.maxAttempts == 0 ==> r.Err? && wire.at == old(wire.at)
    ensures policy.maxAttempts > 0 ==>
              var server, last := old(wire.at).server, Deciding(wire.schedule, old(wire.at).server,
                                   Upload(offset, chunk, true), old(wire.at).step, policy.maxAttempts);
              && wire.at.server == NextState(server, Upload(offset, chunk, true), wire.schedule(last))
              && (r.Ok? <==> && wire.schedule(last).kind.Served? && wire.schedule(last).file.Some?
                             && Admits(server, Upload(offset, chunk, true)))
              && (r.Ok? ==> wire.at.step == last + 1 && Some(r.value) == wire.schedule(last).file)
    ensures |wire.at.sent| == |old(wire.at).sent| + (wire.at.step - old(wire.at).step)
    ensures wire.at.queries == old(wire.at).queries
    ensures Waited(wire.schedule, old(wire.at), wire.at, policy)
    ensures SentOnly(old(wire.at), wire.at, Upload(offset, chunk, true))
    ensures Grew(old(wire.at).server, wire.at.server, chunk, true)
    ensures !Admits(old(wire.at).server, Upload(offset, chunk, true)) ==>
            r.Err? && wire.at.server == old(wire.at).server
    ensures r.Ok? ==> wire.at.server == ServerState(old(wire.at).server.received + chunk, true)
  {
    var response := Retry(wire, policy, Upload(offset, chunk, true));
    if response.Err? {
      return Err(response.error);
    }
    if response.value.file.None? {
      return Err(Decode);
    }
    return Ok(response.value.file.value);
  }
}
