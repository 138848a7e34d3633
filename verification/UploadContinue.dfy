/** Continuing an upload from the offset the server reported, and finalizing it
    (apps/ovayra-spike/src/gemini_orchestration.rs). */
module UploadContinue {
  import opened Prelude
  import opened UploadServer
  import opened UploadClient

  datatype FailureCategory =
    | CheckpointRead
    | CheckpointDecrypt
    | QueryFailed
    | OffsetBeyondInput
    | OffsetMisaligned
    | Continuation
    | Finalization
    | Analysis
    | EmptyAnalysis
    | RemoteCleanup
    | CheckpointCleanup
    | EvidenceWrite

  /** The server holds a prefix of the input, and is closed only with all of it. */
  ghost predicate Faithful(input: seq<byte>, server: ServerState) {
    server.received <= input && (server.finalized ==> server.received == input)
  }

  /** The server that was at `start` has come some way towards `input`; a session that
      was closed at the start has not changed at all. */
  ghost predicate Follows(input: seq<byte>, start: ServerState, server: ServerState) {
    if start.finalized then server == start else start.received <= server.received && Faithful(input, server)
  }

  /** So has every state the server passed through since there were `from` uploads. */
  ghost predicate AlwaysFollows(input: seq<byte>, start: ServerState, at: Snapshot, from: nat) {
    forall i :: from <= i < |at.sent| ==> Follows(input, start, at.sent[i].after)
  }

  ghost predicate AlwaysFaithful(input: seq<byte>, at: Snapshot, from: nat) {
    forall i :: from <= i < |at.sent| ==> Faithful(input, at.sent[i].after)
  }

  /** What the server should end up with: what it holds, and the rest of the input. */
  ghost function Goal(held: seq<byte>, input: seq<byte>): seq<byte> {
    if |held| <= |input| then held + input[|held|..] else held
  }

  /** A server that holds a prefix of the input keeps holding one, at every moment. */
  lemma FollowingIsFaithful(input: seq<byte>, start: ServerState, at: Snapshot, from: nat)
    requires Faithful(input, start)
    requires Follows(Goal(start.received, input), start, at.server)
    requires AlwaysFollows(Goal(start.received, input), start, at, from)
    ensures Goal(start.received, input) == input
    ensures Faithful(input, at.server) && AlwaysFaithful(input, at, from)
  {
    assert start.received + input[|start.received|..] == input;
  }

  lemma GrowthFollows(input: seq<byte>, start: ServerState, before: ServerState, after: ServerState, piece: Request)
    requires piece.Upload? && piece.offset == |before.received|
    requires Follows(input, start, before) && Grew(before, after, piece.body, piece.finalize)
    requires !Admits(before, piece) ==> after == before
    requires |before.received| + |piece.body| <= |input|
    requires piece.body == input[|before.received|..|before.received| + |piece.body|]
    requires piece.finalize ==> |before.received| + |piece.body| == |input|
    ensures Follows(input, start, after)
  {
    if !start.finalized {
      var k :| 0 <= k <= |piece.body| && after.received == before.received + piece.body[..k]
               && (after.finalized == before.finalized || (piece.finalize && after.finalized && k == |piece.body|));
      PrefixGrows(input, before.received, piece.body, k);
      PrefixesChain(start.received, before.received, after.received);
      assert k == |input| - |before.received| ==> after.received == input[..|input|] == input;
    }
  }

  lemma PrefixGrows(input: seq<byte>, held: seq<byte>, body: seq<byte>, k: nat)
    requires held <= input && k <= |body| && |held| + |body| <= |input|
    requires body == input[|held|..|held| + |body|]
    ensures held <= held + body[..k] == input[..|held| + k] <= input
  {
    assert body[..k] == input[|held|..|held| + k];
    assert held == input[..|held|];
  }

  lemma PrefixesChain(a: seq<byte>, b: seq<byte>, c: seq<byte>)
    requires a <= b <= c
    ensures a <= c
  {
  }

  // ---- the pieces ------------------------------------------------------------------

  /** One piece of the input, as the request that carries it; `from` is where the first
      piece starts, and the granularity counts from there. */
  ghost predicate IsPiece(input: seq<byte>, session: UploadSession, from: nat, piece: Request) {
    && piece.Upload?
    && from <= piece.offset && piece.offset + |piece.body| <= |input|
    && piece.body == input[piece.offset..piece.offset + |piece.body|]
    && |piece.body| <= ChunkSize(session)
    && if piece.finalize then piece.offset + |piece.body| == |input|
       else |piece.body| == ChunkSize(session)
            && (session.granularity.Some? ==> IsMultipleOf(piece.offset - from, session.granularity.value))
  }

  /** Pieces that start on the granularity stay on it. */
  lemma PiecesAreAligned(input: seq<byte>, session: UploadSession, from: nat, piece: Request)
    requires IsPiece(input, session, from, piece) && !piece.finalize
    requires session.granularity.Some? && IsMultipleOf(from, session.granularity.value)
    ensures IsMultipleOf(piece.offset, session.granularity.value)
  {
    var of := session.granularity.value;
    if of > 0 {
      var p, q := from / of, (piece.offset - from) / of;
      assert piece.offset == of * (p + q);
      MultipleLeavesNothing(p + q, of);
    }
  }

  /** Where the next piece belongs. */
  ghost function Reached(from: nat, pieces: seq<Request>): nat {
    if pieces == [] || !pieces[|pieces| - 1].Upload? then from
    else pieces[|pieces| - 1].offset + |pieces[|pieces| - 1].body|
  }

  /** Consecutive pieces from `from` on, each where the one before it ended, the final one,
      if any, at the end. */
  ghost predicate Tiling(input: seq<byte>, session: UploadSession, from: nat, pieces: seq<Request>)
    decreases |pieces|
  {
    pieces != [] ==>
      var init, last := pieces[..|pieces| - 1], pieces[|pieces| - 1];
      && Tiling(input, session, from, init)
      && IsPiece(input, session, from, last)
      && last.Upload? && last.offset == Reached(from, init)
      && (init != [] ==> init[|init| - 1].Upload? && !init[|init| - 1].finalize)
  }

  ghost function Bodies(pieces: seq<Request>): seq<seq<byte>> {
    if pieces == [] then []
    else
      var last := pieces[|pieces| - 1];
      Bodies(pieces[..|pieces| - 1]) + [if last.Upload? then last.body else []]
  }

  lemma PieceIsSlice(input: seq<byte>, session: UploadSession, from: nat, piece: Request)
    requires IsPiece(input, session, from, piece)
    ensures piece.Upload? && piece.offset + |piece.body| <= |input|
    ensures piece.body == input[piece.offset..piece.offset + |piece.body|]
  {
  }

  lemma Adjoining(input: seq<byte>, from: nat, middle: nat, to: nat, bodies: seq<seq<byte>>, body: seq<byte>)
    requires from <= middle <= to <= |input|
    requires Concat(bodies) == input[from..middle] && body == input[middle..to]
    ensures Concat(bodies + [body]) == input[from..to]
  {
    ConcatSnoc(bodies, body);
  }

  /** A tiling leaves no gap and no overlap: its bodies put together are the input from
      `from` up to where it reached. */
  lemma {:induction false} TilingCovers(input: seq<byte>, session: UploadSession, from: nat, pieces: seq<Request>)
    requires from <= |input| && Tiling(input, session, from, pieces)
    ensures from <= Reached(from, pieces) <= |input|
    ensures Concat(Bodies(pieces)) == input[from..Reached(from, pieces)]
    decreases |pieces|
  {
    if pieces == [] {
      assert Bodies(pieces) == [];
    } else {
      var init, last := pieces[..|pieces| - 1], pieces[|pieces| - 1];
      TilingStep(input, session, from, pieces);
      hide *;
      PieceIsSlice(input, session, from, last);
      TilingCovers(input, session, from, init);
      Adjoining(input, from, last.offset, last.offset + |last.body|, Bodies(init), last.body);
    }
  }

  lemma TilingStep(input: seq<byte>, session: UploadSession, from: nat, pieces: seq<Request>)
    requires pieces != [] && Tiling(input, session, from, pieces)
    ensures var init, last := pieces[..|pieces| - 1], pieces[|pieces| - 1];
            && Tiling(input, session, from, init) && IsPiece(input, session, from, last) && last.Upload?
            && last.offset == Reached(from, init)
            && Reached(from, pieces) == last.offset + |last.body|
            && Bodies(pieces) == Bodies(init) + [last.body]
  {
    hide IsPiece;
  }

  /** The upload requests since `from` are among the pieces. */
  ghost predicate SendsPieces(at: Snapshot, from: nat, pieces: seq<Request>) {
    forall i :: from <= i < |at.sent| ==> at.sent[i].request in pieces
  }

  /** Each non-final one of them was sent while the server was at its offset. */
  ghost predicate SendsInPlace(at: Snapshot, from: nat) {
    forall i :: from <= i < |at.sent| && at.sent[i].request.Upload? && !at.sent[i].request.finalize ==>
      |at.sent[i].before.received| == at.sent[i].request.offset
  }

  /** What holds however a continuation from `observed` goes: the server has only ever moved
      towards its goal, and what was sent to it are consecutive pieces of the input, each at
      its place if `observed` is where the server was. */
  ghost predicate Continued(input: seq<byte>, session: UploadSession, before: Snapshot, at: Snapshot, observed: nat,
                            pieces: seq<Request>)
  {
    var goal := Goal(before.server.received, input);
    && Follows(goal, before.server, at.server)
    && before.sent <= at.sent
    && AlwaysFollows(goal, before.server, at, |before.sent|)
    && SendsPieces(at, |before.sent|, pieces)
    && (observed == |before.server.received| ==> SendsInPlace(at, |before.sent|))
    && Tiling(input, session, observed, pieces)
  }

  /** The client's side of the state between two pieces. Once a piece got through, it knows
      where the server is. */
  ghost predicate Between(input: seq<byte>, session: UploadSession, before: Snapshot, at: Snapshot, observed: nat,
                          offset: nat, pieces: seq<Request>)
  {
    && Continued(input, session, before, at, observed, pieces)
    && (pieces != [] ==> pieces[|pieces| - 1].Upload? && !pieces[|pieces| - 1].finalize)
    && offset == Reached(observed, pieces)
    && (offset == |at.server.received| || (offset == observed && at.server == before.server))
  }

  lemma NextPiece(input: seq<byte>, session: UploadSession, before: Snapshot, now: Snapshot, later: Snapshot,
                  observed: nat, offset: nat, pieces: seq<Request>, piece: Request)
    requires Between(input, session, before, now, observed, offset, pieces)
    requires IsPiece(input, session, observed, piece) && piece.offset == offset
    requires SentOnly(now, later, piece)
    requires !piece.finalize ==> NeverStale(now, later, piece)
    requires Grew(now.server, later.server, piece.body, piece.finalize)
    requires !Admits(now.server, piece) ==> later.server == now.server
    ensures Continued(input, session, before, later, observed, pieces + [piece])
  {
    PieceIsSlice(input, session, observed, piece);
    hide IsPiece, Grew;
    OnePiece(input, session, before, now.server, later.server, observed, piece);
    forall i | |before.sent| <= i < |later.sent|
      ensures Follows(Goal(before.server.received, input), before.server, later.sent[i].after)
    {
      if i < |now.sent| {
        assert later.sent[i] == now.sent[i];
      } else {
        OnePiece(input, session, before, now.server, later.sent[i].after, observed, piece);
      }
    }
    forall i | |before.sent| <= i < |later.sent| && i < |now.sent| ensures later.sent[i] == now.sent[i] {}
    TilingSnoc(input, session, observed, pieces, piece);
  }

  /** A piece takes the server further, or does nothing. */
  lemma OnePiece(input: seq<byte>, session: UploadSession, before: Snapshot, now: ServerState, later: ServerState,
                 observed: nat, piece: Request)
    requires Follows(Goal(before.server.received, input), before.server, now)
    requires IsPiece(input, session, observed, piece)
    requires piece.offset == |now.received| || now == before.server
    requires Grew(now, later, piece.body, piece.finalize)
    requires !Admits(now, piece) ==> later == now
    ensures Follows(Goal(before.server.received, input), before.server, later)
  {
    var held := before.server.received;
    if Admits(now, piece) {
      PieceOfGoal(held, input, session, observed, piece);
      GrowthFollows(Goal(held, input), before.server, now, later, piece);
    }
  }

  lemma PieceOfGoal(held: seq<byte>, input: seq<byte>, session: UploadSession, from: nat, piece: Request)
    requires IsPiece(input, session, from, piece) && |held| <= piece.offset
    ensures |Goal(held, input)| == |input|
    ensures piece.body == Goal(held, input)[piece.offset..piece.offset + |piece.body|]
    ensures piece.finalize ==> piece.offset + |piece.body| == |input|
  {
  }

  lemma TilingSnoc(input: seq<byte>, session: UploadSession, from: nat, pieces: seq<Request>, piece: Request)
    requires Tiling(input, session, from, pieces) && IsPiece(input, session, from, piece)
    requires pieces != [] ==> pieces[|pieces| - 1].Upload? && !pieces[|pieces| - 1].finalize
    requires piece.Upload? && piece.offset == Reached(from, pieces)
    ensures Tiling(input, session, from, pieces + [piece])
  {
    hide IsPiece;
    assert (pieces + [piece])[..|pieces|] == pieces;
  }

  lemma NothingYet(input: seq<byte>, session: UploadSession, before: Snapshot, observed: nat)
    ensures Between(input, session, before, before, observed, observed, [])
    ensures session.granularity.Some? ==> IsMultipleOf(observed - observed, session.granularity.value)
  {
  }

  // ---- what it costs ---------------------------------------------------------------

  /** The delays of one piece and of the query behind it. */
  function PieceDelays(n: nat): nat { if n == 0 then 0 else n * n - 1 + (n - 1) }

  /** What sending `pieces` pieces may cost, with at most n attempts for each request: n
      uploads, and n*n + n queries for every one but a final one. */
  ghost predicate Cost(before: Snapshot, now: Snapshot, policy: RetryPolicy, pieces: nat) {
    var n: nat := policy.maxAttempts;
    && |now.sent| <= |before.sent| + Times(pieces, n)
    && now.queries <= before.queries + Times(pieces, n * n + n)
    && now.slept <= before.slept + Delays(Times(pieces, PieceDelays(n)), policy.maxDelay)
  }

  function Times(a: nat, b: nat): nat { a * b }

  lemma OneMore(a: nat, b: nat)
    ensures Times(a + 1, b) == Times(a, b) + b && Times(1, b) == b && Times(0, b) == 0
  {
  }

  lemma NoCost(at: Snapshot, policy: RetryPolicy)
    ensures Cost(at, at, policy, 0)
  {
    DelaysAdd(0, 0, policy.maxDelay);
  }

  /** The budget of a chunk, and that of the query behind it, are within the cost of a piece. */
  lemma ChunkCost(before: Snapshot, asked: Snapshot, later: Snapshot, policy: RetryPolicy)
    requires WithinBudget(before, asked, policy) && later.sent == asked.sent
    requires later.queries <= asked.queries + policy.maxAttempts
    requires later.slept <=
             asked.slept + Delays(if policy.maxAttempts > 0 then policy.maxAttempts - 1 else 0, policy.maxDelay)
    ensures Cost(before, later, policy, 1)
  {
    var n: nat := policy.maxAttempts;
    OneMore(0, n);
    OneMore(0, n * n + n);
    OneMore(0, PieceDelays(n));
    hide Delays, Times;
    if n > 0 {
      AtMostSquare(1, n);
      DelaysAdd(n * n - 1, n - 1, policy.maxDelay);
    }
  }

  /** So is that of the final piece. */
  lemma RequestCost(before: Snapshot, later: Snapshot, policy: RetryPolicy)
    requires |later.sent| <= |before.sent| + policy.maxAttempts && later.queries == before.queries
    requires later.slept <=
             before.slept + Delays(if policy.maxAttempts > 0 then policy.maxAttempts - 1 else 0, policy.maxDelay)
    ensures Cost(before, later, policy, 1)
  {
    var n: nat := policy.maxAttempts;
    OneMore(0, n);
    OneMore(0, n * n + n);
    OneMore(0, PieceDelays(n));
    hide Delays, Times;
    if n > 0 {
      AtMostSquare(1, n);
      DelaysAdd(n - 1, PieceDelays(n), policy.maxDelay);
    }
  }

  lemma CostAdds(before: Snapshot, now: Snapshot, later: Snapshot, policy: RetryPolicy, pieces: nat)
    requires Cost(before, now, policy, pieces) && Cost(now, later, policy, 1)
    ensures Cost(before, later, policy, pieces + 1)
  {
    var n: nat := policy.maxAttempts;
    var d := PieceDelays(n);
    hide Delays, PieceDelays, Times;
    OneMore(pieces, n);
    OneMore(pieces, n * n + n);
    OneMore(pieces, d);
    DelaysAdd(Times(pieces, d), d, policy.maxDelay);
  }

  /** All pieces but the last are full, so there are not many. */
  lemma {:induction false} PiecesAreFew(input: seq<byte>, session: UploadSession, from: nat, pieces: seq<Request>)
    requires from <= |input| && Tiling(input, session, from, pieces)
    ensures pieces != [] ==> Times(|pieces| - 1, ChunkSize(session)) <= |input| - from
    ensures pieces != [] && !pieces[|pieces| - 1].finalize ==>
              Times(|pieces|, ChunkSize(session)) == Reached(from, pieces) - from
    decreases |pieces|
  {
    hide *;
    if pieces != [] {
      var init, last := pieces[..|pieces| - 1], pieces[|pieces| - 1];
      TilingStep(input, session, from, pieces);
      PiecesAreFew(input, session, from, init);
      TilingCovers(input, session, from, init);
      LastPiece(input, session, from, pieces);
      OneMore(|init|, ChunkSize(session));
    }
  }

  lemma LastPiece(input: seq<byte>, session: UploadSession, from: nat, pieces: seq<Request>)
    requires pieces != [] && Tiling(input, session, from, pieces)
    ensures var init, last := pieces[..|pieces| - 1], pieces[|pieces| - 1];
            && last.Upload? && Reached(from, pieces) == Reached(from, init) + |last.body|
            && (!last.finalize ==> |last.body| == ChunkSize(session))
            && (init != [] ==> init[|init| - 1].Upload? && !init[|init| - 1].finalize)
            && (init == [] ==> Reached(from, init) == from)
  {
  }

  // ---- when it gets through ----------------------------------------------------------

  /** The step after a piece that gets through, and without a granularity the query behind it. */
  function PieceDelivered(schedule: nat -> Fault, policy: RetryPolicy, session: UploadSession, server: ServerState,
                          piece: Request, step: nat): Option<nat>
    requires piece.Upload?
  {
    match Delivered(schedule, policy.maxAttempts, server, piece, step, policy.maxAttempts)
    case None => None
    case Some((_, next)) =>
      if session.granularity.Some? then Some(next)
      else AnsweredBy(schedule, Took(server, piece.body), next, policy.maxAttempts)
  }

  function Took(server: ServerState, body: seq<byte>): ServerState {
    ServerState(server.received + body, server.finalized)
  }

  /** The final piece is taken and answered with the file. */
  predicate FinalDelivered(schedule: nat -> Fault, policy: RetryPolicy, server: ServerState, piece: Request, step: nat)
    requires piece.Upload?
  {
    && policy.maxAttempts > 0 && Admits(server, piece)
    && var decisive := schedule(Deciding(schedule, server, piece, step, policy.maxAttempts));
       decisive.kind.Served? && decisive.file.Some?
  }

  /** Every piece of the input from `offset` on gets through, the final one included: nothing
      is said about the client here. */
  predicate Completes(schedule: nat -> Fault, policy: RetryPolicy, session: UploadSession, server: ServerState,
                      input: seq<byte>, offset: nat, step: nat)
    requires offset <= |input|
    decreases |input| - offset
  {
    var size := ChunkSize(session);
    if |input| - offset <= size then
      FinalDelivered(schedule, policy, server, Upload(offset, input[offset..], true), step)
    else if size == 0 then false
    else
      var piece := Upload(offset, input[offset..offset + size], false);
      var next := PieceDelivered(schedule, policy, session, server, piece, step);
      next.Some? && Completes(schedule, policy, session, Took(server, piece.body), input, offset + size, next.value)
  }

  lemma CompletesStep(schedule: nat -> Fault, policy: RetryPolicy, session: UploadSession, server: ServerState,
                      input: seq<byte>, offset: nat, step: nat)
    requires offset <= |input| && |input| - offset > ChunkSize(session)
    ensures var size := ChunkSize(session);
            var piece := Upload(offset, input[offset..offset + size], false);
            var next := PieceDelivered(schedule, policy, session, server, piece, step);
            Completes(schedule, policy, session, server, input, offset, step) <==>
            && size > 0 && next.Some?
            && Completes(schedule, policy, session, Took(server, piece.body), input, offset + size, next.value)
  {
    hide PieceDelivered, FinalDelivered;
  }

  lemma CompletesLast(schedule: nat -> Fault, policy: RetryPolicy, session: UploadSession, server: ServerState,
                      input: seq<byte>, offset: nat, step: nat)
    requires offset <= |input| && |input| - offset <= ChunkSize(session)
    ensures Completes(schedule, policy, session, server, input, offset, step) <==>
            FinalDelivered(schedule, policy, server, Upload(offset, input[offset..], true), step)
  {
    hide FinalDelivered;
  }

  lemma NoCompletion(schedule: nat -> Fault, policy: RetryPolicy, session: UploadSession, server: ServerState,
                     input: seq<byte>, offset: nat, step: nat)
    requires offset <= |input|
    ensures ChunkSize(session) == 0 && offset < |input| ==>
              !Completes(schedule, policy, session, server, input, offset, step)
    ensures ChunkSize(session) == 0 ==> session.granularity == Some(0)
    ensures session.granularity == Some(0) ==> ChunkSize(session) == 0
    ensures session.granularity.Some? ==> ChunkSize(session) == session.granularity.value
  {
    hide PieceDelivered, FinalDelivered;
  }

  /** Without faults, every piece of an open session gets through. */
  lemma {:induction false} SmoothCompletes(schedule: nat -> Fault, policy: RetryPolicy, session: UploadSession,
                                           at: Snapshot, input: seq<byte>, offset: nat)
    requires Smooth(schedule, policy, at) && offset == |at.server.received| <= |input| <= U64_MAX
    requires session.granularity != Some(0) || offset == |input|
    ensures Completes(schedule, policy, session, at.server, input, offset, at.step)
    decreases |input| - offset
  {
    hide Calm;
    var size := ChunkSize(session);
    if |input| - offset <= size {
      CalmFinal(schedule, policy, at, Upload(offset, input[offset..], true));
      hide FinalDelivered;
    } else {
      var piece := Upload(offset, input[offset..offset + size], false);
      CalmPiece(schedule, policy, session, at, piece);
      var next := PieceDelivered(schedule, policy, session, at.server, piece, at.step);
      SmoothCompletes(schedule, policy, session, Snapshot(Took(at.server, piece.body), next.value, [], 0, 0), input,
                      offset + size);
      hide PieceDelivered, FinalDelivered;
    }
  }

  lemma CalmFinal(schedule: nat -> Fault, policy: RetryPolicy, at: Snapshot, piece: Request)
    requires Smooth(schedule, policy, at) && piece.Upload? && piece.offset == |at.server.received|
    ensures FinalDelivered(schedule, policy, at.server, piece, at.step)
  {
    assert Calm(schedule(at.step));
  }

  lemma CalmPiece(schedule: nat -> Fault, policy: RetryPolicy, session: UploadSession, at: Snapshot, piece: Request)
    requires Smooth(schedule, policy, at) && piece.Upload? && piece.offset == |at.server.received|
    requires piece.offset + |piece.body| <= U64_MAX
    ensures var next := PieceDelivered(schedule, policy, session, at.server, piece, at.step);
            next.Some? && next.value > at.step
  {
    assert Calm(schedule(at.step)) && Calm(schedule(at.step + 1));
  }

  /** One turn of the loop of `continue_and_finalize`: a chunk, and without a granularity a
      look at where the server is. */
  method SendPiece(wire: Wire, policy: RetryPolicy, session: UploadSession, observed: u64, bytes: seq<byte>,
                   offset: u64, ghost before: Snapshot, ghost pieces: seq<Request>)
    returns (r: Result<u64, FailureCategory>, ghost piece: Request)
    requires observed <= offset && offset + ChunkSize(session) <= |bytes| <= U64_MAX
    requires session.granularity.Some? ==> IsMultipleOf(offset - observed, session.granularity.value)
    requires Between(bytes, session, before, wire.at, observed, offset, pieces)
    modifies wire
    ensures piece == Upload(offset, bytes[offset..offset + ChunkSize(session)], false)
    ensures Continued(bytes, session, before, wire.at, observed, pieces + [piece])
    ensures r.Ok? ==>
              && r.value == offset + ChunkSize(session)
              && Between(bytes, session, before, wire.at, observed, r.value, pieces + [piece])
              && (session.granularity.Some? ==> IsMultipleOf(r.value - observed, session.granularity.value))
    ensures r.Err? ==> r.error == Continuation
    ensures Cost(old(wire.at), wire.at, policy, 1)
    ensures offset == |old(wire.at).server.received| ==>
              var next := PieceDelivered(wire.schedule, policy, session, old(wire.at).server, piece, old(wire.at).step);
              && (r.Ok? <==> next.Some?)
              && (r.Ok? ==> wire.at.step == next.value && wire.at.server == Took(old(wire.at).server, piece.body))
  {
    hide Goal, Between, Continued, Grew, NeverStale, SentOnly, Follows, Reached, IsPiece, IsMultipleOf, WithinBudget,
         Take, Admits, Cost, Delays, Delivered, AnsweredBy, Waited;
    ghost var now := wire.at;
    var chunkSize := ChunkSize(session);
    var endOffset: u64 := offset + chunkSize;
    var body := bytes[offset..endOffset];
    piece := Upload(offset, body, false);
    ThisPiece(bytes, session, observed, piece);
    WholeChunks(session);
    var chunk := UploadChunk(wire, policy, session, offset, body);
    SentOnlyIfNeverStale(now, wire.at, piece);
    NextPiece(bytes, session, before, now, wire.at, observed, offset, pieces, piece);
    ghost var asked := wire.at;
    DelaysAdd(0, if policy.maxAttempts > 0 then policy.maxAttempts - 1 else 0, policy.maxDelay);
    ChunkCost(now, asked, asked, policy);
    if chunk.Err? {
      return Err(Continuation), piece;
    }
    StillBetween(bytes, session, before, now, wire.at, observed, offset, pieces, piece);
    WholeIsTook(now.server, wire.at.server, body);
    StillAligned(offset - observed, chunkSize, session);
    if session.granularity.Some? {
      return Ok(endOffset), piece;
    }
    var confirmed := QueryOffset(wire, policy);
    WaitedLittle(wire.schedule, asked, wire.at, policy);
    WaitedSteps(wire.schedule, asked, wire.at, policy);
    QueryKeepsBetween(bytes, session, before, asked, wire.at, observed, endOffset, pieces + [piece]);
    ChunkCost(now, asked, wire.at, policy);
    if confirmed.Err? {
      return Err(Continuation), piece;
    }
    return Ok(confirmed.value), piece;
  }

  lemma WholeIsTook(before: ServerState, after: ServerState, body: seq<byte>)
    requires Grew(before, after, body, false)
    ensures |after.received| == |before.received| + |body| ==> after == Took(before, body)
  {
    assert body[..|body|] == body;
  }

  lemma WholeChunks(session: UploadSession)
    ensures session.granularity.Some? ==> IsMultipleOf(ChunkSize(session), session.granularity.value)
  {
  }

  /** `continue_and_finalize`. With a granularity of zero the loop sends empty chunks for as
      long as they are answered: `patience` says after how many to stop looking, with no
      result. An offset beyond the input panics. */
  method ContinueAndFinalize(wire: Wire, policy: RetryPolicy, session: UploadSession, observed: u64, bytes: seq<byte>,
                             patience: nat)
    returns (r: Option<Result<RemoteFile, FailureCategory>>, ghost pieces: seq<Request>)
    requires observed <= |bytes| <= U64_MAX
    modifies wire
    ensures Continued(bytes, session, old(wire.at), wire.at, observed, pieces)
    ensures Succeeded(r) ==> wire.at.server == ServerState(Goal(old(wire.at).server.received, bytes), true)
    ensures Succeeded(r) ==> !old(wire.at).server.finalized && |old(wire.at).server.received| <= |bytes|
    ensures Succeeded(r) ==> pieces != [] && pieces[|pieces| - 1].finalize
    ensures r.Some? && r.value.Err? ==> r.value.error == Continuation || r.value.error == Finalization
    ensures Cost(old(wire.at), wire.at, policy, |pieces|)
    ensures pieces != [] ==> Times(|pieces| - 1, ChunkSize(session)) <= |bytes| - observed
    // With a granularity of zero and something left to send, it never gets to the final piece.
    ensures r.None? ==> |pieces| == patience && session.granularity == Some(0) && observed < |bytes|
    ensures session.granularity == Some(0) && observed < |bytes| ==> !Succeeded(r)
    // From the true offset it succeeds exactly if every piece gets through.
    ensures observed == |old(wire.at).server.received| ==>
              (Succeeded(r) <==> Completes(wire.schedule, policy, session, old(wire.at).server, bytes, observed,
                                           old(wire.at).step))
    // Without faults it does, from wherever an open server is.
    ensures Smooth(wire.schedule, policy, old(wire.at)) && observed == |old(wire.at).server.received| ==>
              session.granularity != Some(0) || observed == |bytes| ==> Succeeded(r)
    // A final piece that is the only one fails if its answer is lost, whatever the server made of
    // it, or if the server answers with an error but kept something of it.
    ensures policy.maxAttempts > 0 && |bytes| - observed <= ChunkSize(session)
            && (wire.schedule(old(wire.at).step).kind.Lost?
                || KeptOnError(old(wire.at).server, Upload(observed, bytes[observed..], true),
                         wire.schedule(old(wire.at).step))) ==>
              && r == Some(Err(Finalization))
              && wire.at.server == NextState(old(wire.at).server, Upload(observed, bytes[observed..], true),
                                             wire.schedule(old(wire.at).step))
  {
    hide Goal, Between, Continued, Grew, NeverStale, SentOnly, Follows, Reached, IsPiece, IsMultipleOf, Take, NextState,
         Smooth, Calm, Admits, Cost, Delays, KeptOnError, Tiling, Times, Waited, PieceDelivered, Deciding,
         Completes, FinalDelivered, ChunkSize;
    ghost var before := wire.at;
    if Smooth(wire.schedule, policy, before) && observed == |before.server.received|
       && (session.granularity != Some(0) || observed == |bytes|) {
      SmoothCompletes(wire.schedule, policy, session, before, bytes, observed);
    }
    LostDecides(wire.schedule, policy, before, Upload(observed, bytes[observed..], true));
    NoCompletion(wire.schedule, policy, session, before.server, bytes, observed, before.step);
    NothingYet(bytes, session, before, observed);
    NoCost(before, policy);
    var total: u64 := |bytes|;
    var chunkSize := ChunkSize(session);
    var offset := observed;
    var turns := 0;
    pieces := [];
    while offset < total && total - offset > chunkSize
      invariant observed <= offset <= total
      invariant session.granularity.Some? ==> IsMultipleOf(offset - observed, session.granularity.value)
      invariant Between(bytes, session, before, wire.at, observed, offset, pieces)
      invariant Cost(before, wire.at, policy, |pieces|)
      invariant chunkSize == 0 ==> offset == observed && turns == |pieces| <= patience
      invariant if turns == 0 then wire.at == before && offset == observed else |bytes| - observed > chunkSize
      invariant observed == |before.server.received| ==>
                  && offset == |wire.at.server.received|
                  && Completes(wire.schedule, policy, session, before.server, bytes, observed, before.step)
                     == Completes(wire.schedule, policy, session, wire.at.server, bytes, offset, wire.at.step)
      decreases total - offset, if chunkSize == 0 then patience - turns else 0
    {
      if chunkSize == 0 && turns == patience {
        BetweenIsContinued(bytes, session, before, wire.at, observed, offset, pieces);
        ContinuedIsFew(bytes, session, before, wire.at, observed, pieces);
        return None, pieces;
      }
      ghost var now := wire.at;
      CompletesStep(wire.schedule, policy, session, now.server, bytes, offset, now.step);
      var next;
      ghost var piece;
      next, piece := SendPiece(wire, policy, session, observed, bytes, offset, before, pieces);
      CostAdds(before, now, wire.at, policy, |pieces|);
      turns := turns + 1;
      pieces := pieces + [piece];
      ContinuedIsFew(bytes, session, before, wire.at, observed, pieces);
      if next.Err? {
        return Some(Err(next.error)), pieces;
      }
      offset := next.value;
      if offset > total {
        return Some(Err(Continuation)), pieces;
      }
      NoCompletion(wire.schedule, policy, session, wire.at.server, bytes, offset, wire.at.step);
    }
    ghost var now := wire.at;
    ghost var piece;
    CompletesLast(wire.schedule, policy, session, now.server, bytes, offset, now.step);
    var remote;
    remote, piece := SendFinal(wire, policy, session, observed, bytes, offset, before, pieces);
    CostAdds(before, now, wire.at, policy, |pieces|);
    ContinuedIsFew(bytes, session, before, wire.at, observed, pieces + [piece]);
    return Some(remote), pieces + [piece];
  }

  /** The end of `continue_and_finalize`: the rest of the input closes the session. */
  method SendFinal(wire: Wire, policy: RetryPolicy, session: UploadSession, observed: u64, bytes: seq<byte>,
                   offset: u64, ghost before: Snapshot, ghost pieces: seq<Request>)
    returns (r: Result<RemoteFile, FailureCategory>, ghost piece: Request)
    requires observed <= offset <= |bytes| <= U64_MAX && |bytes| - offset <= ChunkSize(session)
    requires Between(bytes, session, before, wire.at, observed, offset, pieces)
    modifies wire
    ensures piece == Upload(offset, bytes[offset..], true)
    ensures Continued(bytes, session, before, wire.at, observed, pieces + [piece])
    ensures Cost(old(wire.at), wire.at, policy, 1)
    ensures r.Ok? <==> FinalDelivered(wire.schedule, policy, old(wire.at).server, piece, old(wire.at).step)
    ensures r.Ok? ==>
              && wire.at.server == ServerState(Goal(before.server.received, bytes), true)
              && !before.server.finalized && |before.server.received| <= |bytes|
    ensures r.Err? ==> r.error == Finalization
    ensures policy.maxAttempts > 0 ==>
              wire.at.server == NextState(old(wire.at).server, piece, wire.schedule(
                Deciding(wire.schedule, old(wire.at).server, piece, old(wire.at).step, policy.maxAttempts)))
  {
    hide Goal, Between, Continued, Grew, SentOnly, IsPiece, NextState, Admits, Cost, Delays, Waited, Deciding;
    ghost var now := wire.at;
    var body := bytes[offset..];
    piece := Upload(offset, body, true);
    ThisPiece(bytes, session, observed, piece);
    var remote := FinalizeChunk(wire, policy, offset, body);
    WaitedLittle(wire.schedule, now, wire.at, policy);
    WaitedSteps(wire.schedule, now, wire.at, policy);
    NextPiece(bytes, session, before, now, wire.at, observed, offset, pieces, piece);
    RequestCost(now, wire.at, policy);
    if remote.Err? {
      return Err(Finalization), piece;
    }
    FinalIsWhole(bytes, session, before, now, observed, offset, pieces);
    return Ok(remote.value), piece;
  }

  /** No fault is to come, and the session is open. */
  ghost predicate Smooth(schedule: nat -> Fault, policy: RetryPolicy, at: Snapshot) {
    policy.maxAttempts > 0 && !at.server.finalized && forall k :: k >= at.step ==> Calm(schedule(k))
  }

  /** A lost answer decides, and so does a server error that kept something. */
  lemma LostDecides(schedule: nat -> Fault, policy: RetryPolicy, at: Snapshot, piece: Request)
    requires piece.Upload?
    ensures policy.maxAttempts > 0
            && (schedule(at.step).kind.Lost? || KeptOnError(at.server, piece, schedule(at.step))) ==>
              Deciding(schedule, at.server, piece, at.step, policy.maxAttempts) == at.step
              && !FinalDelivered(schedule, policy, at.server, piece, at.step)
  {
  }

  predicate Succeeded<T, E>(r: Option<Result<T, E>>) { r.Some? && r.value.Ok? }

  lemma ThisPiece(input: seq<byte>, session: UploadSession, from: nat, piece: Request)
    requires piece.Upload? && from <= piece.offset && piece.offset + |piece.body| <= |input|
    requires piece.body == input[piece.offset..piece.offset + |piece.body|]
    requires |piece.body| <= ChunkSize(session)
    requires if piece.finalize then piece.offset + |piece.body| == |input| else |piece.body| == ChunkSize(session)
    requires !piece.finalize ==> session.granularity.Some? ==>
             IsMultipleOf(piece.offset - from, session.granularity.value)
    ensures IsPiece(input, session, from, piece)
  {
  }

  lemma ContinuedIsFew(input: seq<byte>, session: UploadSession, before: Snapshot, at: Snapshot, observed: nat,
                       pieces: seq<Request>)
    requires observed <= |input| && Continued(input, session, before, at, observed, pieces)
    ensures pieces != [] ==> Times(|pieces| - 1, ChunkSize(session)) <= |input| - observed
  {
    hide Goal, Follows, AlwaysFollows, SendsPieces, SendsInPlace, Tiling, ChunkSize, Times;
    PiecesAreFew(input, session, observed, pieces);
  }

  lemma BetweenIsContinued(input: seq<byte>, session: UploadSession, before: Snapshot, now: Snapshot, observed: nat,
                           offset: nat, pieces: seq<Request>)
    requires Between(input, session, before, now, observed, offset, pieces)
    ensures Continued(input, session, before, now, observed, pieces)
  {
  }

  /** Where the final piece is taken, the rest of the input completes the goal. */
  lemma FinalIsWhole(input: seq<byte>, session: UploadSession, before: Snapshot, now: Snapshot, observed: nat,
                     offset: nat, pieces: seq<Request>)
    requires Between(input, session, before, now, observed, offset, pieces)
    requires offset <= |input| && Admits(now.server, Upload(offset, input[offset..], true))
    ensures now.server.received + input[offset..] == Goal(before.server.received, input)
    ensures !before.server.finalized && |before.server.received| <= |input|
  {
    var goal := Goal(before.server.received, input);
    assert goal[offset..] == input[offset..];
    assert now.server.received == goal[..offset];
  }

  lemma SentOnlyIfNeverStale(before: Snapshot, now: Snapshot, request: Request)
    requires request.Upload? && NeverStale(before, now, request)
    ensures SentOnly(before, now, request)
  {
  }

  lemma StillAligned(done: nat, chunkSize: nat, session: UploadSession)
    requires session.granularity.Some? ==>
               chunkSize == session.granularity.value && IsMultipleOf(done, session.granularity.value)
    ensures session.granularity.Some? ==> IsMultipleOf(done + chunkSize, session.granularity.value)
  {
    if session.granularity.Some? && chunkSize > 0 {
      assert done + chunkSize == chunkSize * (done / chunkSize + 1);
      MultipleLeavesNothing(done / chunkSize + 1, chunkSize);
    }
  }

  lemma MultipleLeavesNothing(q: nat, of: nat)
    requires of > 0
    ensures of * q % of == 0
  {
    var n := of * q;
    var p, r := n / of, n % of;
    assert n == of * p + r;
    if p < q {
      ProductGrows(of, p + 1, q);
    } else if q < p {
      ProductGrows(of, q + 1, p);
    }
  }

  lemma ProductGrows(of: nat, a: nat, b: nat)
    requires a <= b
    ensures of * a <= of * b && of * (a + 1) == of * a + of
    ensures a > 0 ==> of * (a - 1) + of == of * a
  {
    assert of * b == of * a + of * (b - a);
  }

  /** After a piece that got through the client is between pieces again. */
  lemma StillBetween(input: seq<byte>, session: UploadSession, before: Snapshot, now: Snapshot, later: Snapshot,
                     observed: nat, offset: nat, pieces: seq<Request>, piece: Request)
    requires Between(input, session, before, now, observed, offset, pieces)
    requires piece.Upload? && !piece.finalize && piece.offset == offset
    requires Continued(input, session, before, later, observed, pieces + [piece])
    requires |later.server.received| == offset + |piece.body|
    ensures Between(input, session, before, later, observed, offset + |piece.body|, pieces + [piece])
  {
    hide Continued;
  }

  /** A query in between changes neither the server nor what was sent. */
  lemma QueryKeepsBetween(input: seq<byte>, session: UploadSession, before: Snapshot, now: Snapshot, later: Snapshot,
                          observed: nat, offset: nat, pieces: seq<Request>)
    requires Between(input, session, before, now, observed, offset, pieces)
    requires later.server == now.server && later.sent == now.sent
    ensures Between(input, session, before, later, observed, offset, pieces)
    ensures Continued(input, session, before, later, observed, pieces)
  {
  }
}
