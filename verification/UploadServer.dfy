/** The resumable-upload server as the client sees it, with an arbitrary schedule of
    faults. The assumptions the protocol rests on are all in `Answer`. */
module UploadServer {
  import opened Prelude

  /** What happens to the request that uses up one step of the schedule. */
  datatype FaultKind = Served | Throttled | ServerFailed | Lost | Refused

  /** `persisted` and `finalizes` say how far a failed or lost upload got anyway;
      the other fields are the headers and body of the answer. */
  datatype Fault = Fault(
    kind: FaultKind,
    persisted: nat,
    finalizes: bool,
    status: nat,
    retryAfter: Option<u64>,
    sizeHeader: bool,
    uploadUrl: Option<string>,
    granularity: GranularityHeader,
    file: Option<RemoteFile>)

  datatype GranularityHeader = Absent | Malformed | Granularity(value: u64)

  datatype FileState = Processing | Active | FailedState | Unspecified

  datatype RemoteFile = RemoteFile(name: string, uri: string, mimeType: string, state: FileState)

  datatype Request =
    | Start
    | Query
    | Upload(offset: nat, body: seq<byte>, finalize: bool)

  datatype Response = Response(
    status: nat,
    retryAfter: Option<u64>,
    sizeReceived: Option<u64>,
    uploadUrl: Option<string>,
    granularity: GranularityHeader,
    file: Option<RemoteFile>)

  predicate IsSuccess(status: nat) { 200 <= status < 300 }

  predicate IsServerError(status: nat) { 500 <= status < 600 }

  /** `transient`: the statuses that are worth another attempt. */
  predicate Transient(status: nat) { status == 429 || IsServerError(status) }

  datatype ServerState = ServerState(received: seq<byte>, finalized: bool)

  /** Only an upload at the true offset of an open session is taken. */
  predicate Admits(server: ServerState, request: Request) {
    request.Upload? ==> !server.finalized && request.offset == |server.received|
  }

  function Take(server: ServerState, request: Request): ServerState
    requires request.Upload?
  {
    ServerState(server.received + request.body, server.finalized || request.finalize)
  }

  /** An upload that failed or whose answer was lost: any prefix may have been kept,
      and a kept final piece may have closed the session. */
  function TakePartly(server: ServerState, request: Request, fault: Fault): ServerState
    requires request.Upload?
  {
    var kept := Min(fault.persisted, |request.body|);
    ServerState(server.received + request.body[..kept],
      server.finalized || (request.finalize && kept == |request.body| && fault.finalizes))
  }

  function NextState(server: ServerState, request: Request, fault: Fault): ServerState {
    match request
    case Query => server
    case Start => if fault.kind.Served? then ServerState([], false) else server
    case Upload(_, _, _) =>
      if !Admits(server, request) then server
      else match fault.kind
        case Served => Take(server, request)
        case ServerFailed => TakePartly(server, request, fault)
        case Lost => TakePartly(server, request, fault)
        case _ => server
  }

  /** The status of the answer; nothing is answered when the exchange is lost. */
  function Status(server: ServerState, request: Request, fault: Fault): nat {
    match fault.kind
    case Served => if Admits(server, request) then 200 + fault.status % 100 else 400
    case Throttled => 429
    case ServerFailed => 500 + fault.status % 100
    case _ => if 300 + fault.status % 200 == 429 then 400 else 300 + fault.status % 200
  }

  /** A 2xx keeps the whole body, a 429 keeps nothing, a 5xx or a lost answer may keep
      any prefix, an upload elsewhere than at the true offset or after the final piece
      is refused, and a query reports the true count. */
  function Answer(server: ServerState, request: Request, fault: Fault): Option<Response> {
    if fault.kind.Lost? then None
    else Some(Response(
      Status(server, request, fault), fault.retryAfter,
      if fault.sizeHeader && |server.received| <= U64_MAX then Some(|server.received|) else None,
      fault.uploadUrl, fault.granularity, fault.file))
  }

  /** An exchange that goes through, with everything in its answer that the client asks for. */
  predicate Calm(fault: Fault) {
    && fault.kind.Served? && fault.sizeHeader && fault.uploadUrl.Some? && fault.file.Some?
    && (fault.granularity.Absent? || (fault.granularity.Granularity? && fault.granularity.value > 0))
  }

  /** A failure that is worth another attempt and leaves the server where it is. */
  predicate PassesOver(server: ServerState, request: Request, fault: Fault) {
    fault.kind.Throttled? || (fault.kind.ServerFailed? && NextState(server, request, fault) == server)
  }

  /** The server answers with an error, but the exchange has moved it. */
  predicate KeptOnError(server: ServerState, request: Request, fault: Fault) {
    request.Upload? && fault.kind.ServerFailed? && NextState(server, request, fault) != server
  }

  /** Which of at most `n` attempts from `step` on decides: the first that is not passed over,
      or the last one. */
  function Deciding(schedule: nat -> Fault, server: ServerState, request: Request, step: nat, n: nat): (last: nat)
    requires n > 0
    ensures step <= last < step + n
    decreases n
  {
    if n == 1 || !PassesOver(server, request, schedule(step)) then step
    else Deciding(schedule, server, request, step + 1, n - 1)
  }

  /** The step after a query that gets the count, if one of at most `n` attempts does. */
  function AnsweredBy(schedule: nat -> Fault, server: ServerState, step: nat, n: nat): Option<nat> {
    if n == 0 then None
    else
      var last := Deciding(schedule, server, Query, step, n);
      if schedule(last).kind.Served? && schedule(last).sizeHeader && |server.received| <= U64_MAX then Some(last + 1)
      else None
  }

  /** One upload request as it was sent, with the server before and after it. */
  datatype Sent = Sent(request: Request, before: ServerState, after: ServerState)

  /** The server together with what the client has done to it so far. */
  datatype Snapshot = Snapshot(server: ServerState, step: nat, sent: seq<Sent>, queries: nat, slept: nat) {
    function Exchange(request: Request, fault: Fault): Snapshot {
      var after := NextState(server, request, fault);
      Snapshot(after, step + 1,
        if request.Upload? then sent + [Sent(request, server, after)] else sent,
        if request.Query? then queries + 1 else queries,
        slept)
    }
  }

  class Wire {
    const schedule: nat -> Fault
    var at: Snapshot

    constructor (schedule: nat -> Fault)
      ensures this.schedule == schedule && at == Snapshot(ServerState([], false), 0, [], 0, 0)
    {
      this.schedule := schedule;
      at := Snapshot(ServerState([], false), 0, [], 0, 0);
    }

    /** One request and its answer; the request has settled when this returns. */
    method Send(request: Request) returns (response: Option<Response>)
      modifies this
      ensures at == old(at).Exchange(request, schedule(old(at).step))
      ensures response == Answer(old(at).server, request, schedule(old(at).step))
    {
      var fault := schedule(at.step);
      response := Answer(at.server, request, fault);
      at := at.Exchange(request, fault);
    }

    method Sleep(millis: nat)
      modifies this
      ensures at == old(at).(slept := old(at).slept + millis)
    {
      at := at.(slept := at.slept + millis);
    }
  }

  // ---- what one exchange can do -----------------------------------------------------

  /** The server kept some prefix of `body`, and closed only behind all of it. */
  ghost predicate Grew(before: ServerState, after: ServerState, body: seq<byte>, finalize: bool) {
    exists k | 0 <= k <= |body| ::
      && after.received == before.received + body[..k]
      && (after.finalized == before.finalized || (finalize && after.finalized && k == |body|))
  }

  lemma GrewNothing(server: ServerState, body: seq<byte>, finalize: bool)
    ensures Grew(server, server, body, finalize)
  {
    assert server.received == server.received + body[..0];
  }

  lemma ExchangeGrows(server: ServerState, request: Request, fault: Fault)
    requires request.Upload?
    ensures Grew(server, NextState(server, request, fault), request.body, request.finalize)
    ensures var answer := Answer(server, request, fault);
            answer.Some? && IsSuccess(answer.value.status) ==>
              Admits(server, request) && NextState(server, request, fault) == Take(server, request)
    ensures !Admits(server, request) ==> NextState(server, request, fault) == server
  {
    GrewNothing(server, request.body, request.finalize);
    assert request.body[..|request.body|] == request.body;
  }
}
