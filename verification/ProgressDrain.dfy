/** The consumer of a running FFmpeg's progress output
    (crates/spike-media/src/cpu_fallback.rs). */
module ProgressDrain {
  import opened Prelude
  import opened Progress

  /** What one read of the child's stdout gives; a read of no bytes is the end. */
  datatype Read = Bytes(bytes: seq<byte>) | ReadFailed

  datatype DrainError = Io | ProgressFailed(error: Error)

  datatype ProgressSummary = ProgressSummary(speedSum: real, speedCount: u64, sawFinished: bool) {
    function Record(event: Event): ProgressSummary {
      var finished := sawFinished || event.finished;
      match event.speed
      case Some(speed) => ProgressSummary(speedSum + speed, Min(speedCount + 1, U64_MAX), finished)
      case None => this.(sawFinished := finished)
    }

    /** More than `u32::MAX` recorded speeds panic in the source. */
    function AverageSpeed(): Option<real>
      requires speedCount <= U32_MAX
    {
      if speedCount == 0 then None else Some(speedSum / (speedCount as real))
    }
  }

  const EMPTY := ProgressSummary(0.0, 0, false)

  function Summarize(summary: ProgressSummary, events: seq<Event>): ProgressSummary
    decreases |events|
  {
    if events == [] then summary else Summarize(summary.Record(events[0]), events[1..])
  }

  function Speeds(events: seq<Event>): seq<real> {
    if events == [] then []
    else
      var last := events[|events| - 1].speed;
      Speeds(events[..|events| - 1]) + (if last.Some? then [last.value] else [])
  }

  function Sum(speeds: seq<real>): real {
    if speeds == [] then 0.0 else Sum(speeds[..|speeds| - 1]) + speeds[|speeds| - 1]
  }

  /** `average_speed_from_progress`: parse everything at once and average the speeds. */
  function AverageSpeedFromProgress(text: Text, progress: seq<byte>): Result<Option<real>, Error> {
    match PushResult(text, FRESH, progress)
    case Err(e) => Err(e)
    case Ok(events) =>
      var speeds := Speeds(events);
      Ok(if speeds == [] then None else Some(Sum(speeds) / (|speeds| as real)))
  }

  lemma {:induction false} SummarizeAppend(summary: ProgressSummary, a: seq<Event>, b: seq<Event>)
    ensures Summarize(summary, a + b) == Summarize(Summarize(summary, a), b)
    decreases |a|
  {
    if a == [] {
      assert a + b == b;
    } else {
      assert (a + b)[0] == a[0] && (a + b)[1..] == a[1..] + b;
      SummarizeAppend(summary.Record(a[0]), a[1..], b);
    }
  }

  /** The running sums are the sums over the collected speeds. */
  lemma {:induction false} SummaryIsTotals(events: seq<Event>)
    ensures var s := Summarize(EMPTY, events);
            && s.speedSum == Sum(Speeds(events))
            && s.speedCount == Min(|Speeds(events)|, U64_MAX)
            && (s.sawFinished <==> exists k :: 0 <= k < |events| && events[k].finished)
    decreases |events|
  {
    if events != [] {
      var init, last := events[..|events| - 1], events[|events| - 1];
      assert events == init + [last];
      SummaryIsTotals(init);
      SummarizeAppend(EMPTY, init, [last]);
      var before := Summarize(EMPTY, init);
      assert Summarize(before, [last]) == before.Record(last) by { assert [last][1..] == []; }
      match last.speed
      case Some(speed) =>
        assert Speeds(events) == Speeds(init) + [speed];
        assert Speeds(events)[..|Speeds(init)|] == Speeds(init);
      case None =>
        assert Speeds(events) == Speeds(init);
      assert forall k :: 0 <= k < |init| ==> events[k] == init[k];
    }
  }

  /** The bytes that arrive before the end of the stream or a failed read. */
  function Received(incoming: seq<Read>): seq<byte>
    decreases |incoming|
  {
    if incoming == [] || incoming[0].ReadFailed? || incoming[0].bytes == [] then []
    else incoming[0].bytes + Received(incoming[1..])
  }

  predicate ReadsCleanly(incoming: seq<Read>)
    decreases |incoming|
  {
    incoming == [] || incoming[0] == Bytes([]) || (incoming[0].Bytes? && ReadsCleanly(incoming[1..]))
  }

  /** `drain_progress`: read, push, record, until a read returns nothing. A progress
      error is reported exactly when parsing the received bytes at once reports it. */
  method DrainProgress(text: Text, incoming: seq<Read>) returns (r: Result<ProgressSummary, DrainError>)
    ensures match PushResult(text, FRESH, Received(incoming))
            case Err(e) => r == Err(ProgressFailed(e))
            case Ok(events) =>
              r == if ReadsCleanly(incoming) then Ok(Summarize(EMPTY, events)) else Err(Io)
  {
    var parser := new ProgressParser(text);
    var summary := EMPTY;
    var index := 0;
    ghost var consumed: seq<byte> := [];
    ghost var events: seq<Event> := [];
    NothingDrained(text, incoming);
    hide FeedAll, Received, ReadsCleanly, Summarize, PushResult, PushState, Concat;
    while index < |incoming|
      invariant 0 <= index <= |incoming|
      invariant parser.text == text && Bounded(parser.Value()) && fresh(parser)
      invariant FeedAll(text, FRESH, consumed) == Done(parser.Value(), events)
      invariant summary == Summarize(EMPTY, events)
      invariant Received(incoming) == consumed + Received(incoming[index..])
      invariant ReadsCleanly(incoming) == ReadsCleanly(incoming[index..])
    {
      hide Bounded;
      NextRead(incoming, index);
      match incoming[index] {
        case ReadFailed =>
          Drained(text, consumed, parser.Value(), events);
          return Err(Io);
        case Bytes(bytes) =>
          if bytes == [] {
            Drained(text, consumed, parser.Value(), events);
            return Ok(summary);
          }
          Pushed(text, consumed, parser.Value(), events, bytes, Received(incoming[index + 1..]));
          var pushed := parser.Push(bytes);
          if pushed.Err? {
            return Err(ProgressFailed(pushed.error));
          }
          SummarizeAppend(EMPTY, events, pushed.value);
          summary := RecordAll(summary, pushed.value);
          consumed, events := consumed + bytes, events + pushed.value;
      }
      index := index + 1;
    }
    assert incoming[index..] == [];
    NothingLeft();
    Drained(text, consumed, parser.Value(), events);
    return Ok(summary);
  }

  /** Parsing goes on from where it is; an error is the error of the whole. */
  lemma Pushed(text: Text, consumed: seq<byte>, s: State, events: seq<Event>, bytes: seq<byte>, rest: seq<byte>)
    requires FeedAll(text, FRESH, consumed) == Done(s, events)
    ensures consumed + (bytes + rest) == consumed + bytes + rest
    ensures match PushResult(text, s, bytes)
            case Err(e) => PushResult(text, FRESH, consumed + (bytes + rest)) == Err(e)
            case Ok(more) => FeedAll(text, FRESH, consumed + bytes) == Done(PushState(text, s, bytes), events + more)
  {
    hide FeedAll;
    assert consumed + (bytes + rest) == consumed + bytes + rest;
    FeedAllAppend(text, FRESH, consumed, bytes);
    FeedAllAppend(text, FRESH, consumed + bytes, rest);
  }

  lemma NothingDrained(text: Text, incoming: seq<Read>)
    ensures FeedAll(text, FRESH, []) == Done(FRESH, []) && Summarize(EMPTY, []) == EMPTY
    ensures incoming[0..] == incoming && [] + Received(incoming) == Received(incoming)
  {
  }

  lemma NothingLeft()
    ensures Received([]) == [] && ReadsCleanly([])
  {
  }

  lemma Drained(text: Text, consumed: seq<byte>, s: State, events: seq<Event>)
    requires FeedAll(text, FRESH, consumed) == Done(s, events)
    ensures PushResult(text, FRESH, consumed) == Ok(events) && consumed + [] == consumed
  {
    hide FeedAll;
  }

  /** What the next read adds to what is received, and whether it ends it. */
  lemma NextRead(incoming: seq<Read>, index: nat)
    requires index < |incoming|
    ensures match incoming[index]
            case ReadFailed => Received(incoming[index..]) == [] && !ReadsCleanly(incoming[index..])
            case Bytes(bytes) =>
              if bytes == [] then Received(incoming[index..]) == [] && ReadsCleanly(incoming[index..])
              else && Received(incoming[index..]) == bytes + Received(incoming[index + 1..])
                   && ReadsCleanly(incoming[index..]) == ReadsCleanly(incoming[index + 1..])
  {
    assert incoming[index..][0] == incoming[index] && incoming[index..][1..] == incoming[index + 1..];
  }

  method RecordAll(summary: ProgressSummary, events: seq<Event>) returns (r: ProgressSummary)
    ensures r == Summarize(summary, events)
  {
    r := summary;
    for i := 0 to |events|
      invariant Summarize(summary, events) == Summarize(r, events[i..])
    {
      r := r.Record(events[i]);
    }
  }

  /** Draining in any chunks and averaging is averaging the whole output at once. */
  lemma DrainedAverageIsWholeAverage(text: Text, incoming: seq<Read>, events: seq<Event>)
    requires PushResult(text, FRESH, Received(incoming)) == Ok(events)
    requires Summarize(EMPTY, events).speedCount <= U32_MAX
    ensures AverageSpeedFromProgress(text, Received(incoming)) == Ok(Summarize(EMPTY, events).AverageSpeed())
  {
    SummaryIsTotals(events);
  }
}
