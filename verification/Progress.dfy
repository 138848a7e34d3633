/** FFmpeg's `-progress` protocol: an incremental, bounded, self-resetting parser
    (crates/spike-media/src/progress.rs). */
module Progress {
  import opened Prelude

  const MAX_PENDING_BYTES: nat := 64 * 1024
  const NEWLINE: byte := 10
  const RETURN: byte := 13
  const EQUALS: byte := 61

  const FRAME: seq<byte> := [102, 114, 97, 109, 101]
  const OUT_TIME_US: seq<byte> := [111, 117, 116, 95, 116, 105, 109, 101, 95, 117, 115]
  const SPEED: seq<byte> := [115, 112, 101, 101, 100]
  const PROGRESS: seq<byte> := [112, 114, 111, 103, 114, 101, 115, 115]
  const CONTINUE: seq<byte> := [99, 111, 110, 116, 105, 110, 117, 101]
  const END: seq<byte> := [101, 110, 100]
  const NOT_AVAILABLE: seq<byte> := [78, 47, 65]

  /** What parsing a floating-point text gives; finite values are reals. */
  datatype Float = Finite(value: real, signNegative: bool) | NonFinite

  /** The standard library's text routines: UTF-8 validation, Unicode trimming and
      float parsing. Every result below holds for any three such functions. */
  datatype Text = Text(
    isUtf8: seq<byte> -> bool,
    trim: seq<byte> -> seq<byte>,
    parseFloat: seq<byte> -> Option<Float>)

  datatype Event = Event(frame: Option<nat>, outTimeUs: Option<nat>, speed: Option<real>, finished: bool)

  datatype Error =
    | PendingInputTooLarge
    | BlockTooLarge
    | InvalidNumber(key: seq<byte>, value: seq<byte>)
    | InvalidProgressMarker(value: seq<byte>)

  datatype State = State(pending: seq<byte>, current: map<seq<byte>, seq<byte>>, currentBytes: nat)

  const FRESH := State([], map[], 0)

  /** The state after consuming some input and the events it completed. */
  datatype Step = Done(state: State, events: seq<Event>) | Failed(error: Error) {
    /** Sequential composition: `earlier` events come first. */
    function After(earlier: seq<Event>): Step {
      match this
      case Done(s, e) => Done(s, earlier + e)
      case Failed(_) => this
    }
  }

  // ---- numbers ---------------------------------------------------------------

  predicate IsDigit(b: byte) { 48 <= b <= 57 }

  function DigitsValue(digits: seq<byte>): nat
    requires forall i :: 0 <= i < |digits| ==> IsDigit(digits[i])
  {
    if digits == [] then 0
    else
      assert IsDigit(digits[|digits| - 1]);
      DigitsValue(digits[..|digits| - 1]) * 10 + (digits[|digits| - 1] as int - 48)
  }

  /** `str::parse::<u64>`: an optional plus sign and at least one digit, in range. */
  function ParseU64(text: seq<byte>): Option<nat> {
    var digits := if text != [] && text[0] == 43 then text[1..] else text;
    if digits == [] || exists b | b in digits :: !IsDigit(b) then None
    else if DigitsValue(digits) > U64_MAX then None
    else Some(DigitsValue(digits))
  }

  /** A number written out in decimal. */
  function Digits(n: nat): seq<byte> {
    (if n < 10 then [] else Digits(n / 10)) + [48 + n % 10]
  }

  lemma {:induction false} DigitsAreRead(n: nat)
    ensures Digits(n) != [] && forall i :: 0 <= i < |Digits(n)| ==> IsDigit(Digits(n)[i])
    ensures DigitsValue(Digits(n)) == n
    decreases n
  {
    if n >= 10 {
      DigitsAreRead(n / 10);
      assert Digits(n)[..|Digits(n)| - 1] == Digits(n / 10);
    } else {
      assert Digits(n) == [48 + n] && Digits(n)[..0] == [];
    }
  }

  /** A decimal number, with or without a plus sign, is read back exactly when it fits 64 bits. */
  lemma DecimalRoundTrip(n: nat)
    ensures ParseU64(Digits(n)) == ParseU64([43] + Digits(n)) == if n <= U64_MAX then Some(n) else None
  {
    DigitsAreRead(n);
    assert IsDigit(Digits(n)[0]);
    assert ([43] + Digits(n))[1..] == Digits(n);
    hide Digits;
  }

  /** The decimal digits of `n`, perhaps with zeros in front. */
  predicate Denotes(digits: seq<byte>, n: nat) {
    && digits != [] && (forall i :: 0 <= i < |digits| ==> 48 <= digits[i] <= 57) && DigitsValue(digits) == n
  }

  /** Nothing else is a number: a plus sign at most, then digits, and not too many. */
  lemma OnlyDecimalsAreRead(text: seq<byte>, n: nat)
    ensures ParseU64(text) == Some(n) <==>
            n <= U64_MAX && exists digits :: Denotes(digits, n) && (text == digits || text == [43] + digits)
  {
    if ParseU64(text) == Some(n) {
      var digits := if text[0] == 43 then text[1..] else text;
      assert text[0] == 43 ==> text == [43] + digits;
      forall i | 0 <= i < |digits| ensures IsDigit(digits[i]) {
        assert digits[i] in digits;
      }
      assert Denotes(digits, n);
    }
    if digits :| Denotes(digits, n) && (text == digits || text == [43] + digits) {
      assert digits[0] != 43 && ([43] + digits)[1..] == digits;
    }
  }

  function ParseNumber(text: Text, current: map<seq<byte>, seq<byte>>, key: seq<byte>): Result<Option<nat>, Error> {
    if key !in current then Ok(None)
    else
      var value := text.trim(current[key]);
      if value == NOT_AVAILABLE then Ok(None)
      else match ParseU64(value)
        case Some(n) => Ok(Some(n))
        case None => Err(InvalidNumber(key, value))
  }

  function ParseSpeed(text: Text, current: map<seq<byte>, seq<byte>>): Result<Option<real>, Error> {
    if SPEED !in current then Ok(None)
    else
      var value := text.trim(current[SPEED]);
      if value == NOT_AVAILABLE then Ok(None)
      else
        var stripped := if value != [] && value[|value| - 1] == 120 then value[..|value| - 1] else value;
        match text.parseFloat(text.trim(stripped))
        case Some(Finite(r, false)) => Ok(Some(r))
        case _ => Err(InvalidNumber(SPEED, value))
  }

  /** The event a marker line emits from the values stored so far. */
  function EventFrom(text: Text, current: map<seq<byte>, seq<byte>>, marker: seq<byte>): Result<Event, Error> {
    if marker != CONTINUE && marker != END then Err(InvalidProgressMarker(marker))
    else match ParseNumber(text, current, FRAME)
      case Err(e) => Err(e)
      case Ok(frame) =>
        match ParseNumber(text, current, OUT_TIME_US)
        case Err(e) => Err(e)
        case Ok(outTimeUs) =>
          match ParseSpeed(text, current)
          case Err(e) => Err(e)
          case Ok(speed) => Ok(Event(frame, outTimeUs, speed, marker == END))
  }

  // ---- lines -----------------------------------------------------------------

  /** How one line without its terminator is read. */
  datatype Line =
    | Ignored
    | Marker(value: seq<byte>)
    | Assignment(key: seq<byte>, value: seq<byte>)
    | NotText(error: Error)

  /** The position of the first occurrence of `b`, or the length if there is none. */
  function IndexOf(b: byte, s: seq<byte>): (i: nat)
    ensures i <= |s|
    ensures b !in s[..i]
    ensures i < |s| ==> s[i] == b
  {
    if s == [] || s[0] == b then 0
    else
      var i := 1 + IndexOf(b, s[1..]);
      assert s[..i] == [s[0]] + s[1..][..i - 1];
      i
  }

  function ReadLine(text: Text, line: seq<byte>): Line {
    var i := IndexOf(EQUALS, line);
    if i == |line| then Ignored
    else
      var key, value := line[..i], line[i + 1..];
      if key != FRAME && key != OUT_TIME_US && key != SPEED && key != PROGRESS then Ignored
      else if !text.isUtf8(value) then NotText(InvalidNumber(key, value))
      else if key == PROGRESS then Marker(value)
      else Assignment(key, value)
  }

  function StripReturn(line: seq<byte>): seq<byte> {
    if line != [] && line[|line| - 1] == RETURN then line[..|line| - 1] else line
  }

  /** `consume_line` on a line that is already stripped of its terminator. */
  function ConsumeLine(text: Text, s: State, line: seq<byte>): Step {
    var bytes := s.currentBytes + |line| + 1;
    if bytes > MAX_PENDING_BYTES then Failed(BlockTooLarge)
    else match ReadLine(text, line)
      case Ignored => Done(s.(currentBytes := bytes), [])
      case NotText(e) => Failed(e)
      case Assignment(key, value) => Done(s.(current := s.current[key := value], currentBytes := bytes), [])
      case Marker(value) =>
        match EventFrom(text, s.current, value)
        case Ok(event) => Done(State(s.pending, map[], 0), [event])
        case Err(e) => Failed(e)
  }

  /** `finish_line`: the newline that ends `s.pending + suffix` has arrived. */
  function FinishLine(text: Text, s: State, suffix: seq<byte>): Step {
    if |s.pending| + |suffix| > MAX_PENDING_BYTES then Failed(PendingInputTooLarge)
    else ConsumeLine(text, s.(pending := []), StripReturn(s.pending + suffix))
  }

  /** Lines as they stand in the output, each with its line feed. */
  function Terminated(lines: seq<seq<byte>>): seq<byte> {
    if lines == [] then [] else lines[0] + [NEWLINE] + Terminated(lines[1..])
  }

  lemma {:induction false} TerminatedAppend(a: seq<seq<byte>>, b: seq<seq<byte>>)
    ensures Terminated(a + b) == Terminated(a) + Terminated(b)
    decreases |a|
  {
    if a == [] {
      assert a + b == b;
    } else {
      assert (a + b)[0] == a[0] && (a + b)[1..] == a[1..] + b;
      TerminatedAppend(a[1..], b);
    }
  }

  /** A line counts with its line feed, and a block may count 64 KiB. */
  lemma BlockLimit(text: Text, s: State, line: seq<byte>)
    ensures ConsumeLine(text, s, line) == Failed(BlockTooLarge) <==> s.currentBytes + |line| + 1 > 65536
    ensures s.currentBytes + |line| + 1 <= 65536 && ReadLine(text, line) == Ignored ==>
              ConsumeLine(text, s, line) == Done(s.(currentBytes := s.currentBytes + |line| + 1), [])
  {
  }

  // ---- the byte-at-a-time reference ------------------------------------------

  /** The simplest parser: one byte at a time, no look at how input was chunked. */
  function Feed(text: Text, s: State, b: byte): Step {
    if b == NEWLINE then FinishLine(text, s, [])
    else if |s.pending| + 1 > MAX_PENDING_BYTES then Failed(PendingInputTooLarge)
    else Done(s.(pending := s.pending + [b]), [])
  }

  function FeedAll(text: Text, s: State, input: seq<byte>): Step
    decreases |input|
  {
    if input == [] then Done(s, [])
    else match Feed(text, s, input[0])
      case Failed(e) => Failed(e)
      case Done(s1, events) => FeedAll(text, s1, input[1..]).After(events)
  }

  /** What `push` leaves behind: after an error the parser is a fresh one. */
  function PushState(text: Text, s: State, input: seq<byte>): State {
    match FeedAll(text, s, input)
    case Done(s1, _) => s1
    case Failed(_) => FRESH
  }

  function PushResult(text: Text, s: State, input: seq<byte>): Result<seq<Event>, Error> {
    match FeedAll(text, s, input)
    case Done(_, events) => Ok(events)
    case Failed(e) => Err(e)
  }

  lemma {:induction false} FeedAllAppend(text: Text, s: State, a: seq<byte>, b: seq<byte>)
    ensures FeedAll(text, s, a + b) ==
            match FeedAll(text, s, a)
            case Failed(e) => Failed(e)
            case Done(s1, events) => FeedAll(text, s1, b).After(events)
    decreases |a|
  {
    hide Feed;
    if a == [] {
      assert a + b == b;
    } else {
      assert (a + b)[0] == a[0] && (a + b)[1..] == a[1..] + b;
      match Feed(text, s, a[0])
      case Failed(_) =>
      case Done(s1, events) => FeedAllAppend(text, s1, a[1..], b);
    }
  }

  /** A run without newlines only fills the pending buffer, or overflows it. */
  lemma {:induction false} FeedRun(text: Text, s: State, run: seq<byte>)
    requires NEWLINE !in run
    requires |s.pending| <= MAX_PENDING_BYTES
    ensures FeedAll(text, s, run) ==
            if |s.pending| + |run| > 65536 then Failed(PendingInputTooLarge)
            else Done(s.(pending := s.pending + run), [])
    decreases |run|
  {
    if run == [] {
      assert s.pending + run == s.pending;
    } else if |s.pending| < MAX_PENDING_BYTES {
      var s1 := s.(pending := s.pending + [run[0]]);
      FeedRun(text, s1, run[1..]);
      assert s1.pending + run[1..] == s.pending + run;
    }
  }

  /** A whole terminated line handed over in one piece is `FinishLine`. */
  lemma {:induction false} FeedLine(text: Text, s: State, run: seq<byte>)
    requires NEWLINE !in run
    requires |s.pending| <= MAX_PENDING_BYTES
    ensures FeedAll(text, s, run + [NEWLINE]) == FinishLine(text, s, run)
  {
    FeedAllAppend(text, s, run, [NEWLINE]);
    FeedRun(text, s, run);
    if |s.pending| + |run| <= MAX_PENDING_BYTES {
      var s1 := s.(pending := s.pending + run);
      var step := FinishLine(text, s1, []);
      assert s1.pending + [] == s.pending + run;
      assert s1.(pending := []) == s.(pending := []);
      assert step == FinishLine(text, s, run);
      assert [NEWLINE][1..] == [];
      match step
      case Failed(_) =>
      case Done(_, events) => assert events + [] == events && [] + events == events;
    }
  }

  // ---- what every reachable state keeps ---------------------------------------

  function StoredAt(current: map<seq<byte>, seq<byte>>, key: seq<byte>): nat {
    if key in current then |key| + |current[key]| else 0
  }

  /** Pending bytes hold no newline and stay within the limit; only the three known
      keys are stored, and keys and values together weigh at most `currentBytes`. */
  ghost predicate Bounded(s: State) {
    && NEWLINE !in s.pending
    && |s.pending| <= MAX_PENDING_BYTES
    && s.current.Keys <= {FRAME, OUT_TIME_US, SPEED}
    && StoredAt(s.current, FRAME) + StoredAt(s.current, OUT_TIME_US) + StoredAt(s.current, SPEED) <= s.currentBytes
    && s.currentBytes <= MAX_PENDING_BYTES
  }

  lemma FeedKeepsBounded(text: Text, s: State, b: byte)
    requires Bounded(s)
    ensures Feed(text, s, b).Done? ==> Bounded(Feed(text, s, b).state)
  {
    hide EventFrom;
    if b == NEWLINE && Feed(text, s, b).Done? {
      var line := StripReturn(s.pending + []);
      var i := IndexOf(EQUALS, line);
      match ReadLine(text, line)
      case Assignment(key, value) =>
        assert |key| + |value| + 1 == |line|;
      case _ =>
    }
  }

  lemma {:induction false} FeedAllKeepsBounded(text: Text, s: State, input: seq<byte>)
    requires Bounded(s)
    ensures FeedAll(text, s, input).Done? ==> Bounded(FeedAll(text, s, input).state)
    decreases |input|
  {
    hide Feed, Bounded;
    if input != [] && Feed(text, s, input[0]).Done? {
      FeedKeepsBounded(text, s, input[0]);
      FeedAllKeepsBounded(text, Feed(text, s, input[0]).state, input[1..]);
    }
  }

  /** Every state the parser can be in is bounded, whatever was pushed before. */
  lemma EveryPushKeepsBounded(text: Text, s: State, input: seq<byte>)
    requires Bounded(s)
    ensures Bounded(PushState(text, s, input)) && Bounded(FRESH)
  {
    FeedAllKeepsBounded(text, s, input);
  }

  /** One more terminated line of `input` is one more `FinishLine`. */
  lemma NextLine(text: Text, s: State, input: seq<byte>, start: nat, index: nat, now: State, events: seq<Event>)
    requires start <= index < |input| && input[index] == NEWLINE && NEWLINE !in input[start..index]
    requires |now.pending| <= MAX_PENDING_BYTES
    requires FeedAll(text, s, input[..start]) == Done(now, events)
    ensures FeedAll(text, s, input[..index + 1]) == FinishLine(text, now, input[start..index]).After(events)
    ensures FinishLine(text, now, input[start..index]).Failed? ==>
              FeedAll(text, s, input) == FinishLine(text, now, input[start..index])
  {
    hide FinishLine, Feed;
    var line := input[start..index];
    FeedLine(text, now, line);
    FeedAllAppend(text, s, input[..start], line + [NEWLINE]);
    assert input[..start] + (line + [NEWLINE]) == input[..index + 1];
    FeedAllAppend(text, s, input[..index + 1], input[index + 1..]);
    assert input == input[..index + 1] + input[index + 1..];
  }

  /** What follows the last newline of `input` is only buffered. */
  lemma Tail(text: Text, s: State, input: seq<byte>, start: nat, now: State, events: seq<Event>)
    requires start <= |input| && NEWLINE !in input[start..]
    requires |now.pending| <= MAX_PENDING_BYTES
    requires FeedAll(text, s, input[..start]) == Done(now, events)
    ensures FeedAll(text, s, input) ==
            if |now.pending| + (|input| - start) > MAX_PENDING_BYTES then Failed(PendingInputTooLarge)
            else Done(now.(pending := now.pending + input[start..]), events)
  {
    assert input[..start] + input[start..] == input;
    FeedAllAppend(text, s, input[..start], input[start..]);
    FeedRun(text, now, input[start..]);
    assert events + [] == events;
  }

  // ---- the parser object -----------------------------------------------------

  class ProgressParser {
    const text: Text
    var pending: seq<byte>
    var current: map<seq<byte>, seq<byte>>
    var currentBytes: nat

    ghost function Value(): State
      reads this
    {
      State(pending, current, currentBytes)
    }

    constructor (text: Text)
      ensures this.text == text && Value() == FRESH
    {
      this.text := text;
      pending, current, currentBytes := [], map[], 0;
    }

    method Reset()
      modifies this
      ensures Value() == FRESH
    {
      pending, current, currentBytes := [], map[], 0;
    }

    /** Adds arbitrary bytes; agrees with the byte-at-a-time reference, and is a
        fresh parser again after any error. */
    method Push(input: seq<byte>) returns (r: Result<seq<Event>, Error>)
      requires Bounded(Value())
      modifies this
      ensures r == PushResult(text, old(Value()), input)
      ensures Value() == PushState(text, old(Value()), input)
      ensures Bounded(Value())
    {
      hide FinishLine;
      EveryPushKeepsBounded(text, Value(), input);
      var events := [];
      var start, index := 0, 0;
      assert input[..0] == [];
      ghost var before := Value();
      while index < |input|
        invariant 0 <= start <= index <= |input|
        invariant NEWLINE !in input[start..index]
        invariant |pending| <= MAX_PENDING_BYTES
        invariant FeedAll(text, before, input[..start]) == Done(Value(), events)
      {
        if input[index] == NEWLINE {
          NextLine(text, before, input, start, index, Value(), events);
          var step := TakeLine(input[start..index], events);
          if step.Err? {
            Reset();
            return Err(step.error);
          }
          events := step.value;
          start := index + 1;
        }
        index := index + 1;
      }
      assert input[start..index] == input[start..];
      Tail(text, before, input, start, Value(), events);
      if start < |input| {
        if |pending| + (|input| - start) > MAX_PENDING_BYTES {
          Reset();
          return Err(PendingInputTooLarge);
        }
        pending := pending + input[start..];
      }
      assert events + [] == events;
      return Ok(events);
    }

    /** `finish_line` with `consume_line` and `emit`: on success the new events. */
    method TakeLine(suffix: seq<byte>, events: seq<Event>) returns (r: Result<seq<Event>, Error>)
      modifies this
      ensures match FinishLine(text, old(Value()), suffix)
              case Failed(e) => r == Err(e)
              case Done(s, more) => r == Ok(events + more) && Value() == s && pending == []
    {
      if |pending| + |suffix| > MAX_PENDING_BYTES {
        return Err(PendingInputTooLarge);
      }
      var line := StripReturn(pending + suffix);
      pending := [];
      currentBytes := currentBytes + |line| + 1;
      if currentBytes > MAX_PENDING_BYTES {
        return Err(BlockTooLarge);
      }
      match ReadLine(text, line) {
        case Ignored =>
        case NotText(error) => return Err(error);
        case Assignment(key, value) => current := current[key := value];
        case Marker(value) =>
          match EventFrom(text, current, value) {
            case Err(error) => return Err(error);
            case Ok(event) =>
              current, currentBytes := map[], 0;
              return Ok(events + [event]);
          }
      }
      assert events + [] == events;
      return Ok(events);
    }
  }

  // ---- chunking does not matter ----------------------------------------------

  /** Pushing `a` and then `b` succeeds exactly when pushing `a + b` does, with the
      same final state and the events concatenated; a failure is the same failure. */
  lemma PushCommutesWithConcatenation(text: Text, s: State, a: seq<byte>, b: seq<byte>)
    ensures PushResult(text, s, a + b) ==
            match PushResult(text, s, a)
            case Err(e) => Err(e)
            case Ok(first) =>
              (match PushResult(text, PushState(text, s, a), b)
               case Err(e) => Err(e)
               case Ok(second) => Ok(first + second))
    ensures PushResult(text, s, a).Ok? ==> PushState(text, s, a + b) == PushState(text, PushState(text, s, a), b)
    ensures PushResult(text, s, a).Err? ==> PushState(text, s, a + b) == FRESH == PushState(text, s, a)
  {
    FeedAllAppend(text, s, a, b);
  }

  /** Pushing a list of chunks, stopping at the first error as `drain_progress` does. */
  function PushChunks(text: Text, s: State, chunks: seq<seq<byte>>): Result<seq<Event>, Error>
    decreases |chunks|
  {
    if chunks == [] then Ok([])
    else match PushResult(text, s, chunks[0])
      case Err(e) => Err(e)
      case Ok(first) =>
        match PushChunks(text, PushState(text, s, chunks[0]), chunks[1..])
        case Err(e) => Err(e)
        case Ok(rest) => Ok(first + rest)
  }

  lemma {:induction false} AnyChunkingAgrees(text: Text, s: State, chunks: seq<seq<byte>>)
    ensures PushChunks(text, s, chunks) == PushResult(text, s, Concat(chunks))
    decreases |chunks|
  {
    if chunks != [] {
      PushCommutesWithConcatenation(text, s, chunks[0], Concat(chunks[1..]));
      AnyChunkingAgrees(text, PushState(text, s, chunks[0]), chunks[1..]);
    }
  }
}
