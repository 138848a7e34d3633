/** Two independent readings of a progress stream that the incremental parser must
    agree with: splitting the whole input into lines, and collecting whole blocks. */
module ProgressBlocks {
  import opened Prelude
  import opened Progress

  // ---- the whole input, split into lines ---------------------------------------

  /** The lines of `input` that a newline terminates, in order, without it. */
  function Lines(input: seq<byte>): (lines: seq<seq<byte>>)
    decreases |input|
  {
    var i := IndexOf(NEWLINE, input);
    if i == |input| then [] else [input[..i]] + Lines(input[i + 1..])
  }

  /** What follows the last newline. */
  function Remainder(input: seq<byte>): (rest: seq<byte>)
    decreases |input|
  {
    var i := IndexOf(NEWLINE, input);
    if i == |input| then input else Remainder(input[i + 1..])
  }

  /** Splitting loses nothing and leaves no newline inside a line. */
  lemma {:induction false} SplitIsExact(input: seq<byte>)
    ensures Terminated(Lines(input)) + Remainder(input) == input
    ensures NEWLINE !in Remainder(input)
    ensures forall k :: 0 <= k < |Lines(input)| ==> NEWLINE !in Lines(input)[k]
    decreases |input|
  {
    hide IndexOf, Terminated;
    var i := IndexOf(NEWLINE, input);
    if i < |input| {
      var line, tail := input[..i], input[i + 1..];
      SplitIsExact(tail);
      TerminatedCons(line, Lines(tail), Remainder(tail));
      assert Lines(input) == [line] + Lines(tail) && Remainder(input) == Remainder(tail);
      assert input == line + [NEWLINE] + tail;
    } else {
      assert input[..i] == input;
      assert Lines(input) == [] && Remainder(input) == input;
      TerminatedNothing(input);
    }
  }

  lemma TerminatedNothing(rest: seq<byte>)
    ensures Terminated([]) + rest == rest
  {
  }

  lemma TerminatedCons(line: seq<byte>, lines: seq<seq<byte>>, rest: seq<byte>)
    ensures Terminated([line] + lines) + rest == line + [NEWLINE] + (Terminated(lines) + rest)
  {
    assert ([line] + lines)[1..] == lines;
  }

  function FoldLines(text: Text, s: State, lines: seq<seq<byte>>): Step
    decreases |lines|
  {
    if lines == [] then Done(s, [])
    else match FinishLine(text, s, lines[0])
      case Failed(e) => Failed(e)
      case Done(s1, events) => FoldLines(text, s1, lines[1..]).After(events)
  }

  /** Parsing all of an input at once: its lines in order, then the remainder. */
  function ParseWhole(text: Text, s: State, input: seq<byte>): Step {
    match FoldLines(text, s, Lines(input))
    case Failed(e) => Failed(e)
    case Done(s1, events) =>
      if |Remainder(input)| > MAX_PENDING_BYTES then Failed(PendingInputTooLarge)
      else Done(s1.(pending := Remainder(input)), events)
  }

  lemma FinishLineEmpties(text: Text, s: State, line: seq<byte>)
    ensures FinishLine(text, s, line).Done? ==> FinishLine(text, s, line).state.pending == []
  {
    hide EventFrom, ReadLine;
  }

  lemma {:induction false} FeedAllIsParseWhole(text: Text, s: State, input: seq<byte>)
    requires s.pending == []
    ensures FeedAll(text, s, input) == ParseWhole(text, s, input)
    decreases |input|
  {
    hide FinishLine, Feed;
    var i := IndexOf(NEWLINE, input);
    if i == |input| {
      assert input[..i] == input;
      FeedRun(text, s, input);
      assert [] + input == input;
    } else {
      var line, rest := input[..i], input[i + 1..];
      assert input == (line + [NEWLINE]) + rest;
      FeedAllAppend(text, s, line + [NEWLINE], rest);
      FeedLine(text, s, line);
      FinishLineEmpties(text, s, line);
      assert Lines(input)[0] == line && Lines(input)[1..] == Lines(rest);
      match FinishLine(text, s, line)
      case Failed(_) =>
      case Done(s1, events) => FeedAllIsParseWhole(text, s1, rest);
    }
  }

  /** From any reachable state, pushing `input` is parsing everything buffered so far
      together with `input` in one go: no buffering or chunking can be observed. */
  lemma PushIsParseWhole(text: Text, s: State, input: seq<byte>)
    requires Bounded(s)
    ensures FeedAll(text, s, input) == ParseWhole(text, s.(pending := []), s.pending + input)
  {
    hide Feed;
    var empty := s.(pending := []);
    FeedAllAppend(text, empty, s.pending, input);
    FeedRun(text, empty, s.pending);
    assert [] + s.pending == s.pending;
    FeedAllIsParseWhole(text, empty, s.pending + input);
    match FeedAll(text, s, input)
    case Failed(_) =>
    case Done(_, events) => assert [] + events == events;
  }

  // ---- blocks of raw lines ------------------------------------------------------

  /** The value the last assignment to `key` in the block gives it: last one wins. */
  function LastValue(text: Text, block: seq<seq<byte>>, key: seq<byte>): Option<seq<byte>> {
    if block == [] then None
    else
      var last := ReadLine(text, block[|block| - 1]);
      if last.Assignment? && last.key == key then Some(last.value)
      else LastValue(text, block[..|block| - 1], key)
  }

  function Values(text: Text, block: seq<seq<byte>>): map<seq<byte>, seq<byte>> {
    map key | key in {FRAME, OUT_TIME_US, SPEED} && LastValue(text, block, key).Some? ::
      LastValue(text, block, key).value
  }

  datatype BlockStep = Read(block: seq<seq<byte>>, events: seq<Event>) | Rejected(error: Error) {
    function After(earlier: seq<Event>): BlockStep {
      match this
      case Read(b, e) => Read(b, earlier + e)
      case Rejected(_) => this
    }
  }

  /** A parser without a map or a counter: it keeps the raw lines since the last
      marker, and a marker turns exactly those lines into one event. */
  function ReadLineIntoBlock(text: Text, block: seq<seq<byte>>, raw: seq<byte>): BlockStep {
    var line := StripReturn(raw);
    if |raw| > MAX_PENDING_BYTES then Rejected(PendingInputTooLarge)
    else if |Terminated(block)| + |line| + 1 > MAX_PENDING_BYTES then Rejected(BlockTooLarge)
    else match ReadLine(text, line)
      case NotText(e) => Rejected(e)
      case Marker(value) =>
        (match EventFrom(text, Values(text, block), value)
         case Ok(event) => Read([], [event])
         case Err(e) => Rejected(e))
      case _ => Read(block + [line], [])
  }

  function ReadBlocks(text: Text, block: seq<seq<byte>>, lines: seq<seq<byte>>): BlockStep
    decreases |lines|
  {
    if lines == [] then Read(block, [])
    else match ReadLineIntoBlock(text, block, lines[0])
      case Rejected(e) => Rejected(e)
      case Read(b, events) => ReadBlocks(text, b, lines[1..]).After(events)
  }

  /** The parser's map and counter stand for the lines since the last marker. */
  ghost predicate Abstracts(text: Text, s: State, block: seq<seq<byte>>) {
    s.pending == [] && s.current == Values(text, block) && s.currentBytes == |Terminated(block)|
  }

  ghost predicate Agree(text: Text, concrete: Step, abstracted: BlockStep) {
    match (concrete, abstracted)
    case (Done(s, events), Read(block, events')) => events == events' && Abstracts(text, s, block)
    case (Failed(e), Rejected(e')) => e == e'
    case _ => false
  }

  lemma ValuesSnoc(text: Text, block: seq<seq<byte>>, line: seq<byte>)
    ensures Values(text, block + [line]) ==
            match ReadLine(text, line)
            case Assignment(key, value) => Values(text, block)[key := value]
            case _ => Values(text, block)
    ensures |Terminated(block + [line])| == |Terminated(block)| + |line| + 1
  {
    assert (block + [line])[..|block|] == block;
    TerminatedAppend(block, [line]);
    assert [line][1..] == [];
  }

  lemma LineRefines(text: Text, s: State, block: seq<seq<byte>>, raw: seq<byte>)
    requires Abstracts(text, s, block)
    ensures Agree(text, FinishLine(text, s, raw), ReadLineIntoBlock(text, block, raw))
  {
    hide EventFrom, LastValue;
    assert s.pending + raw == raw;
    ValuesSnoc(text, block, StripReturn(raw));
    EmptyBlock(text);
  }

  lemma EmptyBlock(text: Text)
    ensures Values(text, []) == map[] && |Terminated([])| == 0
  {
  }

  /** The parser with its map and byte counter refines the one that keeps raw lines:
      same events, same error on the same line, and afterwards the same open block. */
  lemma {:induction false} ParserRefinesBlocks(text: Text, s: State, block: seq<seq<byte>>, lines: seq<seq<byte>>)
    requires Abstracts(text, s, block)
    ensures Agree(text, FoldLines(text, s, lines), ReadBlocks(text, block, lines))
    decreases |lines|
  {
    hide FinishLine, ReadLineIntoBlock, Abstracts;
    if lines != [] {
      LineRefines(text, s, block, lines[0]);
      match FinishLine(text, s, lines[0])
      case Failed(_) =>
      case Done(s1, _) => ParserRefinesBlocks(text, s1, ReadLineIntoBlock(text, block, lines[0]).block, lines[1..]);
    }
  }

  lemma {:induction false} ReadBlocksAppend(text: Text, block: seq<seq<byte>>, a: seq<seq<byte>>, b: seq<seq<byte>>)
    ensures ReadBlocks(text, block, a + b) ==
            match ReadBlocks(text, block, a)
            case Rejected(e) => Rejected(e)
            case Read(open, events) => ReadBlocks(text, open, b).After(events)
    decreases |a|
  {
    hide ReadLineIntoBlock;
    if a == [] {
      assert a + b == b;
    } else {
      assert (a + b)[0] == a[0] && (a + b)[1..] == a[1..] + b;
      match ReadLineIntoBlock(text, block, a[0])
      case Rejected(_) =>
      case Read(open, events) => ReadBlocksAppend(text, open, a[1..], b);
    }
  }
}
