/** Progress output as FFmpeg writes it, and that the parser gets every event back
    (crates/spike-media/src/progress.rs). */
module ProgressPrint {
  import opened Prelude
  import opened Progress

  /** Visible ASCII: no white space and no line ending. */
  predicate Printable(s: seq<byte>) { forall i :: 0 <= i < |s| ==> 33 <= s[i] <= 126 }

  /** Text routines that take visible ASCII as it is. */
  ghost predicate ReadsPlainly(text: Text) {
    forall s :: Printable(s) ==> text.trim(s) == s && text.isUtf8(s)
  }

  /** The text of a speed, which float parsing turns back into the speed. */
  predicate Shown(text: Text, shown: seq<byte>, speed: real) {
    speed >= 0.0 && Printable(shown) && |shown| <= 400 && text.parseFloat(shown) == Some(Finite(speed, false))
  }

  /** The event can stand in a block: its numbers fit, and its own speed is shown legibly. */
  predicate Reportable(text: Text, show: real -> seq<byte>, e: Event) {
    && (e.frame.Some? ==> e.frame.value <= U64_MAX)
    && (e.outTimeUs.Some? ==> e.outTimeUs.value <= U64_MAX)
    && (e.speed.Some? ==> Shown(text, show(e.speed.value), e.speed.value))
  }

  function NumberText(n: Option<nat>): seq<byte> { if n.None? then NOT_AVAILABLE else Digits(n.value) }

  function SpeedText(show: real -> seq<byte>, speed: Option<real>): seq<byte> {
    if speed.None? then NOT_AVAILABLE else show(speed.value) + [120]
  }

  function MarkerText(finished: bool): seq<byte> { if finished then END else CONTINUE }

  function Field(key: seq<byte>, value: seq<byte>): seq<byte> { key + [EQUALS] + value }

  /** How a block is laid out: which values that are not known are printed as such, the others
      being left out, and whether its lines end in a return and a line feed. */
  datatype Layout = Layout(frame: bool, time: bool, speed: bool, crlf: bool)

  function Shows<T>(value: Option<T>, printed: bool): bool { value.Some? || printed }

  /** The line of a field, if it is there. */
  function FieldLine(key: seq<byte>, value: seq<byte>, there: bool): seq<seq<byte>> {
    if there then [Field(key, value)] else []
  }

  /** The lines of one block; `others` are the fields the parser does not know. */
  function BlockLines(show: real -> seq<byte>, layout: Layout, others: seq<seq<byte>>, e: Event): seq<seq<byte>> {
    others + (FieldLine(FRAME, NumberText(e.frame), Shows(e.frame, layout.frame))
    + (FieldLine(OUT_TIME_US, NumberText(e.outTimeUs), Shows(e.outTimeUs, layout.time))
    + (FieldLine(SPEED, SpeedText(show, e.speed), Shows(e.speed, layout.speed))
    + [Field(PROGRESS, MarkerText(e.finished))])))
  }

  /** The lines as they stand before their line feeds. */
  function Ended(lines: seq<seq<byte>>, crlf: bool): seq<seq<byte>> {
    if lines == [] then [] else [End(lines[0], crlf)] + Ended(lines[1..], crlf)
  }

  function End(line: seq<byte>, crlf: bool): seq<byte> { if crlf then line + [RETURN] else line }

  lemma {:induction false} EndedAppend(a: seq<seq<byte>>, b: seq<seq<byte>>, crlf: bool)
    ensures Ended(a + b, crlf) == Ended(a, crlf) + Ended(b, crlf)
    ensures Terminated(Ended(a + b, crlf)) == Terminated(Ended(a, crlf)) + Terminated(Ended(b, crlf))
    decreases |a|
  {
    hide Terminated, End;
    if a == [] {
      assert a + b == b;
    } else {
      assert (a + b)[0] == a[0] && (a + b)[1..] == a[1..] + b;
      EndedAppend(a[1..], b, crlf);
    }
    TerminatedAppend(Ended(a, crlf), Ended(b, crlf));
  }

  /** Lines of other fields: ignored one by one, and short enough in all. */
  ghost predicate Others(text: Text, lines: seq<seq<byte>>) {
    && |Terminated(lines)| <= 32 * 1024
    && forall i :: 0 <= i < |lines| ==>
         NEWLINE !in lines[i] && StripReturn(lines[i]) == lines[i] && ReadLine(text, lines[i]) == Ignored
  }

  // ---- numbers are short -----------------------------------------------------------------

  function Pow10(k: nat): nat { if k == 0 then 1 else 10 * Pow10(k - 1) }

  lemma {:induction false} DigitsAreShort(n: nat, k: nat)
    requires n < Pow10(k + 1)
    ensures |Digits(n)| <= k + 1
    decreases k
  {
    assert Pow10(1) == 10;
    if n >= 10 {
      DigitsAreShort(n / 10, k - 1);
    }
  }

  lemma NumbersFit()
    ensures U64_MAX < Pow10(20)
  {
    assert Pow10(5) == 100000;
    assert Pow10(10) == 10000000000;
    assert Pow10(15) == 1000000000000000;
    assert Pow10(20) == 100000000000000000000;
  }

  lemma NumberTextIsPlain(n: Option<nat>)
    requires n.Some? ==> n.value <= U64_MAX
    ensures Printable(NumberText(n)) && |NumberText(n)| <= 20
  {
    if n.Some? {
      DigitsAreRead(n.value);
      NumbersFit();
      DigitsAreShort(n.value, 19);
      forall i | 0 <= i < |Digits(n.value)| ensures 33 <= Digits(n.value)[i] <= 126 {
        assert IsDigit(Digits(n.value)[i]);
      }
    }
  }

  // ---- one line --------------------------------------------------------------------------

  predicate KnownKey(key: seq<byte>) { key == FRAME || key == OUT_TIME_US || key == SPEED || key == PROGRESS }

  lemma KeysAreShort(key: seq<byte>)
    requires KnownKey(key)
    ensures |key| <= 11 && Printable(key) && EQUALS !in key
  {
  }

  lemma FieldReads(text: Text, key: seq<byte>, value: seq<byte>)
    requires KnownKey(key) && Printable(value) && ReadsPlainly(text)
    ensures NEWLINE !in Field(key, value) && StripReturn(Field(key, value)) == Field(key, value)
    ensures ReadLine(text, Field(key, value)) == if key == PROGRESS then Marker(value) else Assignment(key, value)
    ensures |Field(key, value)| <= |value| + 12
  {
    KeysAreShort(key);
    var line := Field(key, value);
    hide FRAME, OUT_TIME_US, SPEED, PROGRESS;
    assert text.trim(value) == value;
    assert forall i :: 0 <= i < |line| ==>
      line[i] == if i < |key| then key[i] else if i == |key| then EQUALS else value[i - |key| - 1];
    assert line[..|key|] == key && line[|key| + 1..] == value;
    FirstIs(EQUALS, line, |key|);
  }

  lemma {:induction false} FirstIs(b: byte, s: seq<byte>, k: nat)
    requires k < |s| && s[k] == b && b !in s[..k]
    ensures IndexOf(b, s) == k
  {
    if k > 0 {
      assert s[..k][0] == s[0];
      assert s[1..][..k - 1] == s[..k][1..];
      FirstIs(b, s[1..], k - 1);
    }
  }

  /** The state after some lines of a block. */
  function Within(current: map<seq<byte>, seq<byte>>, bytes: nat): State { State([], current, bytes) }

  lemma LineIsFed(text: Text, current: map<seq<byte>, seq<byte>>, bytes: nat, line: seq<byte>, crlf: bool)
    requires NEWLINE !in line && StripReturn(line) == line && bytes + |line| + 1 <= MAX_PENDING_BYTES
    ensures FeedAll(text, Within(current, bytes), End(line, crlf) + [NEWLINE]) ==
            ConsumeLine(text, Within(current, bytes), line)
  {
    var ended := End(line, crlf);
    assert StripReturn(line + [RETURN]) == line by { assert (line + [RETURN])[..|line|] == line; }
    assert NEWLINE !in ended && StripReturn(ended) == line && |ended| <= MAX_PENDING_BYTES;
    hide FeedAll, ConsumeLine, StripReturn, End;
    FeedLine(text, Within(current, bytes), ended);
    assert [] + ended == ended;
  }

  /** What comes after goes on from where this leads. */
  lemma Then(text: Text, s: State, first: seq<byte>, rest: seq<byte>, next: State, events: seq<Event>)
    requires FeedAll(text, s, first) == Done(next, events)
    ensures FeedAll(text, s, first + rest) == FeedAll(text, next, rest).After(events)
  {
    hide FeedAll;
    FeedAllAppend(text, s, first, rest);
  }

  lemma {:induction false} OthersAreIgnored(text: Text, current: map<seq<byte>, seq<byte>>, bytes: nat,
                                            lines: seq<seq<byte>>, crlf: bool)
    requires Others(text, lines) && bytes + |Terminated(lines)| <= MAX_PENDING_BYTES
    ensures FeedAll(text, Within(current, bytes), Terminated(Ended(lines, crlf))) ==
            Done(Within(current, bytes + |Terminated(lines)|), [])
    decreases |lines|
  {
    hide FeedAll, ConsumeLine, ReadLine, StripReturn, End;
    if lines == [] {
      NothingIsFed(text, Within(current, bytes));
    } else {
      var more := bytes + |lines[0]| + 1;
      LineIsFed(text, current, bytes, lines[0], crlf);
      IgnoredIsCounted(text, current, bytes, lines[0]);
      OthersAreIgnored(text, current, more, lines[1..], crlf);
      var rest := Ended(lines[1..], crlf);
      assert Ended(lines, crlf)[1..] == rest;
      Then(text, Within(current, bytes), End(lines[0], crlf) + [NEWLINE], Terminated(rest), Within(current, more), []);
    }
  }

  lemma NothingIsFed(text: Text, s: State)
    ensures FeedAll(text, s, []) == Done(s, [])
  {
  }

  lemma IgnoredIsCounted(text: Text, current: map<seq<byte>, seq<byte>>, bytes: nat, line: seq<byte>)
    requires ReadLine(text, line) == Ignored && bytes + |line| + 1 <= MAX_PENDING_BYTES
    ensures ConsumeLine(text, Within(current, bytes), line) == Done(Within(current, bytes + |line| + 1), [])
  {
    hide ReadLine;
  }

  // ---- one block -------------------------------------------------------------------------

  function Put(current: map<seq<byte>, seq<byte>>, key: seq<byte>, value: seq<byte>, there: bool):
    map<seq<byte>, seq<byte>>
  {
    if there then current[key := value] else current
  }

  /** The values of a block that are there. */
  function Stored(show: real -> seq<byte>, layout: Layout, e: Event): map<seq<byte>, seq<byte>> {
    Put(Put(Put(map[], FRAME, NumberText(e.frame), Shows(e.frame, layout.frame)),
            OUT_TIME_US, NumberText(e.outTimeUs), Shows(e.outTimeUs, layout.time)),
        SPEED, SpeedText(show, e.speed), Shows(e.speed, layout.speed))
  }

  lemma NumberIsRead(text: Text, current: map<seq<byte>, seq<byte>>, key: seq<byte>, n: Option<nat>)
    requires ReadsPlainly(text) && (if key in current then current[key] == NumberText(n) else n.None?)
    requires n.Some? ==> n.value <= U64_MAX
    ensures ParseNumber(text, current, key) == Ok(n)
  {
    NumberTextIsPlain(n);
    assert text.trim(NumberText(n)) == NumberText(n);
    if n.Some? {
      WrittenNumber(n.value);
    }
    hide ReadsPlainly, NumberText, ParseU64, Printable;
  }

  lemma WrittenNumber(n: nat)
    requires n <= U64_MAX
    ensures NumberText(Some(n)) != NOT_AVAILABLE && ParseU64(NumberText(Some(n))) == Some(n)
  {
    DigitsAreRead(n);
    DecimalRoundTrip(n);
    hide Digits, ParseU64;
    assert IsDigit(Digits(n)[0]) && NOT_AVAILABLE[0] == 78;
  }

  lemma SpeedTextIsPlain(text: Text, show: real -> seq<byte>, speed: Option<real>)
    requires speed.Some? ==> Shown(text, show(speed.value), speed.value)
    ensures Printable(SpeedText(show, speed)) && |SpeedText(show, speed)| <= 401
  {
  }

  lemma SpeedIsRead(text: Text, show: real -> seq<byte>, current: map<seq<byte>, seq<byte>>, speed: Option<real>)
    requires ReadsPlainly(text)
    requires if SPEED in current then current[SPEED] == SpeedText(show, speed) else speed.None?
    requires speed.Some? ==> Shown(text, show(speed.value), speed.value)
    ensures ParseSpeed(text, current) == Ok(speed)
  {
    SpeedTextIsPlain(text, show, speed);
    var value := SpeedText(show, speed);
    assert text.trim(value) == value;
    if speed.Some? {
      var shown := show(speed.value);
      assert value[|value| - 1] == 120 && value[..|value| - 1] == shown;
      assert text.trim(shown) == shown;
    }
  }

  /** Values that are not known may be missing or printed as such. */
  lemma EventIsRead(text: Text, show: real -> seq<byte>, layout: Layout, e: Event)
    requires ReadsPlainly(text) && Reportable(text, show, e)
    ensures EventFrom(text, Stored(show, layout, e), MarkerText(e.finished)) == Ok(e)
  {
    var current := Stored(show, layout, e);
    assert |FRAME| != |OUT_TIME_US| && FRAME[0] != SPEED[0] && |SPEED| != |OUT_TIME_US|;
    assert CONTINUE != END;
    NumberIsRead(text, current, FRAME, e.frame);
    NumberIsRead(text, current, OUT_TIME_US, e.outTimeUs);
    SpeedIsRead(text, show, current, e.speed);
    hide ParseNumber, ParseSpeed, NumberText, SpeedText, CONTINUE, END;
  }

  lemma FieldIsFed(text: Text, current: map<seq<byte>, seq<byte>>, bytes: nat, key: seq<byte>, value: seq<byte>,
                   there: bool, crlf: bool)
    returns (more: nat)
    requires KnownKey(key) && key != PROGRESS && Printable(value) && ReadsPlainly(text)
    requires bytes + |value| + 13 <= MAX_PENDING_BYTES
    ensures bytes <= more <= bytes + |value| + 13
    ensures FeedAll(text, Within(current, bytes), Terminated(Ended(FieldLine(key, value, there), crlf)))
         == Done(Within(Put(current, key, value, there), more), [])
  {
    hide FeedAll, ReadLine, StripReturn, Field, KnownKey, ReadsPlainly, Printable, End;
    if there {
      var line := Field(key, value);
      FieldReads(text, key, value);
      LineIsFed(text, current, bytes, line, crlf);
      OneLine(line, crlf);
      more := bytes + |line| + 1;
    } else {
      NothingIsFed(text, Within(current, bytes));
      more := bytes;
    }
  }

  lemma OneLine(line: seq<byte>, crlf: bool)
    ensures Terminated(Ended([line], crlf)) == End(line, crlf) + [NEWLINE]
  {
    hide End;
    assert [line][1..] == [] && [End(line, crlf)][1..] == [];
    assert Ended([line], crlf) == [End(line, crlf)];
  }

  lemma MarkerIsFed(text: Text, current: map<seq<byte>, seq<byte>>, bytes: nat, finished: bool, crlf: bool, e: Event)
    requires ReadsPlainly(text) && bytes + 32 <= MAX_PENDING_BYTES
    requires EventFrom(text, current, MarkerText(finished)) == Ok(e)
    ensures FeedAll(text, Within(current, bytes), Terminated(Ended([Field(PROGRESS, MarkerText(finished))], crlf)))
         == Done(FRESH, [e])
  {
    var value := MarkerText(finished);
    assert Printable(value) && |value| <= 8;
    hide FeedAll, ReadLine, StripReturn, Field, ReadsPlainly, Printable, EventFrom, MarkerText, PROGRESS, End;
    FieldReads(text, PROGRESS, value);
    LineIsFed(text, current, bytes, Field(PROGRESS, value), crlf);
    OneLine(Field(PROGRESS, value), crlf);
  }

  lemma KeysDiffer()
    ensures KnownKey(FRAME) && KnownKey(OUT_TIME_US) && KnownKey(SPEED) && KnownKey(PROGRESS)
    ensures FRAME != PROGRESS && OUT_TIME_US != PROGRESS && SPEED != PROGRESS
  {
    assert |PROGRESS| == 8 && |FRAME| == 5 && |SPEED| == 5 && |OUT_TIME_US| == 11;
  }

  /** The known fields, after at most 32 KiB of others. */
  lemma FieldsAreRead(text: Text, show: real -> seq<byte>, layout: Layout, bytes: nat, e: Event)
    requires ReadsPlainly(text) && Reportable(text, show, e) && bytes <= 32 * 1024
    ensures FeedAll(text, Within(map[], bytes), Terminated(Ended(BlockLines(show, layout, [], e), layout.crlf)))
         == Done(FRESH, [e])
  {
    var frame, out, speed := NumberText(e.frame), NumberText(e.outTimeUs), SpeedText(show, e.speed);
    var marker := Field(PROGRESS, MarkerText(e.finished));
    var f, o, v := Shows(e.frame, layout.frame), Shows(e.outTimeUs, layout.time), Shows(e.speed, layout.speed);
    var a, b, c := FieldLine(FRAME, frame, f), FieldLine(OUT_TIME_US, out, o), FieldLine(SPEED, speed, v);
    var m1 := Put(map[], FRAME, frame, f);
    var m2 := Put(m1, OUT_TIME_US, out, o);
    var m3 := Put(m2, SPEED, speed, v);
    assert m3 == Stored(show, layout, e);
    assert BlockLines(show, layout, [], e) == a + (b + (c + [marker]));
    hide *;
    ValuesArePlain(text, show, e);
    KeysDiffer();
    var s1 := FieldIsFed(text, map[], bytes, FRAME, frame, f, layout.crlf);
    var s2 := FieldIsFed(text, m1, s1, OUT_TIME_US, out, o, layout.crlf);
    var s3 := FieldIsFed(text, m2, s2, SPEED, speed, v, layout.crlf);
    EventIsRead(text, show, layout, e);
    MarkerIsFed(text, m3, s3, e.finished, layout.crlf, e);
    FourParts(text, Within(map[], bytes), Within(m1, s1), Within(m2, s2), Within(m3, s3), a, b, c, [marker],
              layout.crlf, e);
  }

  lemma ValuesArePlain(text: Text, show: real -> seq<byte>, e: Event)
    requires Reportable(text, show, e)
    ensures Printable(NumberText(e.frame)) && |NumberText(e.frame)| <= 20
    ensures Printable(NumberText(e.outTimeUs)) && |NumberText(e.outTimeUs)| <= 20
    ensures Printable(SpeedText(show, e.speed)) && |SpeedText(show, e.speed)| <= 401
    ensures MAX_PENDING_BYTES == 65536
  {
    NumberTextIsPlain(e.frame);
    NumberTextIsPlain(e.outTimeUs);
    SpeedTextIsPlain(text, show, e.speed);
    hide NumberText, SpeedText, Printable;
  }

  lemma TheFieldsBehind(show: real -> seq<byte>, layout: Layout, others: seq<seq<byte>>, e: Event)
    ensures BlockLines(show, layout, others, e) == others + BlockLines(show, layout, [], e)
    ensures MAX_PENDING_BYTES == 65536
  {
    hide FieldLine, NumberText, SpeedText, MarkerText, FRAME, OUT_TIME_US, SPEED, PROGRESS, Field;
  }

  lemma BlockIsRead(text: Text, show: real -> seq<byte>, layout: Layout, others: seq<seq<byte>>, e: Event)
    requires ReadsPlainly(text) && Reportable(text, show, e) && Others(text, others)
    ensures FeedAll(text, FRESH, Terminated(Ended(BlockLines(show, layout, others, e), layout.crlf)))
         == Done(FRESH, [e])
  {
    var fields := BlockLines(show, layout, [], e);
    var weight := |Terminated(others)|;
    assert weight <= 32 * 1024 && FRESH == Within(map[], 0);
    TheFieldsBehind(show, layout, others, e);
    hide *;
    OthersAreIgnored(text, map[], 0, others, layout.crlf);
    FieldsAreRead(text, show, layout, weight, e);
    EndedAppend(others, fields, layout.crlf);
    Then(text, FRESH, Terminated(Ended(others, layout.crlf)), Terminated(Ended(fields, layout.crlf)),
         Within(map[], weight), []);
    NothingBefore(Done(FRESH, [e]));
  }

  lemma NothingBefore(step: Step)
    ensures step.After([]) == step
  {
  }

  lemma FourParts(text: Text, s0: State, s1: State, s2: State, s3: State, a: seq<seq<byte>>, b: seq<seq<byte>>,
                  c: seq<seq<byte>>, d: seq<seq<byte>>, crlf: bool, e: Event)
    requires FeedAll(text, s0, Terminated(Ended(a, crlf))) == Done(s1, [])
    requires FeedAll(text, s1, Terminated(Ended(b, crlf))) == Done(s2, [])
    requires FeedAll(text, s2, Terminated(Ended(c, crlf))) == Done(s3, [])
    requires FeedAll(text, s3, Terminated(Ended(d, crlf))) == Done(FRESH, [e])
    ensures FeedAll(text, s0, Terminated(Ended(a + (b + (c + d)), crlf))) == Done(FRESH, [e])
  {
    hide FeedAll, Ended, Terminated, FRESH;
    var result := Done(FRESH, [e]);
    NothingBefore(result);
    EndedAppend(c, d, crlf);
    Then(text, s2, Terminated(Ended(c, crlf)), Terminated(Ended(d, crlf)), s3, []);
    EndedAppend(b, c + d, crlf);
    Then(text, s1, Terminated(Ended(b, crlf)), Terminated(Ended(c + d, crlf)), s2, []);
    EndedAppend(a, b + (c + d), crlf);
    Then(text, s0, Terminated(Ended(a, crlf)), Terminated(Ended(b + (c + d), crlf)), s1, []);
  }

  // ---- any number of blocks --------------------------------------------------------------

  /** One block: its layout, the event it reports and the other fields FFmpeg prints with it. */
  datatype Block = Block(layout: Layout, others: seq<seq<byte>>, event: Event)

  function PrintBlock(show: real -> seq<byte>, block: Block): seq<byte> {
    Terminated(Ended(BlockLines(show, block.layout, block.others, block.event), block.layout.crlf))
  }

  function PrintBlocks(show: real -> seq<byte>, blocks: seq<Block>): seq<byte> {
    if blocks == [] then []
    else PrintBlock(show, blocks[0]) + PrintBlocks(show, blocks[1..])
  }

  function Events(blocks: seq<Block>): seq<Event> {
    if blocks == [] then [] else [blocks[0].event] + Events(blocks[1..])
  }

  lemma {:induction false} BlocksAreRead(text: Text, show: real -> seq<byte>, blocks: seq<Block>)
    requires ReadsPlainly(text)
    requires forall i :: 0 <= i < |blocks| ==> Reportable(text, show, blocks[i].event) && Others(text, blocks[i].others)
    ensures FeedAll(text, FRESH, PrintBlocks(show, blocks)) == Done(FRESH, Events(blocks))
    decreases |blocks|
  {
    hide FeedAll, BlockLines, Terminated, Ended, Others, Reportable, ReadsPlainly;
    if blocks == [] {
      NothingIsFed(text, FRESH);
    } else {
      BlockIsRead(text, show, blocks[0].layout, blocks[0].others, blocks[0].event);
      BlocksAreRead(text, show, blocks[1..]);
      FeedAllAppend(text, FRESH, PrintBlock(show, blocks[0]), PrintBlocks(show, blocks[1..]));
    }
  }

  /** Whatever progress FFmpeg prints, and however the output arrives in pieces, the parser
      reports exactly the events that were printed, in order. */
  lemma PrintedEventsAreReported(text: Text, show: real -> seq<byte>, blocks: seq<Block>, chunks: seq<seq<byte>>)
    requires ReadsPlainly(text)
    requires forall i :: 0 <= i < |blocks| ==> Reportable(text, show, blocks[i].event) && Others(text, blocks[i].others)
    requires Concat(chunks) == PrintBlocks(show, blocks)
    ensures PushChunks(text, FRESH, chunks) == Ok(Events(blocks))
  {
    hide FeedAll, PushChunks, PrintBlocks, Others, Reportable, ReadsPlainly, Events;
    BlocksAreRead(text, show, blocks);
    AnyChunkingAgrees(text, FRESH, chunks);
  }

  /** What is asked of text routines, printer and blocks can be met. */
  lemma ReportableBlocksExist() returns (text: Text, show: real -> seq<byte>, blocks: seq<Block>)
    ensures ReadsPlainly(text) && |blocks| == 1 && blocks[0].event.speed.Some? && blocks[0].others != []
    ensures Reportable(text, show, blocks[0].event) && Others(text, blocks[0].others)
  {
    var one: seq<byte> := [49];
    text := Text(s => true, s => s, s => if s == one then Some(Finite(1.0, false)) else None);
    show := v => one;
    var fps: seq<byte> := [102, 112, 115, EQUALS, 50, 53];
    blocks := [Block(Layout(true, false, true, true), [fps], Event(Some(1), None, Some(1.0), false))];
    FirstIs(EQUALS, fps, 3);
    assert |fps[..3]| == 3 && |FRAME| == 5 && |SPEED| == 5 && |OUT_TIME_US| == 11 && |PROGRESS| == 8;
    assert ReadLine(text, fps) == Ignored;
    assert [fps][1..] == [] && |Terminated([fps])| == 7;
  }
}
