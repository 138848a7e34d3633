/** Cutting a raw RGBA byte stream into frames (crates/spike-media/src/preview.rs). */
module Framing {
  import opened Prelude

  const PREVIEW_WIDTH: nat := 640
  const PREVIEW_HEIGHT: nat := 360
  const PREVIEW_FRAME_BYTES: nat := PREVIEW_WIDTH * PREVIEW_HEIGHT * 4

  datatype Frame = Frame(width: nat, height: nat, bytes: seq<byte>, sequence: u64)

  datatype FrameError =
    | DimensionOverflow(width: nat, height: nat)
    | IncorrectByteCount(expected: nat, actual: nat)

  datatype PreviewError =
    | Output
    | Cancelled
    | PartialFrame(received: nat)
    | Failed

  /** What waiting for the child process comes to. */
  datatype ChildExit = Succeeded | Unsuccessful | WaitFails | CancelledInWait

  /** `Frame::rgba`, with 64-bit sizes. */
  function Rgba(width: u64, height: u64, bytes: seq<byte>, sequence: u64): Result<Frame, FrameError> {
    if width * height > U64_MAX || width * height * 4 > U64_MAX then Err(DimensionOverflow(width, height))
    else if |bytes| != width * height * 4 then Err(IncorrectByteCount(width * height * 4, |bytes|))
    else Ok(Frame(width, height, bytes, sequence))
  }

  /** What one wait for more output comes to: some bytes, at most as many as asked for
      and as the stream still has, a failed read, or a cancellation. */
  datatype Turn = Bytes(count: nat) | ReadFails | Cancel

  /** The child's standard output: a stream of bytes that arrives in arbitrary pieces. */
  class Reader {
    const stream: seq<byte>
    const turns: nat -> Turn
    var position: nat
    var turn: nat

    constructor (stream: seq<byte>, turns: nat -> Turn)
      ensures this.stream == stream && this.turns == turns && position == 0 && turn == 0
    {
      this.stream, this.turns, position, turn := stream, turns, 0, 0;
    }

    /** No read fails and nobody cancels. */
    ghost predicate NeverInterrupted() { forall k :: turns(k).Bytes? }

    /** `reader.read(&mut buffer[from..])` raced with the cancellation: nothing is read
        only at the end of the stream. */
    method Read(buffer: array<byte>, from: nat) returns (r: Result<nat, PreviewError>)
      requires from < buffer.Length && position <= |stream|
      modifies this`position, this`turn, buffer
      ensures position <= |stream|
      ensures buffer[..from] == old(buffer[..from])
      ensures match r
              case Err(e) => (e == Output || e == Cancelled) && position == old(position) && !NeverInterrupted()
              case Ok(n) =>
                && position == old(position) + n && from + n <= buffer.Length
                && buffer[from..from + n] == stream[old(position)..position]
                && (n == 0 <==> old(position) == |stream|)
    {
      var next := turns(turn);
      turn := turn + 1;
      match next {
        case ReadFails => return Err(Output);
        case Cancel => return Err(Cancelled);
        case Bytes(count) =>
          var n := Min(Min(if count == 0 then 1 else count, buffer.Length - from), |stream| - position);
          ghost var start := position;
          for i := 0 to n
            invariant position == start
            invariant buffer[..from] == old(buffer[..from])
            invariant buffer[from..from + i] == stream[start..start + i]
          {
            buffer[from + i] := stream[position + i];
          }
          position := position + n;
          return Ok(n);
      }
    }
  }

  /** `read_frame`: one whole frame, the clean end, or an error. */
  method ReadFrame(reader: Reader) returns (r: Result<Option<seq<byte>>, PreviewError>)
    requires reader.position <= |reader.stream|
    modifies reader`position, reader`turn
    ensures reader.position <= |reader.stream|
    ensures match r
            case Ok(Some(bytes)) =>
              && reader.position == old(reader.position) + PREVIEW_FRAME_BYTES
              && bytes == reader.stream[old(reader.position)..reader.position]
            case Ok(None) => reader.position == old(reader.position) == |reader.stream|
            case Err(PartialFrame(received)) =>
              && reader.position == |reader.stream|
              && received == |reader.stream| - old(reader.position)
              && 0 < received < PREVIEW_FRAME_BYTES
            case Err(error) => (error == Output || error == Cancelled) && !reader.NeverInterrupted()
  {
    ghost var start := reader.position;
    var frame := new byte[PREVIEW_FRAME_BYTES];
    var received := 0;
    while received < frame.Length
      invariant 0 <= received <= frame.Length == PREVIEW_FRAME_BYTES
      invariant reader.position == start + received <= |reader.stream|
      invariant frame[..received] == reader.stream[start..reader.position]
    {
      ghost var sofar, at := frame[..received], reader.position;
      var read := reader.Read(frame, received);
      if read.Err? {
        return Err(read.error);
      }
      if read.value == 0 {
        if received == 0 {
          return Ok(None);
        }
        return Err(PartialFrame(received));
      }
      assert frame[..received + read.value] == sofar + frame[received..received + read.value];
      assert reader.stream[start..at] + reader.stream[at..reader.position] == reader.stream[start..reader.position];
      received := received + read.value;
    }
    assert frame[..] == frame[..received];
    return Ok(Some(frame[..]));
  }

  // ---- what the callback must see -----------------------------------------------------

  /** The k-th block of the stream, numbered from one with a saturating 64-bit counter. */
  function Block(stream: seq<byte>, k: nat): Frame
    requires (k + 1) * PREVIEW_FRAME_BYTES <= |stream|
  {
    Frame(PREVIEW_WIDTH, PREVIEW_HEIGHT, stream[k * PREVIEW_FRAME_BYTES..(k + 1) * PREVIEW_FRAME_BYTES],
          Min(k + 1, U64_MAX))
  }

  ghost predicate AreBlocks(stream: seq<byte>, frames: seq<Frame>) {
    && |frames| * PREVIEW_FRAME_BYTES <= |stream|
    && forall k :: 0 <= k < |frames| ==>
         && (k + 1) * PREVIEW_FRAME_BYTES <= |stream|
         && frames[k] == Block(stream, k)
  }

  function FrameBytes(frames: seq<Frame>): seq<byte> {
    if frames == [] then [] else FrameBytes(frames[..|frames| - 1]) + frames[|frames| - 1].bytes
  }

  /** `read_and_wait`, collecting what the callback is given: the consecutive blocks of the
      stream, whatever the sizes of the single reads. The end is clean exactly for a stream
      of whole frames, otherwise the remainder is reported; a frame of the right size is
      never refused. Only a clean end looks at how the child process ended. */
  method ReadAndWait(reader: Reader, exit: ChildExit) returns (r: Result<u64, PreviewError>, frames: seq<Frame>)
    requires reader.position == 0
    modifies reader`position, reader`turn
    ensures AreBlocks(reader.stream, frames)
    ensures match r
            case Ok(count) =>
              && exit == Succeeded
              && |reader.stream| == |frames| * PREVIEW_FRAME_BYTES && count == Min(|frames|, U64_MAX)
            case Err(PartialFrame(received)) =>
              && |reader.stream| == |frames| * PREVIEW_FRAME_BYTES + received
              && 0 < received < PREVIEW_FRAME_BYTES
            case Err(Failed) => exit == Unsuccessful && |reader.stream| == |frames| * PREVIEW_FRAME_BYTES
            case Err(error) => error == Output || error == Cancelled
    ensures reader.NeverInterrupted() ==>
              (r == Err(Output) <==> exit == WaitFails && |reader.stream| % PREVIEW_FRAME_BYTES == 0) &&
              (r == Err(Cancelled) <==> exit == CancelledInWait && |reader.stream| % PREVIEW_FRAME_BYTES == 0)
  {
    var sequence: u64 := 0;
    frames := [];
    while true
      invariant reader.position == |frames| * PREVIEW_FRAME_BYTES <= |reader.stream|
      invariant AreBlocks(reader.stream, frames)
      invariant sequence == Min(|frames|, U64_MAX)
      decreases |reader.stream| - reader.position
    {
      var bytes := ReadFrame(reader);
      if bytes.Err? {
        return Err(bytes.error), frames;
      }
      if bytes.value.None? {
        break;
      }
      sequence := Min(sequence + 1, U64_MAX);
      var frame := Rgba(PREVIEW_WIDTH, PREVIEW_HEIGHT, bytes.value.value, sequence);
      if frame.Err? {
        assert false;
      }
      frames := frames + [frame.value];
    }
    match exit {
      case WaitFails => return Err(Output), frames;
      case CancelledInWait => return Err(Cancelled), frames;
      case Unsuccessful => return Err(Failed), frames;
      case Succeeded => return Ok(sequence), frames;
    }
  }

  /** The frames put together are the consumed part of the stream. */
  lemma {:induction false} BlocksConcatenate(stream: seq<byte>, frames: seq<Frame>)
    requires AreBlocks(stream, frames)
    ensures FrameBytes(frames) == stream[..|frames| * PREVIEW_FRAME_BYTES]
    decreases |frames|
  {
    if frames != [] {
      var init, n := frames[..|frames| - 1], |frames| - 1;
      assert AreBlocks(stream, init);
      BlocksConcatenate(stream, init);
      assert frames[n] == Block(stream, n);
      assert stream[..n * PREVIEW_FRAME_BYTES] + stream[n * PREVIEW_FRAME_BYTES..(n + 1) * PREVIEW_FRAME_BYTES]
          == stream[..(n + 1) * PREVIEW_FRAME_BYTES];
    }
  }
}
