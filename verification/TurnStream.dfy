/**
  Reading TURN frames from a byte stream: STUN control frames and ChannelData frames follow each
  other without delimiters, and one read may bring any part of them.
*/
module TurnStream {
  import opened Common

  const MAX_CONTROL_FRAME_BYTES: nat := 4096
  const MAX_DATA_FRAME_BYTES: nat := 2304 - 64
  const STREAM_READ_BUFFER_BYTES: nat := MAX_CONTROL_FRAME_BYTES

  datatype StreamError =
    | UnalignedControl
    | ControlTooLong
    | BadMagicCookie
    | ReservedType
    | DataTooLong
    | HardLimit
    | Closed

  datatype FrameKind = ControlFrame(frameBytes: nat) | DataFrame(frameBytes: nat, padding: nat)

  datatype Frame = Frame(control: bool, wire: seq<byte>)

  datatype Delivered = Control(bytes: seq<byte>) | Data(bytes: seq<byte>) | DataDropped

  /** What the first bytes of the stream announce; `None` when there are too few to tell. */
  function FrameStart(bytes: seq<byte>): Result<Option<FrameKind>, StreamError>
  {
    if |bytes| < 4 then Ok(None)
    else
      var declared := U16At(bytes, 2);
      if bytes[0] / 0x40 == 0 then
        if declared % 4 != 0 then Err(UnalignedControl)
        else if 20 + declared > MAX_CONTROL_FRAME_BYTES then Err(ControlTooLong)
        else if |bytes| < 8 then Ok(None)
        else if bytes[4..8] != [0x21, 0x12, 0xa4, 0x42] then Err(BadMagicCookie)
        else Ok(Some(ControlFrame(20 + declared)))
      else if bytes[0] / 0x40 != 1 then Err(ReservedType)
      else if 4 + declared + PaddingOf(declared) > MAX_DATA_FRAME_BYTES then Err(DataTooLong)
      else Ok(Some(DataFrame(4 + declared, PaddingOf(declared))))
  }

  datatype Decoded = Complete(frame: Frame) | NeedMore | Broken(error: StreamError)

  function Decode(bytes: seq<byte>): Decoded
  {
    match FrameStart(bytes)
    case Err(e) => Broken(e)
    case Ok(None) => NeedMore
    case Ok(Some(ControlFrame(n))) => if |bytes| < n then NeedMore else Complete(Frame(true, bytes[..n]))
    case Ok(Some(DataFrame(n, padding))) =>
      if |bytes| < n + padding then NeedMore else Complete(Frame(false, bytes[..n + padding]))
  }

  // ---------------------------------------------------------------------------------------------
  // The whole stream at once.
  // ---------------------------------------------------------------------------------------------

  datatype Parsed = Parsed(frames: seq<Frame>, rest: seq<byte>, error: Option<StreamError>)

  function Parse(bytes: seq<byte>): Parsed
    decreases |bytes|
  {
    match Decode(bytes)
    case NeedMore => Parsed([], bytes, None)
    case Broken(e) => Parsed([], bytes, Some(e))
    case Complete(frame) =>
      var tail := Parse(bytes[|frame.wire|..]);
      Parsed([frame] + tail.frames, tail.rest, tail.error)
  }

  function Wire(frames: seq<Frame>): seq<byte>
  {
    if frames == [] then [] else frames[0].wire + Wire(frames[1..])
  }

  /** A frame as the two formats define it, with its announced length and its padding. */
  predicate WellFormed(frame: Frame)
  {
    var wire := frame.wire;
    && |wire| >= 4
    && if frame.control then
         && wire[0] < 0x40 && |wire| == 20 + U16At(wire, 2) && |wire| % 4 == 0 && |wire| <= MAX_CONTROL_FRAME_BYTES
         && wire[4..8] == [0x21, 0x12, 0xa4, 0x42]
       else
         && 0x40 <= wire[0] < 0x80 && 0 <= |wire| - 4 - U16At(wire, 2) < 4
         && |wire| % 4 == 0 && |wire| <= MAX_DATA_FRAME_BYTES
  }

  /** A complete frame or a refusal is already decided by the bytes seen; later bytes cannot change it. */
  lemma LaterBytesDoNotMatter(bytes: seq<byte>, more: seq<byte>)
    requires Decode(bytes) != NeedMore
    ensures Decode(bytes + more) == Decode(bytes)
  {
    var all := bytes + more;
    assert all[0] == bytes[0] && all[2] == bytes[2] && all[3] == bytes[3];
    if |bytes| >= 8 {
      assert all[4..8] == bytes[4..8];
    }
    match Decode(bytes)
    case Complete(frame) => assert all[..|frame.wire|] == bytes[..|frame.wire|];
    case Broken(_) =>
  }

  /** An undecided buffer is always shorter than the read buffer, so its hard limit is never met. */
  lemma UndecidedIsShort(bytes: seq<byte>)
    requires Decode(bytes) == NeedMore
    ensures |bytes| < STREAM_READ_BUFFER_BYTES
  {
  }

  lemma SameStart(wire: seq<byte>, more: seq<byte>)
    requires |wire| >= 4
    ensures (wire + more)[0] == wire[0] && U16At(wire + more, 2) == U16At(wire, 2)
    ensures |wire| >= 8 ==> (wire + more)[4..8] == wire[4..8]
    ensures (wire + more)[..|wire|] == wire
  {
  }

  lemma WellFormedControlIsDecoded(frame: Frame, more: seq<byte>)
    requires frame.control && WellFormed(frame)
    ensures Decode(frame.wire + more) == Complete(frame)
  {
    SameStart(frame.wire, more);
  }

  lemma WellFormedDataIsDecoded(frame: Frame, more: seq<byte>)
    requires !frame.control && WellFormed(frame)
    ensures Decode(frame.wire + more) == Complete(frame)
  {
    SameStart(frame.wire, more);
  }

  lemma DecodedHead(bytes: seq<byte>)
    requires Decode(bytes).Complete?
    ensures 4 <= |Decode(bytes).frame.wire| <= |bytes| &&
              bytes[..|Decode(bytes).frame.wire|] == Decode(bytes).frame.wire
  {
  }

  lemma DecodedIsWellFormed(bytes: seq<byte>)
    requires Decode(bytes).Complete?
    ensures WellFormed(Decode(bytes).frame)
  {
    DecodedHead(bytes);
    var wire := Decode(bytes).frame.wire;
    assert bytes == wire + bytes[|wire|..];
    SameStart(wire, bytes[|wire|..]);
  }

  /** Decoding yields exactly the well-formed frames: a frame at the head is found iff it is one. */
  lemma DecodesExactlyWellFormed(frame: Frame, more: seq<byte>)
    ensures Decode(frame.wire + more) == Complete(frame) <==> WellFormed(frame)
  {
    hide Decode, WellFormed;
    if WellFormed(frame) && frame.control {
      WellFormedControlIsDecoded(frame, more);
    } else if WellFormed(frame) {
      WellFormedDataIsDecoded(frame, more);
    }
    if Decode(frame.wire + more).Complete? {
      DecodedIsWellFormed(frame.wire + more);
    }
  }

  /** Frames and remainder tile the stream, and every frame found is well formed. */
  lemma {:induction false} ParseTiles(bytes: seq<byte>)
    ensures var p := Parse(bytes);
            && Wire(p.frames) + p.rest == bytes
            && (forall i | 0 <= i < |p.frames| :: WellFormed(p.frames[i]))
            && Decode(p.rest) == (if p.error.Some? then Broken(p.error.value) else NeedMore)
    decreases |bytes|
  {
    match Decode(bytes)
    case NeedMore =>
    case Broken(_) =>
    case Complete(frame) =>
      var rest := bytes[|frame.wire|..];
      assert bytes == frame.wire + rest;
      DecodesExactlyWellFormed(frame, rest);
      ParseTiles(rest);
      var tail := Parse(rest);
      assert ([frame] + tail.frames)[1..] == tail.frames;
  }

  /** `second` continues the parse `first` stopped at. */
  function Continue(first: Parsed, second: Parsed): Parsed
  {
    Parsed(first.frames + second.frames, second.rest, second.error)
  }

  lemma ParseHead(frame: Frame, more: seq<byte>)
    requires Decode(frame.wire + more) == Complete(frame)
    ensures Parse(frame.wire + more) == Continue(Parsed([frame], more, None), Parse(more))
  {
    assert (frame.wire + more)[|frame.wire|..] == more;
  }

  /** Well-formed frames sent back to back are found again at their own boundaries. */
  lemma {:induction false} FramesSurviveConcatenation(frames: seq<Frame>, rest: seq<byte>)
    requires forall i | 0 <= i < |frames| :: WellFormed(frames[i])
    ensures Parse(Wire(frames) + rest) == Continue(Parsed(frames, rest, None), Parse(rest))
  {
    hide Decode, WellFormed;
    if frames == [] {
      assert Wire(frames) + rest == rest;
    } else {
      var more := Wire(frames[1..]) + rest;
      assert Wire(frames) + rest == frames[0].wire + more;
      DecodesExactlyWellFormed(frames[0], more);
      ParseHead(frames[0], more);
      FramesSurviveConcatenation(frames[1..], rest);
      assert frames == [frames[0]] + frames[1..];
    }
  }

  /** What was parsed stays parsed when more bytes arrive; only the remainder is looked at again. */
  lemma {:induction false} ParseInTwoSteps(bytes: seq<byte>, more: seq<byte>)
    requires Parse(bytes).error == None
    ensures Parse(bytes + more) == Continue(Parse(bytes), Parse(Parse(bytes).rest + more))
    decreases |bytes|
  {
    hide Decode, WellFormed;
    if Decode(bytes).Complete? {
      var frame := Decode(bytes).frame;
      DecodedHead(bytes);
      var tail := bytes[|frame.wire|..];
      assert bytes == frame.wire + tail;
      assert bytes + more == frame.wire + (tail + more);
      LaterBytesDoNotMatter(bytes, more);
      ParseHead(frame, tail);
      ParseHead(frame, tail + more);
      ParseInTwoSteps(tail, more);
    }
  }

  // ---------------------------------------------------------------------------------------------
  // The reader.
  // ---------------------------------------------------------------------------------------------

  /** What the reader hands out for a frame: data needs a free packet buffer, control does not. */
  function Deliver(frame: Frame, bufferFree: bool): Delivered
  {
    if frame.control then Control(frame.wire) else if bufferFree then Data(frame.wire) else DataDropped
  }

  function DeliverAll(frames: seq<Frame>, bufferFree: nat -> bool): seq<Delivered>
  {
    seq(|frames|, i requires 0 <= i < |frames| => Deliver(frames[i], bufferFree(i)))
  }

  /** The bytes of the reads up to the first empty one, which is how a closed stream reads. */
  function BytesBeforeClose(chunks: seq<seq<byte>>): seq<byte>
  {
    if chunks == [] || chunks[0] == [] then [] else chunks[0] + BytesBeforeClose(chunks[1..])
  }

  predicate ClosesIn(chunks: seq<seq<byte>>)
  {
    exists i | 0 <= i < |chunks| :: chunks[i] == []
  }

  /** `Waiting` means that all the reads given were used up without completing a frame. */
  datatype ReadOutcome = Got(delivered: Delivered) | Failed(error: StreamError) | Waiting

  class Reader {
    var buffer: seq<byte>

    constructor ()
      ensures buffer == []
    {
      buffer := [];
    }

    /** Splits one complete frame off the buffer. */
    method TakeFrame(bufferFree: bool) returns (r: Result<Option<Delivered>, StreamError>)
      modifies this
      ensures match Decode(old(buffer))
              case NeedMore => r == Ok(None) && buffer == old(buffer)
              case Broken(e) => r == Err(e) && buffer == old(buffer)
              case Complete(frame) => r == Ok(Some(Deliver(frame, bufferFree))) && old(buffer) == frame.wire + buffer
    {
      match FrameStart(buffer)
      case Err(e) =>
        return Err(e);
      case Ok(None) =>
        return Ok(None);
      case Ok(Some(ControlFrame(frameBytes))) =>
        if |buffer| < frameBytes {
          return Ok(None);
        }
        var wire := buffer[..frameBytes];
        buffer := buffer[frameBytes..];
        return Ok(Some(Control(wire)));
      case Ok(Some(DataFrame(frameBytes, padding))) =>
        if |buffer| < frameBytes + padding {
          return Ok(None);
        }
        var wire := buffer[..frameBytes + padding];
        buffer := buffer[frameBytes + padding..];
        return Ok(Some(if bufferFree then Data(wire) else DataDropped));
    }

    /** Reads until a frame is complete; `chunks` is what the following reads of the stream bring. */
    method ReadFrame(chunks: seq<seq<byte>>, bufferFree: bool) returns (outcome: ReadOutcome, used: nat)
      modifies this
      ensures used <= |chunks| && outcome != Failed(HardLimit)
      ensures forall i | 0 <= i < used :: chunks[i] == [] ==> i == used - 1 && outcome == Failed(Closed)
      ensures var all := old(buffer) + BytesBeforeClose(chunks[..used]);
              match outcome
              case Got(d) => Decode(all).Complete? && d == Deliver(Decode(all).frame, bufferFree) &&
                             all == Decode(all).frame.wire + buffer
              case Failed(Closed) => Decode(all) == NeedMore && buffer == all && used > 0 && chunks[used - 1] == []
              case Failed(e) => Decode(all) == Broken(e) && buffer == all
              case Waiting => Decode(all) == NeedMore && buffer == all && used == |chunks|
    {
      used := 0;
      while true
        invariant used <= |chunks| && buffer == old(buffer) + BytesBeforeClose(chunks[..used])
        invariant forall i | 0 <= i < used :: chunks[i] != []
        decreases |chunks| - used
      {
        var taken := TakeFrame(bufferFree);
        if taken.Err? {
          return Failed(taken.error), used;
        }
        if taken.value.Some? {
          return Got(taken.value.value), used;
        }
        UndecidedIsShort(buffer);
        if |buffer| >= STREAM_READ_BUFFER_BYTES {
          return Failed(HardLimit), used;
        }
        if used == |chunks| {
          return Waiting, used;
        }
        var chunk := chunks[used];
        OneMoreRead(chunks, used);
        used := used + 1;
        if chunk == [] {
          return Failed(Closed), used;
        }
        buffer := buffer + chunk;
      }
    }

    /**
      Reads frames until the stream fails or the reads run out. The result depends only on the bytes
      received and on which frames found a free buffer, never on where the reads cut the bytes.
    */
    method ReadAll(chunks: seq<seq<byte>>, bufferFree: nat -> bool)
    returns (delivered: seq<Delivered>, error: Option<StreamError>)
      modifies this
      ensures var p := Parse(old(buffer) + BytesBeforeClose(chunks));
              && delivered == DeliverAll(p.frames, bufferFree)
              && error == (if p.error.Some? then p.error else if ClosesIn(chunks) then Some(Closed) else None)
              && (if p.error.Some? then buffer <= p.rest else buffer == p.rest)
    {
      hide Decode, Parse, BytesBeforeClose, DeliverAll;
      delivered, error := [], None;
      NothingDelivered(bufferFree);
      var used := 0;
      ghost var frames: seq<Frame> := [];
      ghost var p := Parse(buffer + BytesBeforeClose(chunks));
      while true
        invariant used <= |chunks| && forall i | 0 <= i < used :: chunks[i] != []
        invariant delivered == DeliverAll(frames, bufferFree) && error == None
        invariant p == Continue(Parsed(frames, [], None), Parse(buffer + BytesBeforeClose(chunks[used..])))
        decreases |buffer + BytesBeforeClose(chunks[used..])|
      {
        ghost var before := buffer;
        var pending := chunks[used..];
        var outcome, n := ReadFrame(pending, bufferFree(|delivered|));
        ghost var all := before + BytesBeforeClose(pending[..n]);
        assert frames + [] == frames;
        if outcome.Got? {
          FrameWasRead(before, pending, n, buffer);
          DeliverOneMore(frames, Decode(all).frame, bufferFree);
          frames := frames + [Decode(all).frame];
          delivered := delivered + [outcome.delivered];
          used := used + n;
          assert pending[n..] == chunks[used..];
        } else if outcome == Failed(Closed) {
          ClosingReadEndsStream(pending, n);
          UndecidedParse(buffer);
          assert chunks[used + n - 1] == [];
          return delivered, Some(Closed);
        } else if outcome.Failed? {
          StreamWasRefused(before, pending, n, outcome.error);
          return delivered, Some(outcome.error);
        } else {
          assert pending[..n] == pending;
          UndecidedParse(buffer);
          assert forall i | used <= i < |chunks| :: chunks[i] == pending[i - used];
          return delivered, None;
        }
      }
    }
  }

  lemma UndecidedParse(bytes: seq<byte>)
    requires Decode(bytes) == NeedMore
    ensures Parse(bytes) == Parsed([], bytes, None)
  {
  }

  lemma NothingDelivered(bufferFree: nat -> bool)
    ensures DeliverAll([], bufferFree) == []
  {
  }

  lemma DeliverOneMore(frames: seq<Frame>, frame: Frame, bufferFree: nat -> bool)
    ensures |DeliverAll(frames, bufferFree)| == |frames|
    ensures DeliverAll(frames + [frame], bufferFree) ==
              DeliverAll(frames, bufferFree) + [Deliver(frame, bufferFree(|frames|))]
  {
  }

  lemma FrameWasRead(before: seq<byte>, pending: seq<seq<byte>>, n: nat, after: seq<byte>)
    requires n <= |pending| && forall i | 0 <= i < n :: pending[i] != []
    requires var all := before + BytesBeforeClose(pending[..n]);
             Decode(all).Complete? && all == Decode(all).frame.wire + after
    ensures var frame := Decode(before + BytesBeforeClose(pending[..n])).frame;
            Parse(before + BytesBeforeClose(pending)) ==
            Continue(Parsed([frame], [], None), Parse(after + BytesBeforeClose(pending[n..])))
    ensures |after + BytesBeforeClose(pending[n..])| < |before + BytesBeforeClose(pending)|
  {
    hide Decode, BytesBeforeClose;
    var all, more := before + BytesBeforeClose(pending[..n]), BytesBeforeClose(pending[n..]);
    var frame := Decode(all).frame;
    JoinedReads(pending, n);
    DecodedHead(all);
    LaterBytesDoNotMatter(all, more);
    assert before + BytesBeforeClose(pending) == all + more == frame.wire + (after + more);
    ParseHead(frame, after + more);
  }

  lemma StreamWasRefused(before: seq<byte>, pending: seq<seq<byte>>, n: nat, error: StreamError)
    requires n <= |pending| && forall i | 0 <= i < n :: pending[i] != []
    requires Decode(before + BytesBeforeClose(pending[..n])) == Broken(error)
    ensures var p := Parse(before + BytesBeforeClose(pending));
            p.frames == [] && p.error == Some(error) && before + BytesBeforeClose(pending[..n]) <= p.rest
  {
    hide Decode, BytesBeforeClose;
    var all, more := before + BytesBeforeClose(pending[..n]), BytesBeforeClose(pending[n..]);
    JoinedReads(pending, n);
    LaterBytesDoNotMatter(all, more);
    assert before + BytesBeforeClose(pending) == all + more;
  }

  lemma ClosingReadEndsStream(pending: seq<seq<byte>>, n: nat)
    requires 0 < n <= |pending| && pending[n - 1] == [] && forall i | 0 <= i < n - 1 :: pending[i] != []
    ensures BytesBeforeClose(pending) == BytesBeforeClose(pending[..n])
  {
    JoinedReads(pending, n - 1);
    assert pending[n - 1..][0] == [];
    OneMoreRead(pending, n - 1);
  }

  lemma {:induction false} JoinedReads(chunks: seq<seq<byte>>, n: nat)
    requires n <= |chunks| && forall i | 0 <= i < n :: chunks[i] != []
    ensures BytesBeforeClose(chunks) == BytesBeforeClose(chunks[..n]) + BytesBeforeClose(chunks[n..])
  {
    if n > 0 {
      JoinedReads(chunks[1..], n - 1);
      assert chunks[..n][1..] == chunks[1..][..n - 1] && chunks[1..][n - 1..] == chunks[n..];
    } else {
      assert chunks[..0] == [] && chunks[0..] == chunks;
    }
  }

  lemma {:induction false} OneMoreRead(chunks: seq<seq<byte>>, n: nat)
    requires n < |chunks| && forall i | 0 <= i < n :: chunks[i] != []
    ensures BytesBeforeClose(chunks[..n + 1]) == BytesBeforeClose(chunks[..n]) + chunks[n]
  {
    if n > 0 {
      OneMoreRead(chunks[1..], n - 1);
      assert chunks[..n + 1][1..] == chunks[1..][..n] && chunks[..n][1..] == chunks[1..][..n - 1];
    } else {
      assert chunks[..1] == [chunks[0]] && BytesBeforeClose([chunks[0]]) == chunks[0] + BytesBeforeClose([]);
    }
  }
}
