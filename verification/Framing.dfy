/** Newline-terminated frames. */
module Framing {
  /*
   The splitting of a byte stream into newline-terminated frames. However the stream is cut into
   chunks, the frames are its lines, or the first error is the same.
  */

  import opened Options
  import opened Lists
  import opened Bytes
  import opened JsonText
  import opened JsonCanonical

  const MAX_FRAME_BYTES: nat := 16_777_216
  const NEWLINE: Byte := 10
  const RETURN: Byte := 13

  datatype FrameError = InvalidUtf8 | InvalidJson | InvalidShape | DuplicateKey | Nul | TooLarge | Unterminated

  type Frame = seq<Byte>

  /** What the strict reading of a frame as one JSON object finds wrong, if anything. */
  type Strict = Frame -> Option<FrameError>

  /** The frames completed so far and the bytes after them, or an error and the bytes held when it arose. */
  datatype Outcome = Frames(frames: seq<Frame>, pending: seq<Byte>) | Failed(error: FrameError, pending: seq<Byte>)

  // ------------------------------------------------------------ one byte at a time

  function FrameFault(frame: Frame, strict: Strict): Option<FrameError> {
    if frame == [] || |frame| >= MAX_FRAME_BYTES || RETURN in frame then Some(InvalidShape)
    else if !ValidUtf8(frame) then Some(InvalidUtf8)
    else strict(frame)
  }

  function Feed(pending: seq<Byte>, b: Byte, strict: Strict): Outcome {
    if b == 0 then Failed(Nul, pending)
    else
      var held := pending + [b];
      if |held| > MAX_FRAME_BYTES then Failed(TooLarge, held)
      else if b != NEWLINE then Frames([], held)
      else if FrameFault(pending, strict).Some? then Failed(FrameFault(pending, strict).value, held)
      else Frames([pending], [])
  }

  /** `first` and then `second`, whose frames come after. */
  function Joined(frames: seq<Frame>, second: Outcome): Outcome {
    if second.Failed? then second else Frames(frames + second.frames, second.pending)
  }

  function Pushed(pending: seq<Byte>, bytes: seq<Byte>, strict: Strict): Outcome
    decreases |bytes|
  {
    if bytes == [] then Frames([], pending)
    else
      var first := Feed(pending, bytes[0], strict);
      if first.Failed? then first else Joined(first.frames, Pushed(first.pending, bytes[1..], strict))
  }

  class NdjsonFramer {
    const strict: Strict
    var pending: seq<Byte>

    constructor (strict: Strict)
      ensures this.strict == strict && pending == []
    {
      this.strict, pending := strict, [];
    }

    method Push(bytes: seq<Byte>) returns (r: Outcome)
      modifies this`pending
      ensures r == Pushed(old(pending), bytes, strict) && pending == r.pending
    {
      hide Feed;
      var frames: seq<Frame> := [];
      for i := 0 to |bytes|
        invariant Joined(frames, Pushed(pending, bytes[i..], strict)) == Pushed(old(pending), bytes, strict)
      {
        assert bytes[i..][1..] == bytes[i + 1..];
        ghost var later := Pushed(pending, bytes[i..], strict);
        var step := PushByte(bytes[i]);
        if step.Failed? {
          return step;
        }
        assert later == Joined(step.frames, Pushed(pending, bytes[i + 1..], strict));
        frames := frames + step.frames;
      }
      return Frames(frames, pending);
    }

    method PushByte(b: Byte) returns (r: Outcome)
      modifies this`pending
      ensures r == Feed(old(pending), b, strict) && pending == r.pending
    {
      hide FrameFault;
      if b == 0 {
        return Failed(Nul, pending);
      }
      pending := pending + [b];
      if |pending| > MAX_FRAME_BYTES {
        return Failed(TooLarge, pending);
      }
      if b != NEWLINE {
        return Frames([], pending);
      }
      var frame := pending[..|pending| - 1];
      assert frame == old(pending);
      var fault := FrameFault(frame, strict);
      if fault.Some? {
        return Failed(fault.value, pending);
      }
      pending := [];
      return Frames([frame], []);
    }

    method Finish() returns (fault: Option<FrameError>)
      ensures fault.None? <==> pending == []
      ensures fault.Some? ==> fault.value == Unterminated
    {
      return if pending == [] then None else Some(Unterminated);
    }
  }

  // ------------------------------------------------------------ chunks

  lemma {:induction false} PushedTwice(pending: seq<Byte>, x: seq<Byte>, y: seq<Byte>, strict: Strict)
    ensures Pushed(pending, x + y, strict) ==
      var first := Pushed(pending, x, strict);
      if first.Failed? then first else Joined(first.frames, Pushed(first.pending, y, strict))
    decreases |x|
  {
    hide Feed;
    if x == [] {
      assert x + y == y;
    } else {
      assert (x + y)[1..] == x[1..] + y;
      var first := Feed(pending, x[0], strict);
      if !first.Failed? {
        PushedTwice(first.pending, x[1..], y, strict);
        if Pushed(first.pending, x[1..], strict).Frames? {
          JoinedTwice(first.frames, Pushed(first.pending, x[1..], strict), y, strict);
        }
      }
    }
  }

  lemma JoinedTwice(frames: seq<Frame>, second: Outcome, y: seq<Byte>, strict: Strict)
    requires second.Frames?
    ensures Joined(frames + second.frames, Pushed(second.pending, y, strict)) ==
      Joined(frames, Joined(second.frames, Pushed(second.pending, y, strict)))
  {
    hide Pushed;
  }

  /** Pushing chunk after chunk, up to the first error. */
  function PushedEach(pending: seq<Byte>, chunks: seq<seq<Byte>>, strict: Strict): Outcome
    decreases |chunks|
  {
    if chunks == [] then Frames([], pending)
    else
      var first := Pushed(pending, chunks[0], strict);
      if first.Failed? then first else Joined(first.frames, PushedEach(first.pending, chunks[1..], strict))
  }

  /** How a stream is cut into chunks makes no difference to the frames, to the first error or to what is left over. */
  lemma {:induction false} ChunksDoNotMatter(pending: seq<Byte>, chunks: seq<seq<Byte>>, strict: Strict)
    ensures PushedEach(pending, chunks, strict) == Pushed(pending, Concat(chunks), strict)
    decreases |chunks|
  {
    if chunks != [] {
      ConcatHead(chunks);
      PushedTwice(pending, chunks[0], Concat(chunks[1..]), strict);
      var first := Pushed(pending, chunks[0], strict);
      hide Pushed;
      if !first.Failed? {
        ChunksDoNotMatter(first.pending, chunks[1..], strict);
      }
    }
  }

  // ------------------------------------------------------------ the frames are the lines

  /** What a framer holds between bytes: part of one line, not too long. */
  predicate Held(pending: seq<Byte>) {
    NEWLINE !in pending && 0 !in pending && |pending| <= MAX_FRAME_BYTES
  }

  /** A line that is a frame: not empty, short enough with its newline, and well-formed. */
  predicate Good(line: seq<Byte>, strict: Strict) {
    && line != [] && |line| + 1 <= MAX_FRAME_BYTES && RETURN !in line && 0 !in line
    && ValidUtf8(line) && strict(line).None?
  }

  predicate AllGood(lines: seq<seq<Byte>>, strict: Strict) {
    && lines != []
    && (forall i | 0 <= i < |lines| - 1 :: Good(lines[i], strict))
    && Held(lines[|lines| - 1])
  }

  lemma SplitHeld(pending: seq<Byte>)
    requires Held(pending)
    ensures Split(pending, NEWLINE) == [pending]
  {
    SplitPiece(pending, NEWLINE, []);
  }

  /** As `FrameFault`, `Feed` and `Pushed`, without the test for a frame as long as the limit. */
  function UntestedFault(frame: Frame, strict: Strict): Option<FrameError> {
    if frame == [] || RETURN in frame then Some(InvalidShape)
    else if !ValidUtf8(frame) then Some(InvalidUtf8)
    else strict(frame)
  }

  function UntestedFeed(pending: seq<Byte>, b: Byte, strict: Strict): Outcome {
    if b == 0 then Failed(Nul, pending)
    else
      var held := pending + [b];
      if |held| > MAX_FRAME_BYTES then Failed(TooLarge, held)
      else if b != NEWLINE then Frames([], held)
      else if UntestedFault(pending, strict).Some? then Failed(UntestedFault(pending, strict).value, held)
      else Frames([pending], [])
  }

  function UntestedPushed(pending: seq<Byte>, bytes: seq<Byte>, strict: Strict): Outcome
    decreases |bytes|
  {
    if bytes == [] then Frames([], pending)
    else
      var first := UntestedFeed(pending, bytes[0], strict);
      if first.Failed? then first else Joined(first.frames, UntestedPushed(first.pending, bytes[1..], strict))
  }

  /** The test never fires: whatever is held and pushed, the outcome is the same without it. */
  lemma {:induction false} LengthTestNeverFires(pending: seq<Byte>, bytes: seq<Byte>, strict: Strict)
    ensures Pushed(pending, bytes, strict) == UntestedPushed(pending, bytes, strict)
    decreases |bytes|
  {
    if bytes != [] {
      assert Feed(pending, bytes[0], strict) == UntestedFeed(pending, bytes[0], strict);
      hide Feed, UntestedFeed;
      var first := Feed(pending, bytes[0], strict);
      if !first.Failed? {
        LengthTestNeverFires(first.pending, bytes[1..], strict);
      }
    }
  }

  lemma FeedLine(pending: seq<Byte>, rest: seq<Byte>, strict: Strict)
    requires Held(pending)
    ensures var lines := Split(pending + [NEWLINE] + rest, NEWLINE);
      && lines == [pending] + Split(rest, NEWLINE)
      && (AllGood(lines, strict) <==> Good(pending, strict) && AllGood(Split(rest, NEWLINE), strict))
    ensures Feed(pending, NEWLINE, strict) == Frames([pending], []) <==> Good(pending, strict)
    ensures Feed(pending, NEWLINE, strict).Frames? <==> Good(pending, strict)
  {
    SplitPiece(pending, NEWLINE, rest);
    hide ValidUtf8, Split;
    var tail := Split(rest, NEWLINE);
    var lines := [pending] + tail;
    assert lines[0] == pending && lines[|lines| - 1] == tail[|tail| - 1];
    assert forall i | 0 <= i < |tail| - 1 :: tail[i] == lines[i + 1];
    assert forall i | 0 < i < |lines| - 1 :: lines[i] == tail[i - 1];
  }

  lemma {:induction false} FirstPieceExtends(pending: seq<Byte>, rest: seq<Byte>)
    requires NEWLINE !in pending
    ensures pending <= Split(pending + rest, NEWLINE)[0]
    decreases |pending|
  {
    if pending != [] {
      FirstPieceExtends(pending[1..], rest);
      assert (pending + rest)[1..] == pending[1..] + rest;
      assert pending == [pending[0]] + pending[1..];
    }
  }

  /** A line that starts badly is not a good one. */
  lemma BadStart(pending: seq<Byte>, rest: seq<Byte>, strict: Strict)
    requires NEWLINE !in pending && (0 in pending || |pending| > MAX_FRAME_BYTES)
    ensures !AllGood(Split(pending + rest, NEWLINE), strict)
  {
    FirstPieceExtends(pending, rest);
    hide Split, ValidUtf8;
    var lines := Split(pending + rest, NEWLINE);
    assert |lines[0]| >= |pending|;
    assert 0 in pending ==> 0 in lines[0];
    if |lines| > 1 {
      assert !Good(lines[0], strict);
    }
  }

  /** A push succeeds exactly when every complete line is good, and its frames are those lines. */
  lemma {:induction false} FramesAreLines(pending: seq<Byte>, bytes: seq<Byte>, strict: Strict)
    requires Held(pending)
    ensures var lines, r := Split(pending + bytes, NEWLINE), Pushed(pending, bytes, strict);
      && (r.Frames? <==> AllGood(lines, strict))
      && (r.Frames? ==> r.frames == lines[..|lines| - 1] && r.pending == lines[|lines| - 1])
    decreases |bytes|
  {
    if bytes == [] {
      assert pending + bytes == pending;
      SplitHeld(pending);
    } else {
      var b, rest := bytes[0], bytes[1..];
      var held := pending + [b];
      assert bytes == [b] + rest;
      assert pending + bytes == held + rest;
      hide ValidUtf8, Split, Good;
      if b == NEWLINE {
        FeedLine(pending, rest, strict);
        FramesAreLines([], rest, strict);
        assert [] + rest == rest;
      } else if Held(held) {
        FramesAreLines(held, rest, strict);
      } else {
        BadStart(held, rest, strict);
      }
    }
  }

  /** Every byte of the stream is in a frame, is a frame's newline, or is still pending. */
  function Stream(frames: seq<Frame>, pending: seq<Byte>): seq<Byte> {
    if frames == [] then pending else frames[0] + [NEWLINE] + Stream(frames[1..], pending)
  }

  lemma {:induction false} NothingIsLost(pending: seq<Byte>, bytes: seq<Byte>, strict: Strict)
    requires Held(pending) && Pushed(pending, bytes, strict).Frames?
    ensures var r := Pushed(pending, bytes, strict);
      pending + bytes == Stream(r.frames, r.pending) && Held(r.pending) && forall f | f in r.frames :: Good(f, strict)
  {
    FramesAreLines(pending, bytes, strict);
    var lines := Split(pending + bytes, NEWLINE);
    StreamOfLines(pending + bytes);
    hide Split, Good, Pushed;
    assert forall i | 0 <= i < |lines| - 1 :: lines[..|lines| - 1][i] == lines[i];
  }

  lemma {:induction false} StreamOfLines(s: seq<Byte>)
    ensures var lines := Split(s, NEWLINE); s == Stream(lines[..|lines| - 1], lines[|lines| - 1])
    decreases |s|
  {
    hide Split;
    var lines := Split(s, NEWLINE);
    var piece, rest := FirstPiece(s, NEWLINE);
    if |lines| > 1 {
      StreamOfLines(rest);
      var tail := Split(rest, NEWLINE);
      assert lines == [piece] + tail;
      assert lines[..|lines| - 1] == [piece] + tail[..|tail| - 1];
      assert lines[|lines| - 1] == tail[|tail| - 1];
    }
  }

  // ------------------------------------------------------------ no key twice

  /** Reads a value, and fails at the first key that its object already has. */
  method VisitStrict(v: Json) returns (ok: bool)
    ensures ok <==> WellFormed(v)
    decreases v
  {
    match v
    case Arr(items) =>
      for i := 0 to |items|
        invariant forall k | 0 <= k < i :: WellFormed(items[k])
      {
        var item := VisitStrict(items[i]);
        if !item {
          return false;
        }
      }
      return true;
    case Obj(fields) =>
      var keys: set<Text> := {};
      for i := 0 to |fields|
        invariant KeyedOnce(fields[..i])
        invariant keys == set k | 0 <= k < i :: fields[k].key
        invariant forall k | 0 <= k < i :: WellFormed(fields[k].value)
      {
        assert fields[i] in fields;
        if fields[i].key in keys {
          assert !KeyedOnce(fields);
          return false;
        }
        keys := keys + {fields[i].key};
        var value := VisitStrict(fields[i].value);
        if !value {
          return false;
        }
      }
      assert fields[..|fields|] == fields;
      return true;
    case _ =>
      return true;
  }
}
