/** Newline-delimited frames from a chunked byte stream, with a bound on the line length. */
module LineReader {
  import opened Prelude
  import opened Utf8

  const NEWLINE: byte := 0x0A
  const RETURN: byte := 0x0D

  datatype Frame = Line(text: Bytes) | Oversized

  /** Outcome of one read: end of input, a frame, or a line that is not UTF-8. */
  datatype Read = End | Got(frame: Frame) | Invalid

  // ----- specification on the whole input

  /** Position of the first newline, or the length when there is none. */
  function LineEnd(input: Bytes): (n: nat)
    ensures n <= |input|
    ensures n < |input| ==> input[n] == NEWLINE
  {
    if input == [] || input[0] == NEWLINE then 0 else 1 + LineEnd(input[1..])
  }

  function DecodeLine(line: Bytes): Read
  {
    var line := if line != [] && line[|line| - 1] == RETURN then line[..|line| - 1] else line;
    if Valid(line) then Got(Line(line)) else Invalid
  }

  /** What a line within the limit carries: itself, without one final carriage return. */
  lemma DecodedText(line: Bytes, text: Bytes)
    requires line == text + [RETURN] || (line == text && (text == [] || text[|text| - 1] != RETURN))
    ensures DecodeLine(line) == if Valid(text) then Got(Line(text)) else Invalid
  {
    if line == text + [RETURN] {
      assert line[..|line| - 1] == text;
    }
  }

  /** A line longer than the limit is reported as such; any other carries its text. */
  lemma FrameCarries(segment: Bytes, limit: nat, text: Bytes)
    requires segment == text + [RETURN] || (segment == text && (text == [] || text[|text| - 1] != RETURN))
    ensures ToRead(segment, limit) ==
            if |segment| > limit then Got(Oversized) else if Valid(text) then Got(Line(text)) else Invalid
  {
    DecodedText(segment, text);
  }

  function ToRead(segment: Bytes, limit: nat): Read
  {
    if |segment| > limit then Got(Oversized) else DecodeLine(segment)
  }

  function AfterLine(input: Bytes): Bytes
  {
    var n := LineEnd(input);
    if n < |input| then input[n + 1..] else []
  }

  /** One frame off the front of the input. */
  function NextRead(input: Bytes, limit: nat): Read
  {
    if input == [] then End else ToRead(input[..LineEnd(input)], limit)
  }

  /** The lines of the input, without their newlines; nothing follows a final newline. */
  function Segments(input: Bytes): seq<Bytes>
    decreases |input|
  {
    if input == [] then [] else [input[..LineEnd(input)]] + Segments(AfterLine(input))
  }

  datatype Frames = Frames(frames: seq<Frame>, failed: bool)

  /** Each line becomes a frame, up to the first one that is not UTF-8. */
  function FramesOf(segments: seq<Bytes>, limit: nat): Frames
  {
    if segments == [] then Frames([], false)
    else match ToRead(segments[0], limit)
      case Got(frame) =>
        var rest := FramesOf(segments[1..], limit);
        Frames([frame] + rest.frames, rest.failed)
      case _ => Frames([], true)
  }

  predicate Undecodable(segment: Bytes, limit: nat) { ToRead(segment, limit) == Invalid }

  /** One frame per line, in order, up to the first line that cannot be decoded; reading fails exactly if there is one. */
  lemma {:induction false} FramesMeaning(segments: seq<Bytes>, limit: nat)
    ensures var r := FramesOf(segments, limit);
            && |r.frames| <= |segments|
            && (forall k | 0 <= k < |r.frames| :: ToRead(segments[k], limit) == Got(r.frames[k]))
            && (r.failed ==> |r.frames| < |segments| && Undecodable(segments[|r.frames|], limit))
            && (!r.failed ==> |r.frames| == |segments|)
  {
    if segments != [] && ToRead(segments[0], limit).Got? {
      var rest := FramesOf(segments[1..], limit);
      FramesMeaning(segments[1..], limit);
      var r := FramesOf(segments, limit);
      assert forall k | 0 < k < |r.frames| :: r.frames[k] == rest.frames[k - 1] && segments[k] == segments[1..][k - 1];
    }
  }

  function Joined(segments: seq<Bytes>): Bytes
  {
    if segments == [] then [] else segments[0] + [NEWLINE] + Joined(segments[1..])
  }

  lemma {:induction false} LineEndIsFirst(input: Bytes)
    ensures forall k | 0 <= k < LineEnd(input) :: input[k] != NEWLINE
  {
    if input != [] && input[0] != NEWLINE {
      LineEndIsFirst(input[1..]);
      forall k | 0 <= k < LineEnd(input)
        ensures input[k] != NEWLINE
      {
        assert k > 0 ==> input[k] == input[1..][k - 1];
      }
    }
  }

  /** No line holds a newline. */
  lemma {:induction false} SegmentsHaveNoNewline(input: Bytes)
    ensures forall s | s in Segments(input) :: NEWLINE !in s
    decreases |input|
  {
    if input != [] {
      LineEndIsFirst(input);
      SegmentsHaveNoNewline(AfterLine(input));
    }
  }

  lemma JoinedStep(input: Bytes)
    requires input != []
    ensures Joined(Segments(input)) == input[..LineEnd(input)] + [NEWLINE] + Joined(Segments(AfterLine(input)))
  {
    assert Segments(input)[1..] == Segments(AfterLine(input));
  }

  predicate Terminated(input: Bytes) { input == [] || input[|input| - 1] == NEWLINE }

  lemma SplitAtNewline(input: Bytes, n: nat)
    requires n < |input| && input[n] == NEWLINE
    ensures input == input[..n] + [NEWLINE] + input[n + 1..]
    ensures Terminated(input) == Terminated(input[n + 1..])
  {
  }

  /** Joining the lines gives the input back, with its final newline completed. */
  lemma {:induction false} SegmentsJoin(input: Bytes)
    ensures Joined(Segments(input)) == if Terminated(input) then input else input + [NEWLINE]
    decreases |input|
  {
    if input != [] {
      JoinedStep(input);
      SegmentsJoin(AfterLine(input));
      LastOrNot(input, Joined(Segments(AfterLine(input))));
    }
  }

  lemma LastOrNot(input: Bytes, tail: Bytes)
    requires input != []
    requires tail == if Terminated(AfterLine(input)) then AfterLine(input) else AfterLine(input) + [NEWLINE]
    ensures input[..LineEnd(input)] + [NEWLINE] + tail == if Terminated(input) then input else input + [NEWLINE]
  {
    var n := LineEnd(input);
    if n < |input| {
      SplitAtNewline(input, n);
      assert input[..n] + [NEWLINE] + (AfterLine(input) + [NEWLINE]) == (input[..n] + [NEWLINE] + AfterLine(input)) + [NEWLINE];
    } else {
      LineEndIsFirst(input);
      assert input[..n] == input;
    }
  }

  /** A newline inside the available bytes is the first newline of everything unread. */
  lemma {:induction false} NewlineFound(available: Bytes, unread: Bytes)
    requires available <= unread && LineEnd(available) < |available|
    ensures LineEnd(unread) == LineEnd(available)
  {
    if available[0] != NEWLINE {
      NewlineFound(available[1..], unread[1..]);
    }
  }

  /** Without one, the search goes on behind the available bytes. */
  lemma {:induction false} NewlineFurther(available: Bytes, unread: Bytes)
    requires available <= unread && LineEnd(available) == |available|
    ensures LineEnd(unread) == |available| + LineEnd(unread[|available|..])
  {
    if available == [] {
      assert unread[0..] == unread;
    } else {
      NewlineFurther(available[1..], unread[1..]);
      assert unread[1..][|available| - 1..] == unread[|available|..];
    }
  }

  // ----- the chunked reader

  /** Remaining input, cut the way the buffered reader happens to deliver it. */
  class ByteReader {
    var chunks: seq<Bytes>

    ghost predicate Sound()
      reads this
    {
      forall i | 0 <= i < |chunks| :: chunks[i] != []
    }

    ghost function Unread(): Bytes
      reads this
    {
      Concat(chunks)
    }

    constructor (chunks: seq<Bytes>)
      requires forall i | 0 <= i < |chunks| :: chunks[i] != []
      ensures this.chunks == chunks && Sound()
    {
      this.chunks := chunks;
    }

    /** The bytes available now; empty exactly at the end of the input. */
    method FillBuf() returns (available: Bytes)
      requires Sound()
      ensures available == [] <==> chunks == []
      ensures chunks != [] ==> available == chunks[0]
      ensures available <= Unread() && (available == [] ==> Unread() == [])
    {
      available := if chunks == [] then [] else chunks[0];
    }

    method Consume(n: nat)
      requires Sound() && chunks != [] && n <= |chunks[0]|
      modifies this
      ensures Sound()
      ensures Unread() == old(Unread())[n..]
      ensures |chunks| <= |old(chunks)|
      ensures n == |old(chunks)[0]| ==> chunks == old(chunks)[1..]
    {
      var rest := chunks[1..];
      assert Concat(chunks) == chunks[0] + Concat(rest);
      if n == |chunks[0]| {
        chunks := rest;
      } else {
        chunks := [chunks[0][n..]] + rest;
        assert chunks[1..] == rest;
      }
    }
  }

  ghost function Concat(chunks: seq<Bytes>): Bytes
  {
    if chunks == [] then [] else chunks[0] + Concat(chunks[1..])
  }

  method Position(s: Bytes) returns (n: nat)
    ensures n == LineEnd(s)
  {
    n := 0;
    while n < |s| && s[n] != NEWLINE
      invariant 0 <= n <= |s| && LineEnd(s) == n + LineEnd(s[n..])
    {
      assert s[n..][1..] == s[n + 1..];
      n := n + 1;
    }
  }

  /** Skip the rest of an oversized line, its newline included. */
  method DiscardUntilNewline(reader: ByteReader)
    requires reader.Sound()
    modifies reader
    ensures reader.Sound() && reader.Unread() == AfterLine(old(reader.Unread()))
  {
    ghost var input := reader.Unread();
    while true
      invariant reader.Sound() && AfterLine(input) == AfterLine(reader.Unread())
      decreases |reader.chunks|
    {
      var available := reader.FillBuf();
      if available == [] {
        return;
      }
      ghost var unread := reader.Unread();
      var newline := Position(available);
      if newline < |available| {
        NewlineFound(available, unread);
        reader.Consume(newline + 1);
        return;
      }
      NewlineFurther(available, unread);
      AfterSkipping(unread, |available|);
      reader.Consume(|available|);
    }
  }

  lemma AfterSkipping(input: Bytes, n: nat)
    requires n <= |input| && LineEnd(input) == n + LineEnd(input[n..])
    ensures AfterLine(input) == AfterLine(input[n..])
  {
    var m := LineEnd(input[n..]);
    if n + m < |input| {
      assert input[n..][m + 1..] == input[n + m + 1..];
    }
  }

  /** The line read so far is the start of the input, and the line's end is still ahead. */
  ghost predicate Reading(input: Bytes, line: Bytes, unread: Bytes)
  {
    line <= input && unread == input[|line|..] && LineEnd(input) == |line| + LineEnd(unread)
  }

  lemma ReadOn(input: Bytes, line: Bytes, available: Bytes, unread: Bytes)
    requires Reading(input, line, unread) && available <= unread && LineEnd(available) == |available|
    ensures Reading(input, line + available, unread[|available|..])
  {
    NewlineFurther(available, unread);
    assert input[|line|..][|available|..] == input[|line| + |available|..];
  }

  lemma InputExhausted(input: Bytes, line: Bytes, limit: nat)
    requires Reading(input, line, []) && |line| <= limit
    ensures NextRead(input, limit) == (if line == [] then End else DecodeLine(line)) && AfterLine(input) == []
  {
    assert input == line && input[..|line|] == line;
  }

  lemma LineCut(input: Bytes, line: Bytes, available: Bytes, unread: Bytes)
    requires Reading(input, line, unread) && available <= unread && LineEnd(available) < |available|
    ensures input[..LineEnd(input)] == line + available[..LineEnd(available)]
    ensures AfterLine(input) == unread[LineEnd(available) + 1..]
  {
    NewlineFound(available, unread);
    SliceAt(input, line, available, unread, LineEnd(available));
  }

  lemma SliceAt(input: Bytes, line: Bytes, available: Bytes, unread: Bytes, n: nat)
    requires line <= input && unread == input[|line|..] && available <= unread && n < |available|
    ensures input[..|line| + n] == line + available[..n]
    ensures input[|line| + n + 1..] == unread[n + 1..]
  {
    assert available[..n] == unread[..n];
  }

  lemma LineComplete(input: Bytes, line: Bytes, available: Bytes, unread: Bytes, limit: nat)
    requires Reading(input, line, unread) && available <= unread && LineEnd(available) < |available|
    ensures NextRead(input, limit) == ToRead(line + available[..LineEnd(available)], limit)
    ensures AfterLine(input) == unread[LineEnd(available) + 1..]
  {
    LineCut(input, line, available, unread);
    assert input != [];
  }

  lemma AlreadyTooLong(input: Bytes, line: Bytes, unread: Bytes, limit: nat)
    requires Reading(input, line, unread) && |line| > limit
    ensures NextRead(input, limit) == Got(Oversized) && AfterLine(input) == AfterLine(unread)
  {
    AfterSkipping(input, |line|);
  }

  /** The line buffer grows only within the limit. */
  function Extended(line: Bytes, more: Bytes, limit: nat): Bytes
    requires |line| + |more| <= limit
  {
    line + more
  }

  /**
   * Read the next frame. The result depends only on the bytes, not on how they are cut into chunks,
   * and the reader is left just behind the line, oversized or not; the line buffer stays within the limit.
   */
  method ReadBoundedLine(reader: ByteReader, limit: nat) returns (r: Read)
    requires reader.Sound()
    modifies reader
    ensures reader.Sound()
    ensures r == NextRead(old(reader.Unread()), limit)
    ensures reader.Unread() == AfterLine(old(reader.Unread()))
  {
    ghost var input := reader.Unread();
    var line: Bytes := [];
    while true
      invariant reader.Sound()
      invariant |line| <= limit
      invariant Reading(input, line, reader.Unread())
      decreases |reader.chunks|
    {
      var available := reader.FillBuf();
      ghost var unread := reader.Unread();
      if available == [] {
        InputExhausted(input, line, limit);
        return if line == [] then End else DecodeLine(line);
      }
      var newline := Position(available);
      if newline < |available| {
        LineComplete(input, line, available, unread, limit);
        if |line| + newline > limit {
          reader.Consume(newline + 1);
          return Got(Oversized);
        }
        line := Extended(line, available[..newline], limit);
        reader.Consume(newline + 1);
        return DecodeLine(line);
      }
      ReadOn(input, line, available, unread);
      if |line| + |available| > limit {
        reader.Consume(|available|);
        AlreadyTooLong(input, line + available, reader.Unread(), limit);
        DiscardUntilNewline(reader);
        return Got(Oversized);
      }
      line := Extended(line, available, limit);
      reader.Consume(|available|);
    }
  }

  function Before(frames: seq<Frame>, rest: Frames): Frames { Frames(frames + rest.frames, rest.failed) }

  lemma BeforeBoth(a: seq<Frame>, f: Frame, rest: Frames)
    ensures Before(a, Before([f], rest)) == Before(a + [f], rest)
  {
    assert a + ([f] + rest.frames) == (a + [f]) + rest.frames;
  }

  function AllFrames(input: Bytes, limit: nat): Frames { FramesOf(Segments(input), limit) }

  lemma FramesStep(input: Bytes, limit: nat)
    ensures match NextRead(input, limit)
            case End => AllFrames(input, limit) == Frames([], false)
            case Invalid => AllFrames(input, limit) == Frames([], true)
            case Got(frame) => AllFrames(input, limit) == Before([frame], AllFrames(AfterLine(input), limit))
    ensures !NextRead(input, limit).End? ==> |AfterLine(input)| < |input|
  {
    if input != [] {
      assert Segments(input)[1..] == Segments(AfterLine(input));
    }
  }

  /** Reading to the end yields the lines of the whole input as frames, for every way of cutting it into chunks. */
  method ReadAll(reader: ByteReader, limit: nat) returns (result: Frames)
    requires reader.Sound()
    modifies reader
    ensures result == FramesOf(Segments(old(reader.Unread())), limit)
  {
    ghost var input := reader.Unread();
    var frames: seq<Frame> := [];
    while true
      invariant reader.Sound()
      invariant AllFrames(input, limit) == Before(frames, AllFrames(reader.Unread(), limit))
      decreases |reader.Unread()|
    {
      FramesStep(reader.Unread(), limit);
      var r := ReadBoundedLine(reader, limit);
      match r
      case End =>
        return Frames(frames, false);
      case Invalid =>
        return Frames(frames, true);
      case Got(frame) =>
        BeforeBoth(frames, frame, AllFrames(reader.Unread(), limit));
        frames := frames + [frame];
    }
  }
}
