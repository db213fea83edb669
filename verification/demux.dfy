/**
 Docker's multiplexed log stream (internal/infra/dockerapi/stream.go): an eight-byte header saying
 which output a chunk belongs to and how long it is, then the chunk.

     [1 byte: stream][3 bytes, ignored][4 bytes: length][data]
 */
module Demultiplexer {
  import opened Bytes
  import opened ByteStreams

  const STREAM_STDERR: Byte := 2
  const DEMUX_HEADER_LEN := 8
  const MAX_DEMUX_FRAME := 0x100_0000

  datatype DemuxFrame = DemuxFrame(stream: Byte, data: seq<Byte>)

  datatype Error = Stream(cause: StreamError) | UnknownStream(stream: Byte) | FrameTooLong(length: UInt32)

  datatype Result<+T> = Ok(value: T) | Err(error: Error)

  predicate Valid(f: DemuxFrame) {
    f.stream <= STREAM_STDERR && |f.data| <= MAX_DEMUX_FRAME
  }

  /** A chunk as a daemon may write it: nothing constrains the three padding bytes. */
  function Encode(f: DemuxFrame, padding: seq<Byte>): (b: seq<Byte>)
    requires Valid(f) && |padding| == 3
    ensures |b| == DEMUX_HEADER_LEN + |f.data|
  {
    [f.stream] + padding + BigEndian(|f.data|) + f.data
  }

  datatype Parsed = Whole(frame: DemuxFrame, rest: seq<Byte>) | Stopped(error: Error)

  function Parse(b: seq<Byte>, end: StreamError): Parsed {
    if |b| < DEMUX_HEADER_LEN then Stopped(Stream(ShortRead(|b|, end)))
    else if b[0] > STREAM_STDERR then Stopped(UnknownStream(b[0]))
    else
      var length := Word(b[4..8]);
      if length > MAX_DEMUX_FRAME then Stopped(FrameTooLong(length))
      else if |b| - DEMUX_HEADER_LEN < length then Stopped(Stream(if end == EOF then UnexpectedEOF else end))
      else Whole(DemuxFrame(b[0], b[8..8 + length]), b[8 + length..])
  }

  datatype Reading = Reading(frames: seq<DemuxFrame>, error: Error, left: seq<Byte>)

  function ParseAll(b: seq<Byte>, end: StreamError): Reading
    decreases |b|
  {
    match Parse(b, end)
    case Stopped(error) => Reading([], error, b)
    case Whole(frame, rest) =>
      var r := ParseAll(rest, end);
      r.(frames := [frame] + r.frames)
  }

  /** Demux: one frame off the stream. */
  method Demux(src: Source) returns (r: Result<DemuxFrame>)
    modifies src
    ensures match Parse(old(src.Rest()), src.end)
            case Whole(frame, rest) => r == Ok(frame) && src.Rest() == rest
            case Stopped(error) => r == Err(error)
    ensures r.Ok? ==> |src.Rest()| < |old(src.Rest())|
  {
    ghost var all := src.Rest();
    var header := new Byte[DEMUX_HEADER_LEN];
    var n, err := ReadFull(src, header);
    if err.Some? {
      return Err(Stream(err.value));
    }
    var bytes := header[..];
    assert bytes == all[..DEMUX_HEADER_LEN];
    var stream := bytes[0];
    if stream > STREAM_STDERR {
      return Err(UnknownStream(stream));
    }
    var length := Word(bytes[4..8]);
    assert bytes[4..8] == all[4..8];
    if length > MAX_DEMUX_FRAME {
      return Err(FrameTooLong(length));
    }
    var data := new Byte[length];
    n, err := ReadFull(src, data);
    if err.Some? {
      return Err(Stream(if err.value == EOF then UnexpectedEOF else err.value));
    }
    assert data[..] == data[..n] == all[DEMUX_HEADER_LEN..DEMUX_HEADER_LEN + length];
    return Ok(DemuxFrame(stream, data[..]));
  }

  /** What is a chunk, and what is wrong with what is not, in the order it is looked for. */
  lemma ParseDecides(b: seq<Byte>, end: StreamError)
    ensures |b| < 8 ==> Parse(b, end) == Stopped(Stream(
      if |b| > 0 && end == EOF then UnexpectedEOF else end))
    ensures |b| >= 8 ==>
      var length := PlaceValue(b[4], b[5], b[6], b[7]);
      var p := Parse(b, end);
      if b[0] > 2 then p == Stopped(UnknownStream(b[0]))
      else if length > 16777216 then p == Stopped(FrameTooLong(length))
      else if |b| < 8 + length then p == Stopped(Stream(if end == EOF then UnexpectedEOF else end))
      else p == Whole(DemuxFrame(b[0], b[8..8 + length]), b[8 + length..])
  {
    if |b| >= 8 {
      var length := b[4..8];
      assert length[0] == b[4] && length[1] == b[5] && length[2] == b[6] && length[3] == b[7];
    }
  }

  lemma JoinFrames(fs: seq<DemuxFrame>, f: DemuxFrame, gs: seq<DemuxFrame>)
    ensures fs + ([f] + gs) == (fs + [f]) + gs
  {
  }

  /** The log pump's loop: Demux until it fails. The frames depend on the bytes and not on their cuts. */
  method DemuxUntilError(src: Source) returns (frames: seq<DemuxFrame>, error: Error)
    modifies src
    ensures var r := ParseAll(old(src.Rest()), src.end); frames == r.frames && error == r.error
  {
    hide Parse, Flatten;
    frames := [];
    ghost var all := ParseAll(src.Rest(), src.end);
    while true
      invariant var r := ParseAll(src.Rest(), src.end); all == r.(frames := frames + r.frames)
      decreases |src.Rest()|
    {
      var r := Demux(src);
      if r.Err? {
        return frames, r.error;
      }
      JoinFrames(frames, r.value, ParseAll(src.Rest(), src.end).frames);
      frames := frames + [r.value];
    }
  }

  lemma ParseOfEncode(f: DemuxFrame, padding: seq<Byte>, rest: seq<Byte>, end: StreamError)
    requires Valid(f) && |padding| == 3
    ensures Parse(Encode(f, padding) + rest, end) == Whole(f, rest)
  {
    var b := Encode(f, padding) + rest;
    assert b[4..8] == BigEndian(|f.data|);
    WordOfBigEndian(|f.data|);
    assert b[8..8 + |f.data|] == f.data && b[8 + |f.data|..] == rest;
  }

  /** What the parser accepts is an encoding of the result, whatever stood in the padding. */
  lemma EncodeOfParse(b: seq<Byte>, end: StreamError)
    requires Parse(b, end).Whole?
    ensures var p := Parse(b, end); Valid(p.frame) && b == Encode(p.frame, b[1..4]) + p.rest
  {
    BigEndianOfWord(b[4..8]);
    var length := Word(b[4..8]);
    assert b == [b[0]] + b[1..4] + b[4..8] + b[8..8 + length] + b[8 + length..];
  }

  /** A list of chunks as they stand on the wire, each with its own padding. */
  function EncodeAll(fs: seq<DemuxFrame>, paddings: seq<seq<Byte>>): seq<Byte>
    requires |fs| == |paddings|
    requires forall f :: f in fs ==> Valid(f)
    requires forall p :: p in paddings ==> |p| == 3
  {
    if fs == [] then [] else Encode(fs[0], paddings[0]) + EncodeAll(fs[1..], paddings[1..])
  }

  lemma ParseAllCons(f: DemuxFrame, padding: seq<Byte>, rest: seq<Byte>, end: StreamError)
    requires Valid(f) && |padding| == 3
    ensures var r := ParseAll(rest, end); ParseAll(Encode(f, padding) + rest, end) == r.(frames := [f] + r.frames)
  {
    ParseOfEncode(f, padding, rest, end);
  }

  /** The parser recovers exactly the chunks written; the stream then stops the way it ends. */
  lemma {:induction false} ParseAllOfEncodeAll(fs: seq<DemuxFrame>, paddings: seq<seq<Byte>>, end: StreamError)
    requires |fs| == |paddings|
    requires forall f :: f in fs ==> Valid(f)
    requires forall p :: p in paddings ==> |p| == 3
    ensures ParseAll(EncodeAll(fs, paddings), end) == Reading(fs, Stream(end), [])
  {
    if fs != [] {
      ParseAllCons(fs[0], paddings[0], EncodeAll(fs[1..], paddings[1..]), end);
      ParseAllOfEncodeAll(fs[1..], paddings[1..], end);
    }
  }
}
