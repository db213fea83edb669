/**
 The frame layer (internal/infra/ipc/codec.go): a nine-byte header, then a payload.

     bytes 0..4   length of the payload, big-endian
     byte  4      kind
     bytes 5..9   channel, big-endian
     bytes 9..    payload

 ReadFrame and WriteFrame are methods over a stream and a writer; Parse and Encode are what they
 compute, and the lemmas say that the two are inverses on whole streams and on cut ones.
 */
module Codec {
  import opened Bytes
  import opened ByteStreams

  const KIND_JSONRPC: Byte := 0x01
  const KIND_CHANNEL_DATA: Byte := 0x02
  const KIND_CREDIT: Byte := 0x03

  const HEADER_LEN := 9
  const MAX_FRAME_LENGTH := 0x10_0000
  const CREDIT_PAYLOAD_LEN := 8

  datatype Frame = Frame(kind: Byte, channelId: UInt32, payload: seq<Byte>)

  datatype Reason =
    | UnknownKind | OversizeLength | OversizePayload | BadCreditLength | CreditIdDisagrees | ZeroCredit

  datatype Error =
    | Stream(cause: StreamError)
    | Violation(reason: Reason, kind: Byte, length: UInt32)
    | WriteFailed

  datatype Result<+T> = Ok(value: T) | Err(error: Error)

  predicate ValidKind(kind: Byte) {
    kind == KIND_JSONRPC || kind == KIND_CHANNEL_DATA || kind == KIND_CREDIT
  }

  /** The frames the wire contract admits. */
  predicate Valid(f: Frame) {
    && ValidKind(f.kind)
    && |f.payload| <= MAX_FRAME_LENGTH
    && (f.kind == KIND_CREDIT ==> |f.payload| == CREDIT_PAYLOAD_LEN)
  }

  function Encode(f: Frame): (b: seq<Byte>)
    requires Valid(f)
    ensures |b| == HEADER_LEN + |f.payload|
  {
    BigEndian(|f.payload|) + [f.kind] + BigEndian(f.channelId) + f.payload
  }

  function EncodeAll(fs: seq<Frame>): (b: seq<Byte>)
    requires forall f :: f in fs ==> Valid(f)
  {
    if fs == [] then [] else Encode(fs[0]) + EncodeAll(fs[1..])
  }

  // --- parsing, on the bytes of a stream that ends with `end` ---------------

  datatype Parsed = Whole(frame: Frame, rest: seq<Byte>) | Stopped(error: Error)

  /** Why a header ends the connection, if it does; `length` has not been trusted yet. */
  function HeaderViolation(kind: Byte, length: UInt32): Option<Error> {
    if !ValidKind(kind) then Some(Violation(UnknownKind, kind, length))
    else if length > MAX_FRAME_LENGTH then Some(Violation(OversizeLength, kind, length))
    else if kind == KIND_CREDIT && length != CREDIT_PAYLOAD_LEN then Some(Violation(BadCreditLength, kind, length))
    else None
  }

  function Parse(b: seq<Byte>, end: StreamError): Parsed {
    if |b| < HEADER_LEN then Stopped(Stream(ShortRead(|b|, end)))
    else
      var length, kind, id := Word(b[..4]), b[4], Word(b[5..9]);
      var refused := HeaderViolation(kind, length);
      if refused.Some? then Stopped(refused.value)
      else if |b| - HEADER_LEN < length then Stopped(Stream(if end == EOF then UnexpectedEOF else end))
      else Whole(Frame(kind, id, b[HEADER_LEN..HEADER_LEN + length]), b[HEADER_LEN + length..])
  }

  /** What repeated parsing makes of a stream: the frames, why it stopped, and what it stopped at. */
  datatype Reading = Reading(frames: seq<Frame>, error: Error, left: seq<Byte>)

  function ParseAll(b: seq<Byte>, end: StreamError): Reading
    decreases |b|
  {
    match Parse(b, end)
    case Stopped(error) => Reading([], error, b)
    case Whole(frame, rest) =>
      var r := ParseAll(rest, end);
      r.(frames := [frame] + r.frames)
  }

  /** ReadFrame: one frame off the stream, with the two ReadFull calls and the checks between them. */
  method ReadFrame(src: Source) returns (r: Result<Frame>)
    modifies src
    ensures match Parse(old(src.Rest()), src.end)
            case Whole(frame, rest) => r == Ok(frame) && src.Rest() == rest
            case Stopped(error) => r == Err(error)
    ensures |src.Rest()| <= |old(src.Rest())|
    ensures r.Ok? ==> |src.Rest()| < |old(src.Rest())|
  {
    ghost var all := src.Rest();
    var header := new Byte[HEADER_LEN];
    var n, err := ReadFull(src, header);
    if err.Some? {
      return Err(Stream(err.value));
    }
    var bytes := header[..];
    assert bytes == all[..HEADER_LEN];
    var length, kind, channelId := Word(bytes[..4]), bytes[4], Word(bytes[5..9]);
    assert bytes[..4] == all[..4] && bytes[5..9] == all[5..9];
    if !ValidKind(kind) {
      return Err(Violation(UnknownKind, kind, length));
    }
    if length > MAX_FRAME_LENGTH {
      return Err(Violation(OversizeLength, kind, length));
    }
    if kind == KIND_CREDIT && length != CREDIT_PAYLOAD_LEN {
      return Err(Violation(BadCreditLength, kind, length));
    }
    var payload := new Byte[length];
    n, err := ReadFull(src, payload);
    if err.Some? {
      return Err(Stream(if err.value == EOF then UnexpectedEOF else err.value));
    }
    assert payload[..] == payload[..n] == all[HEADER_LEN..HEADER_LEN + length];
    return Ok(Frame(kind, channelId, payload[..]));
  }

  /** Why WriteFrame refuses a frame; the length it reports is the payload's, cut to 32 bits. */
  function Refusal(f: Frame): (refused: Option<Error>)
    ensures refused == None <==> Valid(f)
  {
    if !ValidKind(f.kind) then Some(Violation(UnknownKind, f.kind, 0))
    else if |f.payload| > MAX_FRAME_LENGTH then Some(Violation(OversizePayload, f.kind, |f.payload| % WORD_RANGE))
    else if f.kind == KIND_CREDIT && |f.payload| != CREDIT_PAYLOAD_LEN then
      Some(Violation(BadCreditLength, f.kind, |f.payload| % WORD_RANGE))
    else None
  }

  /** WriteFrame: the whole encoding in a single Write, or nothing at all. */
  method WriteFrame(w: Sink, f: Frame) returns (err: Option<Error>)
    modifies w
    ensures !Valid(f) ==> err == Refusal(f)
    ensures Valid(f) ==> err == if old(w.room) > 0 then None else Some(WriteFailed)
    ensures w.writes == if err == None then old(w.writes) + [Encode(f)] else old(w.writes)
  {
    if !ValidKind(f.kind) {
      return Some(Violation(UnknownKind, f.kind, 0));
    }
    if |f.payload| > MAX_FRAME_LENGTH {
      return Some(Violation(OversizePayload, f.kind, |f.payload| % WORD_RANGE));
    }
    if f.kind == KIND_CREDIT && |f.payload| != CREDIT_PAYLOAD_LEN {
      return Some(Violation(BadCreditLength, f.kind, |f.payload| % WORD_RANGE));
    }
    var buf := new Byte[HEADER_LEN + |f.payload|];
    PutWord(buf, 0, |f.payload|);
    assert buf[..4] == BigEndian(|f.payload|);
    buf[4] := f.kind;
    assert buf[..5] == BigEndian(|f.payload|) + [f.kind];
    PutWord(buf, 5, f.channelId);
    assert buf[..9] == BigEndian(|f.payload|) + [f.kind] + BigEndian(f.channelId);
    forall i | 0 <= i < |f.payload| {
      buf[HEADER_LEN + i] := f.payload[i];
    }
    assert buf[..9] == BigEndian(|f.payload|) + [f.kind] + BigEndian(f.channelId);
    assert buf[..] == buf[..9] + buf[9..] && buf[9..] == f.payload;
    var ok := w.Write(buf[..]);
    err := if ok then None else Some(WriteFailed);
  }

  /** What is wrong with a frame that is refused, in the order it is looked for. */
  lemma RefusalDecides(f: Frame)
    ensures var n := |f.payload| % 4294967296;
      Refusal(f) == (
        if !(1 <= f.kind <= 3) then Some(Violation(UnknownKind, f.kind, 0))
        else if |f.payload| > 1048576 then Some(Violation(OversizePayload, f.kind, n))
        else if f.kind == 3 && |f.payload| != 8 then Some(Violation(BadCreditLength, f.kind, n))
        else None)
  {
  }

  // --- parsing and printing are inverses ------------------------------------

  lemma ParseOfEncode(f: Frame, rest: seq<Byte>, end: StreamError)
    requires Valid(f)
    ensures Parse(Encode(f) + rest, end) == Whole(f, rest)
  {
    var b := Encode(f) + rest;
    assert b[..4] == BigEndian(|f.payload|) && b[5..9] == BigEndian(f.channelId);
    WordOfBigEndian(|f.payload|);
    WordOfBigEndian(f.channelId);
    assert b[HEADER_LEN..HEADER_LEN + |f.payload|] == f.payload;
    assert b[HEADER_LEN + |f.payload|..] == rest;
  }

  /** What the header's bytes are, most significant first. */
  lemma HeaderLayout(f: Frame)
    requires Valid(f)
    ensures var b := Encode(f);
      && PlaceValue(b[0], b[1], b[2], b[3]) == |f.payload|
      && b[4] == f.kind
      && PlaceValue(b[5], b[6], b[7], b[8]) == f.channelId
      && b[9..] == f.payload
  {
    WordOfBigEndian(|f.payload|);
    WordOfBigEndian(f.channelId);
    var b := Encode(f);
    assert b[0..4] == BigEndian(|f.payload|) && b[5..9] == BigEndian(f.channelId);
    assert forall i :: 0 <= i < 4 ==> b[i] == b[0..4][i] && b[5 + i] == b[5..9][i];
  }

  /** What is a frame, and what is wrong with what is not, in the order it is looked for. */
  lemma ParseDecides(b: seq<Byte>, end: StreamError)
    ensures |b| < 9 ==> Parse(b, end) == Stopped(Stream(
      if |b| > 0 && end == EOF then UnexpectedEOF else end))
    ensures |b| >= 9 ==>
      var length := PlaceValue(b[0], b[1], b[2], b[3]);
      var p := Parse(b, end);
      if !(1 <= b[4] <= 3) then p == Stopped(Violation(UnknownKind, b[4], length))
      else if length > 1048576 then p == Stopped(Violation(OversizeLength, b[4], length))
      else if b[4] == 3 && length != 8 then p == Stopped(Violation(BadCreditLength, 3, length))
      else if |b| < 9 + length then p == Stopped(Stream(if end == EOF then UnexpectedEOF else end))
      else p.Whole? && p.frame.payload == b[9..9 + length] && p.rest == b[9 + length..]
  {
    if |b| >= 9 {
      var length := b[..4];
      assert length[0] == b[0] && length[1] == b[1] && length[2] == b[2] && length[3] == b[3];
    }
  }

  /** Whatever the parser accepts is byte for byte what the printer emits for the result. */
  lemma EncodeOfParse(b: seq<Byte>, end: StreamError)
    requires Parse(b, end).Whole?
    ensures var p := Parse(b, end); Valid(p.frame) && b == Encode(p.frame) + p.rest
  {
    BigEndianOfWord(b[..4]);
    BigEndianOfWord(b[5..9]);
    var length := Word(b[..4]);
    assert b == b[..4] + [b[4]] + b[5..9] + b[9..9 + length] + b[9 + length..];
  }

  lemma ParseAllCons(f: Frame, rest: seq<Byte>, end: StreamError)
    requires Valid(f)
    ensures var r := ParseAll(rest, end); ParseAll(Encode(f) + rest, end) == r.(frames := [f] + r.frames)
  {
    ParseOfEncode(f, rest, end);
  }

  /** A stream of whole frames reads back as exactly those frames, and then stops the way it ends. */
  lemma {:induction false} ParseAllOfEncodeAll(fs: seq<Frame>, end: StreamError)
    requires forall f :: f in fs ==> Valid(f)
    ensures ParseAll(EncodeAll(fs), end) == Reading(fs, Stream(end), [])
  {
    if fs != [] {
      ParseAllCons(fs[0], EncodeAll(fs[1..]), end);
      ParseAllOfEncodeAll(fs[1..], end);
    }
  }

  /** A whole frame uses bytes up, and only an empty stream ends cleanly. */
  lemma ParseAdvances(b: seq<Byte>, end: StreamError)
    ensures Parse(b, end).Whole? ==> |Parse(b, end).rest| < |b|
    ensures Parse(b, end) == Stopped(Stream(EOF)) && end == EOF ==> b == []
  {
  }

  /** Any stream is the encoding of the frames read from it, then what the parser stopped at. */
  lemma {:induction false} EncodeAllOfParseAll(b: seq<Byte>, end: StreamError)
    ensures var r := ParseAll(b, end);
            && (forall f :: f in r.frames ==> Valid(f))
            && b == EncodeAll(r.frames) + r.left
            && Parse(r.left, end) == Stopped(r.error)
            && (r.error == Stream(EOF) && end == EOF ==> r.left == [])
    decreases |b|
  {
    hide Encode, Parse;
    ParseAdvances(b, end);
    var p := Parse(b, end);
    if p.Whole? {
      EncodeOfParse(b, end);
      EncodeAllOfParseAll(p.rest, end);
      var r := ParseAll(p.rest, end);
      assert ([p.frame] + r.frames)[1..] == r.frames;
    } else {
      assert b == EncodeAll([]) + b;
    }
  }

  /** A frame cut anywhere inside is truncation, never a clean end and never a frame. */
  lemma CutFrame(f: Frame, k: nat, end: StreamError)
    requires Valid(f) && 0 < k < |Encode(f)|
    ensures Parse(Encode(f)[..k], end) == Stopped(Stream(if end == EOF then UnexpectedEOF else end))
  {
    var b := Encode(f)[..k];
    if k >= HEADER_LEN {
      assert b[..4] == BigEndian(|f.payload|);
      WordOfBigEndian(|f.payload|);
      assert HeaderViolation(b[4], Word(b[..4])) == None;
    }
  }

  lemma {:induction false} EncodeAllSnoc(fs: seq<Frame>, f: Frame)
    requires Valid(f) && forall g :: g in fs ==> Valid(g)
    ensures EncodeAll(fs + [f]) == EncodeAll(fs) + Encode(f)
  {
    hide Encode;
    if fs == [] {
      assert [] + [f] == [f] && [f][1..] == [];
    } else {
      assert (fs + [f])[1..] == fs[1..] + [f];
      EncodeAllSnoc(fs[1..], f);
    }
  }

  /** Whole frames and then a torn one: the frames, and truncation. */
  lemma {:induction false} ParseAllThenCut(fs: seq<Frame>, f: Frame, k: nat)
    requires Valid(f) && forall g :: g in fs ==> Valid(g)
    requires 0 < k < |Encode(f)|
    ensures ParseAll(EncodeAll(fs) + Encode(f)[..k], EOF) == Reading(fs, Stream(UnexpectedEOF), Encode(f)[..k])
  {
    if fs == [] {
      assert EncodeAll(fs) + Encode(f)[..k] == Encode(f)[..k];
      CutFrame(f, k, EOF);
    } else {
      ParseAllThenCut(fs[1..], f, k);
      ParseAllCons(fs[0], EncodeAll(fs[1..]) + Encode(f)[..k], EOF);
      JoinAssociates(Encode(fs[0]), EncodeAll(fs[1..]), Encode(f)[..k]);
    }
  }

  lemma JoinAssociates(a: seq<Byte>, b: seq<Byte>, c: seq<Byte>)
    ensures (a + b) + c == a + (b + c)
  {
  }

  lemma CutInside(a: seq<Byte>, b: seq<Byte>, k: nat)
    requires k <= |a + b|
    ensures (a + b)[..k] == if k < |a| then a[..k] else a + b[..k - |a|]
  {
  }

  /** A stream cut before its first frame is whole. */
  lemma StopsInside(fs: seq<Frame>, k: nat)
    requires forall f :: f in fs ==> Valid(f)
    requires k <= |EncodeAll(fs)| && (fs != [] ==> k < |Encode(fs[0])|)
    ensures ParseAll(EncodeAll(fs)[..k], EOF).frames == []
    ensures ParseAll(EncodeAll(fs)[..k], EOF).error == Stream(if k == 0 then EOF else UnexpectedEOF)
  {
    hide Encode;
    if fs != [] {
      CutInside(Encode(fs[0]), EncodeAll(fs[1..]), k);
      if k > 0 {
        CutFrame(fs[0], k, EOF);
      }
    }
  }

  /** A cut at byte k falls after exactly `whole` whole frames, and the parser sees just that. */
  ghost predicate CutsAfter(fs: seq<Frame>, k: nat, whole: nat)
    requires forall f :: f in fs ==> Valid(f)
  {
    && k <= |EncodeAll(fs)|
    && whole <= |fs| && |EncodeAll(fs[..whole])| <= k
    && (whole < |fs| ==> k < |EncodeAll(fs[..whole + 1])|)
    && ParseAll(EncodeAll(fs)[..k], EOF).frames == fs[..whole]
    && ParseAll(EncodeAll(fs)[..k], EOF).error == Stream(if k == |EncodeAll(fs[..whole])| then EOF else UnexpectedEOF)
  }

  lemma EncodeAllCons(f: Frame, fs: seq<Frame>)
    requires Valid(f) && forall g :: g in fs ==> Valid(g)
    ensures EncodeAll([f] + fs) == Encode(f) + EncodeAll(fs)
  {
    hide Encode, Valid;
    assert ([f] + fs)[1..] == fs;
  }

  lemma EncodeAllFront(fs: seq<Frame>, w: nat)
    requires w < |fs| && forall f :: f in fs ==> Valid(f)
    ensures fs[..w + 1] == [fs[0]] + fs[1..][..w]
    ensures EncodeAll(fs[..w + 1]) == Encode(fs[0]) + EncodeAll(fs[1..][..w])
    ensures EncodeAll(fs) == Encode(fs[0]) + EncodeAll(fs[1..])
  {
    hide Encode, EncodeAll, Valid;
    assert fs[..w + 1] == [fs[0]] + fs[1..][..w] && fs == [fs[0]] + fs[1..];
    EncodeAllCons(fs[0], fs[1..][..w]);
    EncodeAllCons(fs[0], fs[1..]);
  }

  lemma CutPastFirst(fs: seq<Frame>, k: nat, w: nat)
    requires forall f :: f in fs ==> Valid(f)
    requires fs != [] && |Encode(fs[0])| <= k <= |EncodeAll(fs)|
    requires CutsAfter(fs[1..], k - |Encode(fs[0])|, w)
    ensures CutsAfter(fs, k, w + 1)
  {
    hide Encode, EncodeAll, Parse, ParseAll, Valid;
    EncodeAllFront(fs, w);
    if w + 1 < |fs| {
      EncodeAllFront(fs, w + 1);
    }
    var first, later := Encode(fs[0]), EncodeAll(fs[1..]);
    CutInside(first, later, k);
    ParseAllCons(fs[0], later[..k - |first|], EOF);
  }

  /**
   Every truncation of every stream of frames: the parser yields exactly the frames that are whole,
   then EOF when the cut fell on a boundary and UnexpectedEOF when it did not.
   */
  lemma {:induction false} Truncation(fs: seq<Frame>, k: nat) returns (whole: nat)
    requires forall f :: f in fs ==> Valid(f)
    requires k <= |EncodeAll(fs)|
    ensures CutsAfter(fs, k, whole)
  {
    hide Encode, Parse;
    whole := 0;
    if fs == [] {
      StopsInside(fs, k);
    } else if k < |Encode(fs[0])| {
      assert fs[..1][1..] == [];
      StopsInside(fs, k);
    } else {
      hide CutsAfter;
      var w := Truncation(fs[1..], k - |Encode(fs[0])|);
      CutPastFirst(fs, k, w);
      whole := w + 1;
    }
  }

  // --- credit payloads --------------------------------------------------------

  function CreditPayload(channelId: UInt32, credit: UInt32): (p: seq<Byte>)
    ensures |p| == CREDIT_PAYLOAD_LEN
  {
    BigEndian(channelId) + BigEndian(credit)
  }

  method EncodeCredit(channelId: UInt32, credit: UInt32) returns (payload: array<Byte>)
    ensures fresh(payload) && payload[..] == CreditPayload(channelId, credit)
  {
    payload := new Byte[CREDIT_PAYLOAD_LEN];
    PutWord(payload, 0, channelId);
    assert payload[..4] == BigEndian(channelId);
    PutWord(payload, 4, credit);
    assert payload[..] == payload[..4] + payload[4..];
  }

  function DecodeCredit(headerChannelId: UInt32, payload: seq<Byte>): Result<UInt32> {
    if |payload| != CREDIT_PAYLOAD_LEN then Err(Violation(BadCreditLength, KIND_CREDIT, |payload| % WORD_RANGE))
    else if Word(payload[..4]) != headerChannelId then Err(Violation(CreditIdDisagrees, KIND_CREDIT, 0))
    else if Word(payload[4..]) == 0 then Err(Violation(ZeroCredit, KIND_CREDIT, 0))
    else Ok(Word(payload[4..]))
  }

  /** A payload is a grant of n on a channel exactly when EncodeCredit builds it from them and n is not zero. */
  lemma DecodeCreditExact(channelId: UInt32, payload: seq<Byte>, n: UInt32)
    ensures DecodeCredit(channelId, payload) == Ok(n) <==> n != 0 && payload == CreditPayload(channelId, n)
  {
    WordOfBigEndian(channelId);
    WordOfBigEndian(n);
    var p := CreditPayload(channelId, n);
    assert p[..4] == BigEndian(channelId) && p[4..] == BigEndian(n);
    if |payload| == CREDIT_PAYLOAD_LEN {
      BigEndianOfWord(payload[..4]);
      BigEndianOfWord(payload[4..]);
      assert payload == payload[..4] + payload[4..];
    }
  }

  /** What is wrong with a credit payload, in the order it is looked for, and what it grants if nothing is. */
  lemma DecodeDecides(headerChannelId: UInt32, p: seq<Byte>)
    ensures |p| != 8 ==> DecodeCredit(headerChannelId, p) == Err(Violation(BadCreditLength, 3, |p| % 4294967296))
    ensures |p| == 8 ==>
      var id, credit := PlaceValue(p[0], p[1], p[2], p[3]), PlaceValue(p[4], p[5], p[6], p[7]);
      var r := DecodeCredit(headerChannelId, p);
      if id != headerChannelId then r == Err(Violation(CreditIdDisagrees, 3, 0))
      else if credit == 0 then r == Err(Violation(ZeroCredit, 3, 0))
      else r.Ok? && r.value == credit
  {
    if |p| == 8 {
      var a, b := p[..4], p[4..8];
      assert a[0] == p[0] && a[1] == p[1] && a[2] == p[2] && a[3] == p[3];
      assert b[0] == p[4] && b[1] == p[5] && b[2] == p[6] && b[3] == p[7];
    }
  }
}
