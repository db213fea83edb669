/**
 The hand-over after a 101 (internal/infra/dockerapi/hijack.go and StartExec in stream.go): the
 response head is read through a buffered reader, which reads ahead, and from then on the
 connection is the process's raw stream (RFC 9110, section 15.2.2). None of its bytes may be lost
 with the reader's buffer, or read twice.
 */
module Hijack {
  import opened Bytes
  import opened ByteStreams

  const CR: Byte := 13
  const LF: Byte := 10

  /** How many Reads without a byte in a row the buffered reader puts up with. */
  const MAX_EMPTY_READS := 100

  ghost predicate StartsEmpty(chunks: seq<seq<Byte>>) {
    |chunks| >= MAX_EMPTY_READS && forall j :: 0 <= j < MAX_EMPTY_READS ==> chunks[j] == []
  }

  /** Where the next o bytes of the chunks end, that many empty ones in a row follow. */
  ghost predicate StallAt(chunks: seq<seq<Byte>>, o: int) {
    && |chunks| >= MAX_EMPTY_READS
    && ((o == 0 && StartsEmpty(chunks)) || StallAt(chunks[1..], o - |chunks[0]|))
  }

  /** The buffered reader gives up o bytes on from here, having read this much ahead already. */
  ghost predicate StallsAfter(inHand: nat, chunks: seq<seq<Byte>>, o: int) {
    StallAt(chunks, o - inHand)
  }

  /** It gets through the next n bytes. */
  ghost predicate Patient(inHand: nat, chunks: seq<seq<Byte>>, n: nat) {
    forall o: int :: o < n ==> !StallsAfter(inHand, chunks, o)
  }

  lemma {:induction false} NoStallBehind(chunks: seq<seq<Byte>>, o: int)
    requires o < 0
    ensures !StallAt(chunks, o)
    decreases |chunks|
  {
    if |chunks| >= MAX_EMPTY_READS {
      NoStallBehind(chunks[1..], o - |chunks[0]|);
    }
  }

  /** A Read that takes bytes moves every stall that much nearer. */
  lemma StallNearer(chunks: seq<seq<Byte>>, n: nat, o: int)
    requires chunks != [] && 0 < n <= |chunks[0]|
    ensures StallAt(chunks, o) <==> StallAt(Consumed(chunks, n), o - n)
  {
    assert !StartsEmpty(chunks);
    var later := Consumed(chunks, n);
    if n < |chunks[0]| {
      assert later[1..] == chunks[1..] && later[0] != [] && |later| == |chunks|;
    } else {
      assert later == chunks[1..];
      if |chunks| == MAX_EMPTY_READS {
        assert !StallAt(later, o - n);
      }
    }
  }

  lemma EmptyInFront(chunks: seq<seq<Byte>>)
    requires chunks != [] && chunks[0] == []
    ensures StartsEmpty(chunks[1..]) ==> StartsEmpty(chunks)
  {
    if StartsEmpty(chunks[1..]) {
      assert forall j :: 0 < j < MAX_EMPTY_READS ==> chunks[j] == chunks[1..][j - 1];
    }
  }

  /** Empty pieces move none, as long as they are too few to be one. */
  lemma {:induction false} StallUnmoved(chunks: seq<seq<Byte>>, k: nat, o: int)
    requires k <= |chunks| && (forall j :: 0 <= j < k ==> chunks[j] == []) && !StartsEmpty(chunks)
    ensures StallAt(chunks, o) <==> StallAt(chunks[k..], o)
  {
    if k == 0 {
      assert chunks[0..] == chunks;
    } else {
      var later := chunks[1..];
      assert later[k - 1..] == chunks[k..];
      EmptyInFront(chunks);
      StallUnmoved(later, k - 1, o);
      assert |chunks| < MAX_EMPTY_READS ==> !StallAt(later, o);
      assert |chunks| >= MAX_EMPTY_READS ==> (StallAt(chunks, o) <==> StallAt(later, o));
    }
  }

  /** Why the buffered reader has no more to give: its connection's end, or its own patience. */
  datatype ReadError = Ended(cause: StreamError) | NoProgress

  datatype NextByte = Got(value: Byte) | Stopped(error: ReadError)

  /** bufio.Reader: what it has read ahead and not handed out, and the connection under it. */
  class BufferedReader {
    const conn: Source
    const size: nat
    var buffered: seq<Byte>

    constructor (conn: Source, size: nat)
      requires size > 0
      ensures this.conn == conn && this.size == size && buffered == []
    {
      this.conn, this.size, buffered := conn, size, [];
    }

    /** All the bytes still to come. */
    ghost function Rest(): seq<Byte>
      reads this, conn
    {
      buffered + conn.Rest()
    }

    /** The read-ahead: Reads of the connection into the empty buffer, until one brings something. */
    method Fill() returns (err: Option<ReadError>)
      requires buffered == [] && size > 0
      modifies this`buffered, conn
      ensures Rest() == old(Rest()) && (err == None <==> buffered != [])
      ensures err.Some? && err.value.Ended? ==> err.value.cause == conn.end && Rest() == []
      ensures err == Some(NoProgress) <==> StartsEmpty(old(conn.chunks))
      ensures err == None ==>
        forall o: int :: StallAt(old(conn.chunks), o) <==> StallsAfter(|buffered|, conn.chunks, o)
    {
      hide StallAt, Flatten;
      ghost var all, bytes := conn.chunks, conn.Rest();
      assert all == all[0..] && Rest() == bytes;
      for i := 0 to MAX_EMPTY_READS
        invariant buffered == [] && conn.Rest() == bytes
        invariant i <= |all| && conn.chunks == all[i..] && forall j :: 0 <= j < i ==> all[j] == []
      {
        var n;
        n, err := Refill();
        if err.Some? {
          return;
        }
        if n > 0 {
          assert all[i] != [];
          forall o: int ensures StallAt(all, o) <==> StallsAfter(n, conn.chunks, o) {
            StallUnmoved(all, i, o);
            StallNearer(all[i..], n, o);
          }
          return;
        }
        assert all[i] == [];
      }
      return Some(NoProgress);
    }

    /** One of those Reads. */
    method Refill() returns (n: nat, err: Option<ReadError>)
      requires buffered == [] && size > 0
      modifies this`buffered, conn
      ensures n == |buffered| && Rest() == old(Rest()) == old(conn.Rest())
      ensures err.Some? <==> old(conn.chunks) == []
      ensures err.Some? ==> err == Some(Ended(conn.end)) && buffered == [] && conn.chunks == [] && Rest() == []
      ensures err == None ==> n <= |old(conn.chunks[0])| && conn.chunks == Consumed(old(conn.chunks), n)
      ensures err == None && n == 0 ==> old(conn.chunks[0]) == []
    {
      var buf := new Byte[size];
      var e;
      n, e := conn.Read(buf, 0);
      buffered := buf[..n];
      assert buffered == buf[..][..n] == old(conn.Rest())[..n];
      assert old(conn.Rest())[..n] + old(conn.Rest())[n..] == old(conn.Rest());
      return n, if e.Some? then Some(Ended(e.value)) else None;
    }

    /** The next byte, read ahead of if need be. */
    method ReadByte() returns (r: NextByte)
      requires size > 0
      modifies this`buffered, conn
      ensures r.Stopped? && r.error.Ended? ==> old(Rest()) == [] && Rest() == []
      ensures r.Got? ==> old(Rest()) == [r.value] + Rest()
      ensures r == Stopped(NoProgress) ==> Rest() == old(Rest()) && StallsAfter(|old(buffered)|, old(conn.chunks), 0)
      ensures r.Got? ==> !StallsAfter(|old(buffered)|, old(conn.chunks), 0)
      ensures r.Got? ==> forall o: int ::
        StallsAfter(|old(buffered)|, old(conn.chunks), o) <==> StallsAfter(|buffered|, conn.chunks, o - 1)
    {
      if buffered == [] {
        var err := Fill();
        if err.Some? {
          return Stopped(err.value);
        }
      }
      NoStallBehind(conn.chunks, -|buffered|);
      r := Got(buffered[0]);
      buffered := buffered[1..];
    }

    /** Read: what is buffered, or else one Read of the connection. It may bring nothing, and that is no error. */
    method ReadSome(most: nat) returns (n: nat, ended: bool)
      requires size > 0 && most > 0
      modifies this`buffered, conn
      ensures n <= most && n <= |old(Rest())| && Rest() == old(Rest())[n..]
      ensures ended ==> old(Rest()) == []
      ensures !ended && n == 0 ==> |conn.chunks| < |old(conn.chunks)|
    {
      if buffered == [] {
        var err;
        n, err := Refill();
        if err.Some? {
          return 0, true;
        }
      }
      n := Min(most, |buffered|);
      assert Rest() == old(Rest());
      buffered := buffered[n..];
      return n, false;
    }

    /** Read while something is buffered: only that is handed out, however large the buffer p. */
    method ReadBuffered(p: array<Byte>) returns (n: nat)
      requires buffered != []
      modifies this`buffered, p
      ensures n == Min(p.Length, |old(buffered)|) && buffered == old(buffered)[n..]
      ensures p[..] == old(buffered)[..n] + old(p[n..])
    {
      n := Min(p.Length, |buffered|);
      forall i | 0 <= i < n {
        p[i] := buffered[i];
      }
      buffered := buffered[n..];
    }
  }

  // --- the head ------------------------------------------------------------------------

  /** A message head ends with an empty line; a line feed ends a line, with or without a return before it. */
  predicate EndsHead(b: seq<Byte>) {
    && |b| >= 2 && b[|b| - 1] == LF
    && (b[|b| - 2] == LF || (|b| >= 3 && b[|b| - 2] == CR && b[|b| - 3] == LF))
  }

  /** The head is the shortest front of the stream that ends with an empty line. */
  ghost predicate IsHead(head: seq<Byte>, stream: seq<Byte>) {
    && head <= stream && EndsHead(head)
    && forall k :: 0 <= k < |head| ==> !EndsHead(head[..k])
  }

  lemma FrontOfFront(a: seq<Byte>, b: seq<Byte>, stream: seq<Byte>)
    requires a <= stream && b <= stream && |a| <= |b|
    ensures b[..|a|] == a
  {
  }

  lemma HeadUnique(a: seq<Byte>, b: seq<Byte>, stream: seq<Byte>)
    requires IsHead(a, stream) && IsHead(b, stream)
    ensures a == b
  {
    if |a| <= |b| { FrontOfFront(a, b, stream); } else { FrontOfFront(b, a, stream); }
  }

  // --- what a head looks like ---------------------------------------------------------------

  /** A line of a head: something, with no line end in it. */
  predicate IsLine(line: seq<Byte>) {
    line != [] && CR !in line && LF !in line
  }

  /** How a line ends: with a return and a line feed, or with a bare line feed. */
  predicate IsLineEnd(eol: seq<Byte>) {
    eol == [CR, LF] || eol == [LF]
  }

  /** The lines, each with its end, and the empty line after them. */
  function Text(lines: seq<seq<Byte>>, eol: seq<Byte>): seq<Byte> {
    if lines == [] then eol else lines[0] + eol + Text(lines[1..], eol)
  }

  lemma InLine(front: seq<Byte>, line: seq<Byte>, eol: seq<Byte>, k: nat)
    requires IsLine(line) && IsLineEnd(eol) && 0 < k <= |line + eol|
    ensures !EndsHead(front + (line + eol)[..k])
  {
    var b := front + (line + eol)[..k];
    assert b[|b| - 1] == (line + eol)[k - 1];
    if k > 1 {
      assert b[|b| - 2] == (line + eol)[k - 2];
    }
    if k > 2 {
      assert b[|b| - 3] == (line + eol)[k - 3];
    }
    assert forall i :: 0 <= i < |line| ==> line[i] in line;
  }

  lemma {:induction false} NoEarlyEnd(front: seq<Byte>, lines: seq<seq<Byte>>, eol: seq<Byte>, k: nat)
    requires (forall line :: line in lines ==> IsLine(line)) && IsLineEnd(eol)
    requires 0 < k < |Text(lines, eol)|
    ensures !EndsHead(front + Text(lines, eol)[..k])
    decreases |lines|
  {
    if lines != [] {
      var line := lines[0] + eol;
      var later := Text(lines[1..], eol);
      if k <= |line| {
        assert Text(lines, eol)[..k] == line[..k];
        InLine(front, lines[0], eol, k);
      } else {
        NoEarlyEnd(front + line, lines[1..], eol, k - |line|);
        assert front + Text(lines, eol)[..k] == (front + line) + later[..k - |line|];
      }
    }
  }

  lemma {:induction false} TextEnds(front: seq<Byte>, lines: seq<seq<Byte>>, eol: seq<Byte>)
    requires IsLineEnd(eol) && (lines == [] ==> front != [] && front[|front| - 1] == LF)
    ensures EndsHead(front + Text(lines, eol))
    decreases |lines|
  {
    if lines != [] {
      TextEnds(front + (lines[0] + eol), lines[1..], eol);
      assert front + Text(lines, eol) == (front + (lines[0] + eol)) + Text(lines[1..], eol);
    }
  }

  /**
   The text of a status line and headers is the head of any stream it starts, whatever follows it, with
   either kind of line end.
   */
  lemma HeadsAreText(lines: seq<seq<Byte>>, eol: seq<Byte>, rest: seq<Byte>)
    requires lines != [] && (forall line :: line in lines ==> IsLine(line)) && IsLineEnd(eol)
    ensures IsHead(Text(lines, eol), Text(lines, eol) + rest)
  {
    var text := Text(lines, eol);
    assert text != [] && !EndsHead(text[..0]);
    hide Text, EndsHead;
    TextEnds([], lines, eol);
    assert [] + text == text;
    forall k | 0 <= k < |text| ensures !EndsHead(text[..k]) {
      if k > 0 {
        NoEarlyEnd([], lines, eol, k);
        assert [] + text[..k] == text[..k];
      }
    }
  }

  /**
   readHijackResponse up to the end of the headers, leaving everything after them in the reader. A
   stream that has a head gives it up exactly when the reader's patience lasts to the head's last byte.
   */
  method ReadHead(r: BufferedReader) returns (head: Option<seq<Byte>>)
    requires r.size > 0
    modifies r`buffered, r.conn
    ensures head.Some? ==> IsHead(head.value, old(r.Rest())) && r.Rest() == old(r.Rest())[|head.value|..]
    ensures forall h :: IsHead(h, old(r.Rest())) ==>
      (head.Some? <==> Patient(|old(r.buffered)|, old(r.conn.chunks), |h|))
  {
    hide EndsHead, StallsAfter;
    ghost var all, inHand, chunks := r.Rest(), |r.buffered|, r.conn.chunks;
    var read: seq<Byte> := [];
    NeverBehind(inHand, chunks);
    while !EndsHead(read)
      invariant read <= all && r.Rest() == all[|read|..]
      invariant forall k :: 0 <= k < |read| ==> !EndsHead(read[..k])
      invariant forall o: int :: StallsAfter(inHand, chunks, o) <==> StallsAfter(|r.buffered|, r.conn.chunks, o - |read|)
      invariant Patient(inHand, chunks, |read|)
      decreases |r.Rest()|
    {
      var b := r.ReadByte();
      if b.Stopped? {
        NotInFront(read, all);
        assert b.error.NoProgress? ==> StallsAfter(inHand, chunks, |read|);
        return None;
      }
      ghost var before := read;
      read := read + [b.value];
      forall k | 0 <= k < |read| ensures !EndsHead(read[..k]) {
        assert read[..k] == before[..k];
        assert before[..|before|] == before;
      }
      OneMore(inHand, chunks, |before|);
    }
    forall h | IsHead(h, all) ensures h == read {
      HeadUnique(read, h, all);
    }
    return Some(read);
  }

  lemma NeverBehind(inHand: nat, chunks: seq<seq<Byte>>)
    ensures Patient(inHand, chunks, 0)
  {
    forall o: int | o < 0 ensures !StallsAfter(inHand, chunks, o) {
      NoStallBehind(chunks, o - inHand);
    }
  }

  lemma OneMore(inHand: nat, chunks: seq<seq<Byte>>, n: nat)
    requires Patient(inHand, chunks, n) && !StallsAfter(inHand, chunks, n)
    ensures Patient(inHand, chunks, n + 1)
  {
    hide StallsAfter;
  }

  /** A head has not been passed by while no front of what was read ends one. */
  lemma NotInFront(read: seq<Byte>, all: seq<Byte>)
    requires read <= all && !EndsHead(read) && forall k :: 0 <= k < |read| ==> !EndsHead(read[..k])
    ensures forall h :: IsHead(h, all) ==> |read| < |h|
  {
    hide EndsHead;
    forall front | front <= all && |front| <= |read| ensures !EndsHead(front) {
      assert front == read[..|front|];
      assert read[..|read|] == read;
    }
  }

  /** A body drained: as many bytes as it has, unless the stream ends first; empty pieces do not matter here. */
  method Discard(r: BufferedReader, count: nat) returns (ghost body: seq<Byte>)
    requires r.size > 0
    modifies r`buffered, r.conn
    ensures body + r.Rest() == old(r.Rest()) && |body| <= count
    ensures |body| == count || r.Rest() == []
  {
    hide Flatten;
    ghost var all := r.Rest();
    var left := count;
    body := [];
    while left > 0
      invariant |body| == count - left && body + r.Rest() == all
      decreases left, |r.conn.chunks|
    {
      ghost var rest := r.Rest();
      var n, ended := r.ReadSome(left);
      if ended {
        return;
      }
      Drained(body, rest, n);
      body := body + rest[..n];
      left := left - n;
    }
  }

  lemma Drained(body: seq<Byte>, rest: seq<Byte>, n: nat)
    requires n <= |rest|
    ensures (body + rest[..n]) + rest[n..] == body + rest
  {
  }

  /** An input on which a head is there and not found: a hundred empty frames stand in front of it. */
  lemma StalledHead() returns (chunks: seq<seq<Byte>>, head: seq<Byte>)
    ensures IsHead(head, Flatten(chunks)) && !Patient(0, chunks, |head|)
  {
    head := [72, LF, LF];
    chunks := seq(MAX_EMPTY_READS, _ => []) + [head];
    EmptyFront(MAX_EMPTY_READS, head);
    assert StartsEmpty(chunks) && StallsAfter(0, chunks, 0);
    assert !EndsHead(head[..0]) && !EndsHead(head[..1]) && !EndsHead(head[..2]);
  }

  lemma {:induction false} EmptyFront(n: nat, last: seq<Byte>)
    ensures Flatten(seq(n, _ => []) + [last]) == last
  {
    var chunks: seq<seq<Byte>> := seq(n, _ => []) + [last];
    if n == 0 {
      assert chunks[1..] == [];
    } else {
      assert chunks[1..] == seq(n - 1, _ => []) + [last];
      EmptyFront(n - 1, last);
    }
  }

  // --- the raw stream ---------------------------------------------------------------------

  /** What StartExec returns: the reader that found the head, for as long as it has bytes, and then its connection. */
  class HijackedStream {
    const buffered: BufferedReader

    constructor (buffered: BufferedReader)
      ensures this.buffered == buffered
    {
      this.buffered := buffered;
    }

    ghost function Rest(): seq<Byte>
      reads buffered, buffered.conn
    {
      buffered.Rest()
    }

    /** Read: the buffered remainder first, then straight from the connection. */
    method Read(p: array<Byte>) returns (n: nat, err: Option<StreamError>)
      modifies buffered`buffered, buffered.conn, p
      ensures n <= p.Length && n <= |old(Rest())|
      ensures p[..] == old(Rest())[..n] + old(p[n..]) && Rest() == old(Rest())[n..]
      ensures err.Some? ==> err == Some(buffered.conn.end) && n == 0 && old(Rest()) == []
    {
      if |buffered.buffered| > 0 {
        n := buffered.ReadBuffered(p);
        return n, None;
      }
      n, err := buffered.conn.Read(p, 0);
      assert Rest() == buffered.conn.Rest() && old(Rest()) == old(buffered.conn.Rest());
    }
  }

  const SWITCHING_PROTOCOLS := 101

  /** What a response head says: its status, and how long a body follows it; one that makes no sense is a refusal. */
  datatype Meaning = Meaning(status: nat, bodyLength: nat)

  /**
   StartExec from the response on. A 101 has no body, and everything after its head is handed over. Any
   other status has its body drained first, and is then a refusal from 400 up, and handed over below.
   */
  method StartExec(reader: BufferedReader, mean: seq<Byte> -> Meaning)
    returns (stream: Option<HijackedStream>, ghost head: seq<Byte>, ghost body: seq<Byte>)
    requires reader.size > 0
    modifies reader`buffered, reader.conn
    ensures stream.Some? ==>
      && IsHead(head, old(reader.Rest())) && mean(head).status < 400
      && fresh(stream.value) && stream.value.buffered == reader && head + (body + reader.Rest()) == old(reader.Rest())
      && (mean(head).status == SWITCHING_PROTOCOLS ==> body == [])
      && (mean(head).status != SWITCHING_PROTOCOLS ==> |body| <= mean(head).bodyLength)
      && (mean(head).status != SWITCHING_PROTOCOLS && |body| < mean(head).bodyLength ==> reader.Rest() == [])
    ensures forall h :: IsHead(h, old(reader.Rest())) ==>
      (stream.Some? <==> mean(h).status < 400 && Patient(|old(reader.buffered)|, old(reader.conn.chunks), |h|))
  {
    hide EndsHead, Patient, IsHead;
    ghost var all := reader.Rest();
    body := [];
    var h := ReadHead(reader);
    if h.None? {
      return None, [], [];
    }
    head := h.value;
    OneHead(head, all);
    assert head + reader.Rest() == all;
    var meaning := mean(h.value);
    if meaning.status != SWITCHING_PROTOCOLS {
      body := Discard(reader, meaning.bodyLength);
    }
    if meaning.status >= 400 {
      return None, head, body;
    }
    var s := new HijackedStream(reader);
    return Some(s), head, body;
  }

  lemma OneHead(head: seq<Byte>, stream: seq<Byte>)
    requires IsHead(head, stream)
    ensures head <= stream && forall h :: IsHead(h, stream) ==> h == head
  {
    forall h | IsHead(h, stream) ensures h == head {
      HeadUnique(h, head, stream);
    }
  }

  /** One Read with a buffer of its own. */
  method ReadOne(stream: HijackedStream, want: nat) returns (piece: seq<Byte>)
    modifies stream.buffered`buffered, stream.buffered.conn
    ensures |piece| <= want && piece + stream.Rest() == old(stream.Rest())
  {
    var p := new Byte[want];
    var n, err := stream.Read(p);
    piece := p[..n];
    assert piece == p[..][..n] == old(stream.Rest())[..n];
  }

  /**
   Reads of any sizes from the handed-over stream: what they return is the front of what was left, in
   order, whatever of it had been read ahead; nothing is lost, doubled, or moved.
   */
  method ReadAll(stream: HijackedStream, wants: seq<nat>) returns (got: seq<seq<Byte>>)
    modifies stream.buffered`buffered, stream.buffered.conn
    ensures |got| == |wants| && forall i :: 0 <= i < |wants| ==> |got[i]| <= wants[i]
    ensures Flatten(got) + stream.Rest() == old(stream.Rest())
  {
    got := [];
    ghost var raw := stream.Rest();
    for i := 0 to |wants|
      invariant |got| == i && forall j :: 0 <= j < i ==> |got[j]| <= wants[j]
      invariant Flatten(got) + stream.Rest() == raw
    {
      var piece := ReadOne(stream, wants[i]);
      FlattenSnoc(got, piece);
      got := got + [piece];
    }
  }

  /**
   A console session over a connection, cut anyhow: the response head once, and after a switch every
   byte behind it once, whatever had been read ahead with the head. It fails exactly when there is no
   head, when the head refuses, or when the reader's patience ends before the head does.
   */
  method ConsoleSession(conn: Source, size: nat, mean: seq<Byte> -> Meaning, wants: seq<nat>)
    returns (got: Option<seq<seq<Byte>>>, ghost head: seq<Byte>, ghost body: seq<Byte>, ghost left: seq<Byte>)
    requires size > 0
    modifies conn
    ensures got.Some? <==>
      exists h :: IsHead(h, old(conn.Rest())) && mean(h).status < 400 && Patient(0, old(conn.chunks), |h|)
    ensures got.Some? ==>
      && IsHead(head, old(conn.Rest())) && head + (body + (Flatten(got.value) + left)) == old(conn.Rest())
      && (mean(head).status == SWITCHING_PROTOCOLS ==> body == [])
  {
    hide Patient, IsHead, Flatten;
    left := [];
    var reader := new BufferedReader(conn, size);
    assert reader.Rest() == conn.Rest();
    var stream;
    stream, head, body := StartExec(reader, mean);
    if stream.None? {
      return None, head, body, [];
    }
    var pieces := ReadAll(stream.value, wants);
    left := stream.value.Rest();
    got := Some(pieces);
  }
}
