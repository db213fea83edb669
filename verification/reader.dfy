/** The two ends of a byte stream: what io.Reader and io.ReadFull, and io.Writer, give their callers. */
module ByteStreams {
  import opened Bytes

  /** How a stream stops: at its end, inside something, or for a reason of its own. */
  datatype StreamError = EOF | UnexpectedEOF | Broken(why: string)

  /** What io.ReadFull makes of a stream that stopped after some of the wanted bytes. */
  function ShortRead(got: nat, end: StreamError): StreamError {
    if got > 0 && end == EOF then UnexpectedEOF else end
  }

  /** What is left of the chunks once n bytes of the first one have been handed over. */
  function Consumed(chunks: seq<seq<Byte>>, n: nat): seq<seq<Byte>>
    requires chunks != [] && n <= |chunks[0]|
  {
    if n == |chunks[0]| then chunks[1..] else [chunks[0][n..]] + chunks[1..]
  }

  /** What is left of a stream when n bytes of its first chunk are gone. */
  lemma TakeFromChunk(chunks: seq<seq<Byte>>, n: nat)
    requires chunks != [] && n <= |chunks[0]|
    ensures n <= |Flatten(chunks)| && Flatten(chunks)[..n] == chunks[0][..n]
    ensures Flatten(Consumed(chunks, n)) == Flatten(chunks)[n..]
  {
    var chunk, later := chunks[0], chunks[1..];
    assert ([chunk[n..]] + later)[1..] == later;
    assert (chunk + Flatten(later))[n..] == chunk[n..] + Flatten(later);
  }

  /**
   A reader over a stream that something below has cut into chunks. One Read call hands over at
   most one chunk, however large the buffer; a chunk that does not fit is handed over in parts,
   and an empty chunk is a Read that returned no bytes and no error.
   */
  class Source {
    var chunks: seq<seq<Byte>>
    const end: StreamError

    constructor (chunks: seq<seq<Byte>>, end: StreamError)
      ensures this.chunks == chunks && this.end == end
    {
      this.chunks, this.end := chunks, end;
    }

    /** The bytes still to come, whatever the cuts. */
    ghost function Rest(): seq<Byte>
      reads this
    {
      Flatten(chunks)
    }

    /** Reads into buf[from..]. */
    method Read(buf: array<Byte>, from: nat) returns (n: nat, err: Option<StreamError>)
      requires from <= buf.Length
      modifies this, buf
      ensures old(chunks) == [] ==> n == 0 && err == Some(end)
      ensures old(chunks) != [] ==> err == None && n == Min(buf.Length - from, |old(chunks[0])|)
      ensures chunks == if old(chunks) == [] then [] else Consumed(old(chunks), n)
      ensures from + n <= buf.Length && n <= |old(Rest())|
      ensures buf[..] == old(buf[..from]) + old(Rest())[..n] + old(buf[from + n..])
      ensures Rest() == old(Rest())[n..]
      ensures |chunks| <= |old(chunks)|
      ensures old(chunks) != [] && n == 0 && from < buf.Length ==> |chunks| < |old(chunks)|
    {
      if chunks == [] {
        return 0, Some(end);
      }
      hide Flatten;
      TakeFromChunk(chunks, Min(buf.Length - from, |chunks[0]|));
      var chunk := chunks[0];
      n := Min(buf.Length - from, |chunk|);
      forall i | 0 <= i < n {
        buf[from + i] := chunk[i];
      }
      chunks := Consumed(chunks, n);
      err := None;
    }
  }

  /**
   io.ReadFull: Read calls until the buffer is full or the stream stops. The result depends on the
   bytes and on how the stream ends, never on where the chunks were cut.
   */
  method ReadFull(src: Source, buf: array<Byte>) returns (n: nat, err: Option<StreamError>)
    modifies src, buf
    ensures n == Min(buf.Length, |old(src.Rest())|)
    ensures buf[..n] == old(src.Rest())[..n] && src.Rest() == old(src.Rest())[n..]
    ensures err == if n == buf.Length then None else Some(ShortRead(n, src.end))
  {
    ghost var all := src.Rest();
    n, err := 0, None;
    while n < buf.Length && err == None
      invariant n <= buf.Length && n <= |all|
      invariant buf[..n] == all[..n] && src.Rest() == all[n..]
      invariant err != None ==> err == Some(src.end) && n == |all|
      decreases buf.Length - n, |src.chunks|, err == None
    {
      var got;
      got, err := src.Read(buf, n);
      assert buf[..n + got] == buf[..][..n + got];
      assert all[..n + got] == all[..n] + all[n..][..got];
      n := n + got;
    }
    if n >= buf.Length {
      err := None;
    } else if n > 0 && err == Some(EOF) {
      err := Some(UnexpectedEOF);
    }
  }

  /** A writer that keeps each Write call apart, and refuses every call after the first `room`. */
  class Sink {
    var writes: seq<seq<Byte>>
    var room: nat

    constructor (room: nat)
      ensures writes == [] && this.room == room
    {
      writes, this.room := [], room;
    }

    method Write(data: seq<Byte>) returns (ok: bool)
      modifies this
      ensures ok == (old(room) > 0)
      ensures writes == if ok then old(writes) + [data] else old(writes)
      ensures room == if ok then old(room) - 1 else 0
    {
      ok := room > 0;
      if ok {
        writes, room := writes + [data], room - 1;
      }
    }
  }
}
