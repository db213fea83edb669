/**
 One binary channel's shared state and the lock sections of internal/infra/chanbus/channel.go, as
 functions. The class in channel.dfy is proved to compute them, and the step relation in
 bus_steps.dfy is built from them.
 */
module ChannelCore {
  import opened Bytes

  const INITIAL_CREDIT: UInt32 := 4
  const MAX_CHANNEL_FRAME := 0x10_0000

  datatype CloseError = ChannelClosed | ChannelClosedFor(reason: string)

  datatype Chan = Chan(
    inbound: seq<seq<Byte>>,
    pending: seq<Byte>,
    credit: UInt32,
    consumed: UInt32,
    closed: bool,
    closeErr: Option<CloseError>)

  function NewChan(grantedCredit: UInt32): Chan {
    Chan([], [], grantedCredit, 0, false, None)
  }

  /** The bytes delivered and not yet returned by a Read. */
  function Unread(c: Chan): seq<Byte> {
    c.pending + Flatten(c.inbound)
  }

  /** The frames of the host's window this channel is holding on to. */
  function Held(c: Chan): nat {
    |c.inbound| + (if c.pending == [] then 0 else 1) + c.consumed
  }

  predicate Readable(c: Chan) {
    c.pending != [] || c.inbound != []
  }

  predicate ReadMustWait(c: Chan) {
    !Readable(c) && !c.closed
  }

  predicate WriteMustWait(c: Chan) {
    c.credit == 0 && !c.closed
  }

  // --- lock sections ----------------------------------------------------------

  function Delivered(c: Chan, payload: seq<Byte>): Chan {
    if c.closed then c else c.(inbound := c.inbound + [payload])
  }

  function Credited(c: Chan, credit: UInt32): Chan {
    c.(credit := (c.credit + credit) % WORD_RANGE)
  }

  function RemotelyClosed(c: Chan, reason: string): Chan {
    if c.closed then c
    else c.(closed := true, closeErr := Some(if reason != "" then ChannelClosedFor(reason) else ChannelClosed))
  }

  function LocallyClosed(c: Chan): Chan {
    if c.closed then c else c.(closed := true, closeErr := Some(ChannelClosed))
  }

  /** A Read with nothing pending starts on the oldest queued frame. */
  function Started(c: Chan): Chan
    requires Readable(c)
  {
    if c.pending == [] then c.(pending := c.inbound[0], inbound := c.inbound[1..]) else c
  }

  /** A frame that has been read to its end counts as consumed; half a window of those is granted back. */
  function Settled(c: Chan): (Chan, UInt32) {
    if c.pending != [] then (c, 0)
    else
      var consumed := (c.consumed + 1) % WORD_RANGE;
      if consumed >= INITIAL_CREDIT / 2 then (c.(consumed := 0), consumed) else (c.(consumed := consumed), 0)
  }

  /** What a Read section leaves behind, returns, and owes the host. */
  datatype Served = Served(chan: Chan, bytes: seq<Byte>, grant: UInt32)

  function ServeRead(c: Chan, want: nat): Served
    requires Readable(c)
  {
    var c1 := Started(c);
    var n := Min(want, |c1.pending|);
    var settled := Settled(c1.(pending := c1.pending[n..]));
    Served(settled.0, c1.pending[..n], settled.1)
  }

  function Paid(c: Chan): Chan
    requires c.credit > 0
  {
    c.(credit := c.credit - 1)
  }

  // --- what a Read section keeps ------------------------------------------------

  /** A Read takes its bytes off the front of the unread ones and leaves the rest in order. */
  lemma ServeReadTakesFront(c: Chan, want: nat)
    requires Readable(c)
    ensures var r := ServeRead(c, want); r.bytes + Unread(r.chan) == Unread(c) && |r.bytes| <= want
  {
    var first, later := if c.pending == [] then c.inbound[0] else c.pending,
                        if c.pending == [] then c.inbound[1..] else c.inbound;
    var n := Min(want, |first|);
    SplitFront(first, n, Flatten(later));
  }

  /** The frame a Read is in the middle of, or else the oldest queued one. */
  function FrontFrame(c: Chan): seq<Byte>
    requires Readable(c)
  {
    if c.pending != [] then c.pending else c.inbound[0]
  }

  /** A Read returns as much of the front frame as its buffer takes, so it makes progress unless one of them is empty. */
  lemma ServeReadFillsTheBuffer(c: Chan, want: nat)
    requires Readable(c)
    ensures var r, front := ServeRead(c, want), FrontFrame(c);
      && |r.bytes| == (if |front| <= want then |front| else want) && r.bytes == front[..|r.bytes|]
      && r.chan.pending == front[|r.bytes|..]
      && r.chan.inbound == (if c.pending != [] then c.inbound else c.inbound[1..])
  {
  }

  /** The first close names its cause, and no later one changes it. */
  lemma FirstCloseNamesTheCause(c: Chan, reason: string)
    ensures c.closed ==> RemotelyClosed(c, reason) == c && LocallyClosed(c) == c
    ensures !c.closed ==>
      && RemotelyClosed(c, reason).closed && LocallyClosed(c).closed
      && LocallyClosed(c).closeErr == Some(ChannelClosed)
      && RemotelyClosed(c, reason).closeErr == Some(if |reason| > 0 then ChannelClosedFor(reason) else ChannelClosed)
  {
  }

  lemma SplitFront(a: seq<Byte>, n: nat, b: seq<Byte>)
    requires n <= |a|
    ensures a[..n] + (a[n..] + b) == a + b
  {
  }

  /** Every frame a Read finishes is either still counted or granted back: no part of the window is lost or doubled. */
  lemma ServeReadKeepsWindow(c: Chan, want: nat)
    requires Readable(c) && c.consumed <= 1
    ensures var r := ServeRead(c, want);
            && Held(r.chan) + r.grant == Held(c)
            && r.chan.consumed <= 1 && (r.grant == 0 || r.grant == 2)
  {
  }

  lemma ServeReadLeavesTheRest(c: Chan, want: nat)
    requires Readable(c)
    ensures var r := ServeRead(c, want).chan;
            r.closed == c.closed && r.closeErr == c.closeErr && r.credit == c.credit
  {
  }

  lemma DeliveredAppends(c: Chan, payload: seq<Byte>)
    requires !c.closed
    ensures Unread(Delivered(c, payload)) == Unread(c) + payload
  {
    FlattenSnoc(c.inbound, payload);
  }

  // --- how Write cuts its buffer ---------------------------------------------------

  /** The chunk a Write sends when `written` bytes of p have gone out. */
  function ChunkAt(p: seq<Byte>, written: nat): (chunk: seq<Byte>)
    ensures |chunk| <= MAX_CHANNEL_FRAME
    ensures written <= |p| ==> written + |chunk| <= |p|
    ensures written < |p| <==> |chunk| > 0
  {
    if written >= |p| then [] else p[written..written + Min(|p| - written, MAX_CHANNEL_FRAME)]
  }

  /** All chunks of a buffer, in order. */
  function Chunks(p: seq<Byte>): seq<seq<Byte>> {
    if p == [] then [] else [ChunkAt(p, 0)] + Chunks(p[|ChunkAt(p, 0)|..])
  }

  /** The chunks carry the buffer exactly, none is empty or oversize, and there are no more than needed. */
  lemma {:induction false} ChunksCover(p: seq<Byte>)
    ensures Flatten(Chunks(p)) == p
    ensures forall i :: 0 <= i < |Chunks(p)| ==> 1 <= |Chunks(p)[i]| <= MAX_CHANNEL_FRAME
    ensures |Chunks(p)| == (|p| + MAX_CHANNEL_FRAME - 1) / MAX_CHANNEL_FRAME
  {
    if p != [] {
      ChunksCover(p[|ChunkAt(p, 0)|..]);
    }
  }

  /** A position Write's loop can be at: after some whole number of full chunks, or at the end. */
  predicate ChunkBoundary(p: seq<Byte>, written: nat) {
    written <= |p| && (written % MAX_CHANNEL_FRAME == 0 || written == |p|)
  }

  lemma ChunkShift(p: seq<Byte>, written: nat)
    requires MAX_CHANNEL_FRAME <= written <= |p|
    ensures ChunkAt(p[MAX_CHANNEL_FRAME..], written - MAX_CHANNEL_FRAME) == ChunkAt(p, written)
  {
    var q, m := p[MAX_CHANNEL_FRAME..], MAX_CHANNEL_FRAME;
    assert |q| - (written - m) == |p| - written;
    if written < |p| {
      var n := Min(|p| - written, m);
      assert q[written - m..written - m + n] == p[written..written + n];
    }
  }

  /** A buffer longer than a frame starts with a full chunk, and its other chunks are those of the rest. */
  lemma ChunksFirst(p: seq<Byte>, n: nat)
    requires MAX_CHANNEL_FRAME <= n <= |p|
    ensures Chunks(p[..n]) == [p[..MAX_CHANNEL_FRAME]] + Chunks(p[MAX_CHANNEL_FRAME..][..n - MAX_CHANNEL_FRAME])
  {
    var q := p[..n];
    assert ChunkAt(q, 0) == p[..MAX_CHANNEL_FRAME];
    assert q[MAX_CHANNEL_FRAME..] == p[MAX_CHANNEL_FRAME..][..n - MAX_CHANNEL_FRAME];
  }

  lemma ChunksSingle(q: seq<Byte>)
    requires 0 < |q| <= MAX_CHANNEL_FRAME
    ensures Chunks(q) == [q]
  {
    assert ChunkAt(q, 0) == q && q[|q|..] == [];
    assert Chunks(q) == [q] + Chunks([]);
  }

  lemma NoChunks(p: seq<Byte>)
    ensures Chunks(p[..0]) == []
  {
  }

  /** One turn of Write's loop sends exactly the next chunk. */
  lemma {:induction false} ChunksExtend(p: seq<Byte>, written: nat)
    requires ChunkBoundary(p, written) && written < |p|
    ensures var next := written + |ChunkAt(p, written)|;
            && ChunkBoundary(p, next)
            && Chunks(p[..next]) == Chunks(p[..written]) + [ChunkAt(p, written)]
  {
    hide Chunks;
    var next := written + |ChunkAt(p, written)|;
    if written == 0 {
      assert p[..next] == ChunkAt(p, 0);
      ChunksSingle(p[..next]);
      NoChunks(p);
    } else {
      hide ChunkAt;
      ChunkShift(p, written);
      ChunksExtend(p[MAX_CHANNEL_FRAME..], written - MAX_CHANNEL_FRAME);
      ChunksFirst(p, next);
      ChunksFirst(p, written);
    }
  }
}
