/** What Writes and Reads put on the wire: each Write's frames are its buffer, and all of them are valid frames. */
module BusWrites {
  import opened Bytes
  import opened ChannelCore
  import opened BusSteps
  import Codec
  import Runs

  /** The frames one call sent, in order. */
  function SentBy(sent: seq<(nat, seq<Byte>)>, i: nat): seq<seq<Byte>> {
    if sent == [] then []
    else
      var last := sent[|sent| - 1];
      SentBy(sent[..|sent| - 1], i) + (if last.0 == i then [last.1] else [])
  }

  lemma SentBySnoc(sent: seq<(nat, seq<Byte>)>, i: nat, who: nat, chunk: seq<Byte>)
    ensures SentBy(sent + [(who, chunk)], i) == SentBy(sent, i) + (if who == i then [chunk] else [])
  {
    assert (sent + [(who, chunk)])[..|sent|] == sent;
  }

  /** A Write at `written` has sent exactly the chunks of the buffer up to there; nothing else sends. */
  predicate SentItsChunks(g: Goroutine, mine: seq<seq<Byte>>) {
    match g
    case Writing(p, written) => ChunkBoundary(p, written) && mine == Chunks(p[..written])
    case WriteAsleep(p, written) => ChunkBoundary(p, written) && written < |p| && mine == Chunks(p[..written])
    case Sending(p, written) => ChunkBoundary(p, written) && written < |p| && mine == Chunks(p[..written])
    case WriteReturned(p, written, end) =>
      && ChunkBoundary(p, written) && mine == Chunks(p[..written])
      && (end == Complete <==> written == |p|)
    case _ => mine == []
  }

  ghost predicate Chunked(s: Bus) {
    && (forall i :: 0 <= i < |s.go| ==> SentItsChunks(s.go[i], SentBy(s.sent, i)))
    && (forall i: nat :: |s.go| <= i ==> SentBy(s.sent, i) == [])
  }

  lemma SendRpcChunks(s: Bus, i: nat, ok: bool)
    requires Chunked(s) && i < |s.go| && s.go[i].Sending?
    ensures Chunked(SendRpc(s, i, ok))
  {
    hide Chunks, ChunkAt, SentBy;
    var p, written := s.go[i].p, s.go[i].written;
    ChunksExtend(p, written);
    forall j: nat {
      SentBySnoc(s.sent, j, i, ChunkAt(p, written));
    }
  }

  /** Steps that send nothing, and leave every Write at its place in its buffer. */
  lemma QuietChunks(s: Bus, s': Bus)
    requires Chunked(s) && s'.sent == s.sent && |s.go| <= |s'.go|
    requires forall j, mine :: 0 <= j < |s.go| && SentItsChunks(s.go[j], mine) ==> SentItsChunks(s'.go[j], mine)
    requires forall j :: |s.go| <= j < |s'.go| ==> SentItsChunks(s'.go[j], [])
    ensures Chunked(s')
  {
    hide SentItsChunks, SentBy;
  }

  lemma PaySectionChunks(s: Bus, i: nat)
    requires Chunked(s) && i < |s.go| && s.go[i].Writing?
    ensures Chunked(PaySection(s, i))
  {
    hide Chunks, Chunked;
    assert forall mine :: SentItsChunks(s.go[i], mine) ==> SentItsChunks(PaySection(s, i).go[i], mine);
    hide SentItsChunks;
    QuietChunks(s, PaySection(s, i));
  }

  lemma ReadChunks(s: Bus, i: nat, ok: bool)
    requires Chunked(s) && i < |s.go|
    ensures s.go[i].Reading? ==> Chunked(ReadSection(s, i))
    ensures s.go[i].Granting? ==> Chunked(GrantRpc(s, i, ok))
  {
    hide Chunks, ServeRead, Chunked;
    if s.go[i].Reading? {
      QuietChunks(s, ReadSection(s, i));
    } else if s.go[i].Granting? {
      QuietChunks(s, GrantRpc(s, i, ok));
    }
  }

  lemma CloseChunks(s: Bus, i: nat, ok: bool)
    requires Chunked(s) && i < |s.go| && IsClosing(s.go[i])
    ensures Chunked(CloseStep(s, i, ok))
  {
    hide Chunks, Chunked, CloseStep;
    CloseStepMoves(s, i, ok);
    CloseStepLeaves(s, i, ok);
    QuietChunks(s, CloseStep(s, i, ok));
  }

  lemma OtherChunks(s: Bus, a: Action)
    requires Chunked(s) && Enabled(s, a) && !a.GoStep?
    ensures Chunked(Do(s, a))
  {
    hide Chunked;
    if a.Spawn? && a.call.Writing? {
      assert a.call.p[..0] == [] && Chunks(a.call.p[..0]) == [];
    }
    hide Chunks;
    QuietChunks(s, Do(s, a));
  }

  lemma StepChunks(s: Bus, a: Action)
    requires Chunked(s) && Enabled(s, a)
    ensures Chunked(Do(s, a))
  {
    hide Chunked, CloseStep, ReadSection, GrantRpc, PaySection, SendRpc;
    if !a.GoStep? { OtherChunks(s, a); }
    else if IsClosing(s.go[a.i]) { CloseChunks(s, a.i, a.ok); }
    else if s.go[a.i].Writing? { PaySectionChunks(s, a.i); }
    else if s.go[a.i].Sending? { SendRpcChunks(s, a.i, a.ok); }
    else { ReadChunks(s, a.i, a.ok); }
  }

  lemma NextChunks(s: Bus, s': Bus)
    requires Chunked(s) && Next(s, s')
    ensures Chunked(s')
  {
    hide Chunked;
    var a :| Enabled(s, a) && s' == Do(s, a);
    StepChunks(s, a);
  }

  lemma {:induction false} WritesAreChunked(run: seq<Bus>, k: nat)
    requires Runs.IsRun(Init, Next, run) && k < |run|
    ensures Chunked(run[k])
  {
    if k > 0 {
      WritesAreChunked(run, k - 1);
      NextChunks(run[k - 1], run[k - 1 + 1]);
    }
  }

  /**
   However Writes interleave, the frames one of them has sent carry its buffer up to `written`, in
   order, none of them empty or oversize; a Write that succeeded has sent its whole buffer, in as
   few frames as fit it.
   */
  lemma WriteSendsItsBuffer(run: seq<Bus>, k: nat, i: nat)
    requires Runs.IsRun(Init, Next, run) && k < |run| && i < |run[k].go|
    requires run[k].go[i].WriteReturned?
    ensures var g, mine := run[k].go[i], SentBy(run[k].sent, i);
            && g.written <= |g.p| && Flatten(mine) == g.p[..g.written]
            && (forall m :: 0 <= m < |mine| ==> 1 <= |mine[m]| <= MAX_CHANNEL_FRAME)
            && (g.end == Complete ==>
                g.written == |g.p| && |mine| == (|g.p| + MAX_CHANNEL_FRAME - 1) / MAX_CHANNEL_FRAME)
  {
    WritesAreChunked(run, k);
    ChunksCover(run[k].go[i].p[..run[k].go[i].written]);
  }

  // --- what reaches the frame layer ---------------------------------------------------------

  /** The frame the client writes for a channel message; a close goes out as JSON-RPC instead. */
  function ToFrame(id: UInt32, m: PluginMsg): Codec.Frame
    requires !m.CloseOut?
  {
    match m
    case DataOut(payload) => Codec.Frame(Codec.KIND_CHANNEL_DATA, id, payload)
    case Grant(credit) => Codec.Frame(Codec.KIND_CREDIT, id, Codec.CreditPayload(id, credit))
  }

  predicate WellFormed(m: PluginMsg) {
    match m
    case DataOut(payload) => 1 <= |payload| <= MAX_CHANNEL_FRAME
    case Grant(credit) => credit == INITIAL_CREDIT / 2
    case CloseOut => true
  }

  /** Outgoing messages the codec takes and the host can act on. */
  ghost predicate Sendable(s: Bus) {
    && (forall m :: m in s.out ==> WellFormed(m))
    && (forall i :: 0 <= i < |s.go| && s.go[i].Granting? ==> s.go[i].grant == INITIAL_CREDIT / 2)
    && (forall i :: 0 <= i < |s.go| && s.go[i].Sending? ==> s.go[i].written < |s.go[i].p|)
    && s.chan.consumed <= 1
  }

  lemma ReadSectionSendable(s: Bus, i: nat)
    requires Sendable(s) && i < |s.go| && s.go[i].Reading?
    ensures Sendable(ReadSection(s, i))
  {
    if Readable(s.chan) {
      ServeReadKeepsWindow(s.chan, s.go[i].want);
    }
    hide ServeRead;
  }

  lemma RpcSendable(s: Bus, i: nat, ok: bool)
    requires Sendable(s) && i < |s.go|
    ensures s.go[i].Granting? ==> Sendable(GrantRpc(s, i, ok))
    ensures s.go[i].Sending? ==> Sendable(SendRpc(s, i, ok))
  {
    hide ChunkAt;
  }

  lemma PaySectionSendable(s: Bus, i: nat)
    requires Sendable(s) && i < |s.go| && s.go[i].Writing?
    ensures Sendable(PaySection(s, i))
  {
  }

  /** Steps that put nothing on the wire but a close, and leave every call with a frame to send alone. */
  lemma QuietSendable(s: Bus, s': Bus)
    requires Sendable(s) && s'.chan.consumed == s.chan.consumed
    requires forall m :: m in s'.out ==> m in s.out || m == CloseOut
    requires forall j :: 0 <= j < |s'.go| && (s'.go[j].Granting? || s'.go[j].Sending?) ==> j < |s.go| && s'.go[j] == s.go[j]
    ensures Sendable(s')
  {
  }

  lemma CloseSendable(s: Bus, i: nat, ok: bool)
    requires Sendable(s) && i < |s.go| && IsClosing(s.go[i])
    ensures Sendable(CloseStep(s, i, ok))
  {
    hide Sendable, CloseStep;
    CloseStepMoves(s, i, ok);
    CloseStepLeaves(s, i, ok);
    QuietSendable(s, CloseStep(s, i, ok));
  }

  lemma FrameReaderSendable(s: Bus)
    requires Sendable(s) && (s.reader != Idle || s.wire != [])
    ensures Sendable(Do(s, ReaderStep))
  {
    hide Sendable;
    QuietSendable(s, Do(s, ReaderStep));
  }

  lemma OtherSendable(s: Bus, a: Action)
    requires Sendable(s) && Enabled(s, a) && !a.GoStep? && !a.ReaderStep?
    ensures Sendable(Do(s, a))
  {
    hide Sendable;
    if a.HostReceive? {
      assert forall m :: m in s.out[1..] ==> m in s.out;
    }
    QuietSendable(s, Do(s, a));
  }

  lemma NextSendable(s: Bus, s': Bus)
    requires Sendable(s) && Next(s, s')
    ensures Sendable(s')
  {
    hide Sendable, CloseStep, ReadSection, GrantRpc, PaySection, SendRpc;
    var a :| Enabled(s, a) && s' == Do(s, a);
    if a.ReaderStep? { FrameReaderSendable(s); }
    else if !a.GoStep? { OtherSendable(s, a); }
    else if IsClosing(s.go[a.i]) { CloseSendable(s, a.i, a.ok); }
    else if s.go[a.i].Reading? { ReadSectionSendable(s, a.i); }
    else if s.go[a.i].Writing? { PaySectionSendable(s, a.i); }
    else { RpcSendable(s, a.i, a.ok); }
  }

  lemma {:induction false} AllSendable(run: seq<Bus>, k: nat)
    requires Runs.IsRun(Init, Next, run) && k < |run|
    ensures Sendable(run[k])
  {
    if k > 0 {
      AllSendable(run, k - 1);
      NextSendable(run[k - 1], run[k - 1 + 1]);
    }
  }

  /** No frame of a channel is ever refused by WriteFrame, and every grant passes DecodeCredit on the other side. */
  lemma ChannelFramesAreValid(run: seq<Bus>, k: nat, id: UInt32, m: PluginMsg)
    requires Runs.IsRun(Init, Next, run) && k < |run| && m in run[k].out && !m.CloseOut?
    ensures Codec.Valid(ToFrame(id, m))
    ensures m.Grant? ==> Codec.DecodeCredit(id, ToFrame(id, m).payload) == Codec.Ok(m.credit)
  {
    AllSendable(run, k);
    if m.Grant? {
      Codec.DecodeCreditExact(id, Codec.CreditPayload(id, m.credit), m.credit);
    }
  }
}
