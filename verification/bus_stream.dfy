/**
 The inbound byte stream: Reads return the accepted bytes in order and nothing else, a Read fails
 only when they have all been returned, and what precedes the host's close is never lost.
 */
module BusStream {
  import opened Bytes
  import opened ByteStreams
  import opened ChannelCore
  import opened BusSteps
  import Demultiplexer
  import Runs

  // --- bytes returned, pending and queued are the bytes accepted ------------------

  ghost predicate Refines(s: Bus) {
    && Flatten(s.results) + Unread(s.chan) == s.accepted
    && (s.chan.closed <==> s.chan.closeErr.Some?)
    && (forall i :: 0 <= i < |s.go| && s.go[i].ReadFailed? ==>
        s.chan.closed && !Readable(s.chan) && s.go[i].err == s.chan.closeErr)
  }

  lemma ReadSectionRefines(s: Bus, i: nat)
    requires Refines(s) && i < |s.go| && s.go[i].Reading?
    ensures Refines(ReadSection(s, i))
  {
    if Readable(s.chan) {
      var r := ServeRead(s.chan, s.go[i].want);
      ServeReadTakesFront(s.chan, s.go[i].want);
      FlattenSnoc(s.results, r.bytes);
    }
  }

  lemma HandleFrameRefines(s: Bus)
    requires Refines(s) && s.reader != Idle
    ensures Refines(HandleFrame(s))
  {
    if s.reader.FoundData? && !s.chan.closed {
      DeliveredAppends(s.chan, s.reader.payload);
    }
  }

  lemma CloseStepRefines(s: Bus, i: nat, ok: bool)
    requires Refines(s) && i < |s.go| && IsClosing(s.go[i])
    ensures Refines(CloseStep(s, i, ok))
  {
    hide Flatten;
  }

  /** Steps that leave the unread bytes, the close and the failed Reads alone. */
  lemma QuietRefines(s: Bus, s': Bus)
    requires Refines(s) && s'.results == s.results && s'.accepted == s.accepted
    requires s'.chan == s.chan.(credit := s'.chan.credit)
    requires forall i :: 0 <= i < |s'.go| && s'.go[i].ReadFailed? ==> i < |s.go| && s.go[i] == s'.go[i]
    ensures Refines(s')
  {
  }

  lemma CallRefines(s: Bus, i: nat, ok: bool)
    requires Refines(s) && i < |s.go|
    ensures s.go[i].Granting? ==> Refines(GrantRpc(s, i, ok))
    ensures s.go[i].Writing? ==> Refines(PaySection(s, i))
    ensures s.go[i].Sending? ==> Refines(SendRpc(s, i, ok))
  {
    hide Refines, ChunkAt;
    if s.go[i].Granting? {
      QuietRefines(s, GrantRpc(s, i, ok));
    } else if s.go[i].Writing? {
      QuietRefines(s, PaySection(s, i));
    } else if s.go[i].Sending? {
      QuietRefines(s, SendRpc(s, i, ok));
    }
  }

  lemma StepRefines(s: Bus, a: Action)
    requires Refines(s) && Enabled(s, a)
    ensures Refines(Do(s, a))
  {
    hide Refines;
    match a
    case GoStep(i, ok) =>
      if s.go[i].Reading? { ReadSectionRefines(s, i); }
      else if IsClosing(s.go[i]) { CloseStepRefines(s, i, ok); }
      else { CallRefines(s, i, ok); }
    case ReaderStep =>
      if s.reader != Idle { HandleFrameRefines(s); } else { QuietRefines(s, TakeFrame(s)); }
    case _ => QuietRefines(s, Do(s, a));
  }

  lemma NextRefines(s: Bus, s': Bus)
    requires Refines(s) && Next(s, s')
    ensures Refines(s')
  {
    var a :| Enabled(s, a) && s' == Do(s, a);
    StepRefines(s, a);
  }

  lemma {:induction false} ByteStreamRefinement(run: seq<Bus>, k: nat)
    requires Runs.IsRun(Init, Next, run) && k < |run|
    ensures Refines(run[k])
  {
    if k > 0 {
      ByteStreamRefinement(run, k - 1);
      NextRefines(run[k - 1], run[k - 1 + 1]);
    }
  }

  /** A Read fails only on a closed channel, with the close's own error, once every accepted byte was returned. */
  lemma ReadFailsOnlyAtTheEnd(run: seq<Bus>, k: nat, i: nat)
    requires Runs.IsRun(Init, Next, run) && k < |run|
    requires i < |run[k].go| && run[k].go[i].ReadFailed?
    ensures run[k].chan.closed && run[k].go[i].err == run[k].chan.closeErr != None
    ensures Flatten(run[k].results) == run[k].accepted
  {
    ByteStreamRefinement(run, k);
    assert Unread(run[k].chan) == [];
  }

  // --- the wire and what was accepted from it ----------------------------------------

  function DataBytes(m: HostMsg): seq<Byte> {
    if m.Data? then m.payload else []
  }

  /** The data bytes on the wire. */
  function OnWire(wire: seq<HostMsg>): seq<Byte> {
    if wire == [] then [] else DataBytes(wire[0]) + OnWire(wire[1..])
  }

  /** How many of them stand before the first close note, if there is one. */
  function BeforeNote(wire: seq<HostMsg>): Option<nat> {
    if wire == [] then None
    else if wire[0].CloseNote? then Some(0)
    else
      var later := BeforeNote(wire[1..]);
      if later.None? then None else Some(|DataBytes(wire[0])| + later.value)
  }

  function HandBytes(r: FrameReader): seq<Byte> {
    if r.HaveData? || r.FoundData? then r.payload else []
  }

  /** The host's first close note, when it left, divides the wire's bytes. */
  ghost predicate NoteInPlace(s: Bus) {
    if s.noteRead then s.noteAt.Some? && (s.dropped == 0 ==> s.noteAt.value <= |s.accepted|)
    else if s.noteAt.None? then BeforeNote(s.wire) == None
    else
      && BeforeNote(s.wire).Some?
      && (s.dropped == 0 ==> s.noteAt.value == |s.accepted| + |HandBytes(s.reader)| + BeforeNote(s.wire).value)
  }

  /** Nothing sent before the host's first close note is missing from the accepted bytes. */
  predicate NoteReached(s: Bus) {
    s.noteRead && s.noteAt.Some? && s.noteAt.value <= |s.accepted|
  }

  ghost predicate InOrder(s: Bus) {
    && s.accepted <= s.wireBytes
    && (s.dropped == 0 ==> s.accepted + (HandBytes(s.reader) + OnWire(s.wire)) == s.wireBytes)
    && (s.dropped > 0 ==> s.chan.closed || (!s.registered && !s.reader.FoundData?))
    && NoteInPlace(s)
    && (s.chan.closed <==> s.closer != NotClosed)
    && (forall i :: 0 <= i < |s.go| && s.go[i].HostClosing? ==> s.noteRead)
    && (forall i :: 0 <= i < |s.go| && s.go[i].RemoteClosing? ==> s.chan.closed || NoteReached(s))
    && (s.closer == ByHost ==> NoteReached(s))
  }

  lemma {:induction false} BytesSnoc(wire: seq<HostMsg>, m: HostMsg)
    ensures OnWire(wire + [m]) == OnWire(wire) + DataBytes(m)
  {
    hide DataBytes;
    if wire == [] {
      assert [] + [m] == [m] && [m][1..] == [];
    } else {
      assert (wire + [m])[1..] == wire[1..] + [m];
      BytesSnoc(wire[1..], m);
    }
  }

  lemma {:induction false} OnWireSnoc(wire: seq<HostMsg>, m: HostMsg)
    ensures OnWire(wire + [m]) == OnWire(wire) + DataBytes(m)
    ensures BeforeNote(wire + [m]) ==
            if BeforeNote(wire).Some? then BeforeNote(wire)
            else if m.CloseNote? then Some(|OnWire(wire)|) else None
  {
    BytesSnoc(wire, m);
    if wire == [] {
      assert [] + [m] == [m] && [m][1..] == [];
    } else {
      assert (wire + [m])[1..] == wire[1..] + [m] && (wire + [m])[0] == wire[0];
      OnWireSnoc(wire[1..], m);
      assert |OnWire(wire)| == |DataBytes(wire[0])| + |OnWire(wire[1..])|;
      hide OnWire, DataBytes;
    }
  }

  lemma TakeFrameInOrder(s: Bus)
    requires InOrder(s) && s.reader == Idle && s.wire != []
    ensures InOrder(TakeFrame(s))
  {
    assert BeforeNote(s.wire) == (
      if s.wire[0].CloseNote? then Some(0)
      else if BeforeNote(s.wire[1..]).None? then None
      else Some(|DataBytes(s.wire[0])| + BeforeNote(s.wire[1..]).value));
    hide BeforeNote;
    assert OnWire(s.wire) == DataBytes(s.wire[0]) + OnWire(s.wire[1..]);
    assert HandBytes(s.reader) + OnWire(s.wire) == OnWire(s.wire);
    var s' := TakeFrame(s);
    assert HandBytes(s'.reader) == DataBytes(s.wire[0]);
  }

  lemma HandleFrameInOrder(s: Bus)
    requires InOrder(s) && s.reader != Idle
    ensures InOrder(HandleFrame(s))
  {
    hide OnWire, BeforeNote;
    var s' := HandleFrame(s);
    if s.reader.FoundData? && !s.chan.closed {
      assert s'.accepted + (HandBytes(s'.reader) + OnWire(s'.wire)) == s.accepted + (HandBytes(s.reader) + OnWire(s.wire));
    }
  }


  lemma HostInOrder(s: Bus, a: Action)
    requires InOrder(s) && Enabled(s, a) && (a.HostSend? || a.HostGrant? || a.HostClose?)
    ensures InOrder(Do(s, a))
  {
    hide OnWire, BeforeNote;
    var s' := Do(s, a);
    var m := s'.wire[|s.wire|];
    OnWireSnoc(s.wire, m);
    assert HandBytes(s.reader) + (OnWire(s.wire) + DataBytes(m)) == (HandBytes(s.reader) + OnWire(s.wire)) + DataBytes(m);
    assert s.accepted + ((HandBytes(s.reader) + OnWire(s.wire)) + DataBytes(m)) ==
      (s.accepted + (HandBytes(s.reader) + OnWire(s.wire))) + DataBytes(m);
  }

  lemma QuietInOrder(s: Bus, s': Bus)
    requires InOrder(s)
    requires s'.accepted == s.accepted && s'.wireBytes == s.wireBytes && s'.dropped == s.dropped
    requires s'.reader == s.reader && s'.wire == s.wire && s'.noteAt == s.noteAt && s'.noteRead == s.noteRead
    requires s'.chan.closed == s.chan.closed && s'.registered == s.registered && s'.closer == s.closer
    requires forall i :: 0 <= i < |s'.go| && (s'.go[i].HostClosing? || s'.go[i].RemoteClosing?) ==>
      i < |s.go| && s.go[i] == s'.go[i]
    ensures InOrder(s')
  {
    hide OnWire, BeforeNote;
  }

  lemma WakingInOrder(s: Bus, i: nat, ok: bool)
    requires InOrder(s) && i < |s.go| && (s.go[i].CloseWaking? || s.go[i].RemoteWaking?)
    ensures InOrder(CloseStep(s, i, ok))
  {
    hide InOrder;
    QuietInOrder(s, CloseStep(s, i, ok));
  }

  lemma CloseStepInOrder(s: Bus, i: nat, ok: bool)
    requires InOrder(s) && i < |s.go| && IsClosing(s.go[i])
    ensures InOrder(CloseStep(s, i, ok))
  {
    if s.go[i].CloseWaking? || s.go[i].RemoteWaking? {
      WakingInOrder(s, i, ok);
    }
    hide OnWire, BeforeNote;
  }

  lemma ReadSectionInOrder(s: Bus, i: nat)
    requires InOrder(s) && i < |s.go| && s.go[i].Reading?
    ensures InOrder(ReadSection(s, i))
  {
    hide InOrder, ServeRead;
    if Readable(s.chan) {
      ServeReadLeavesTheRest(s.chan, s.go[i].want);
    }
    QuietInOrder(s, ReadSection(s, i));
  }

  lemma CallInOrder(s: Bus, i: nat, ok: bool)
    requires InOrder(s) && i < |s.go|
    ensures s.go[i].Granting? ==> InOrder(GrantRpc(s, i, ok))
    ensures s.go[i].Writing? ==> InOrder(PaySection(s, i))
    ensures s.go[i].Sending? ==> InOrder(SendRpc(s, i, ok))
  {
    hide InOrder, ChunkAt;
    if s.go[i].Granting? {
      QuietInOrder(s, GrantRpc(s, i, ok));
    } else if s.go[i].Writing? {
      QuietInOrder(s, PaySection(s, i));
    } else if s.go[i].Sending? {
      QuietInOrder(s, SendRpc(s, i, ok));
    }
  }

  lemma StepInOrder(s: Bus, a: Action)
    requires InOrder(s) && Enabled(s, a)
    ensures InOrder(Do(s, a))
  {
    hide InOrder, ServeRead, ChunkAt;
    match a
    case GoStep(i, ok) =>
      if IsClosing(s.go[i]) { CloseStepInOrder(s, i, ok); }
      else if s.go[i].Reading? { ReadSectionInOrder(s, i); }
      else { CallInOrder(s, i, ok); }
    case ReaderStep =>
      if s.reader != Idle { HandleFrameInOrder(s); } else { TakeFrameInOrder(s); }
    case Spawn(_) => QuietInOrder(s, Do(s, a));
    case HostReceive => QuietInOrder(s, Do(s, a));
    case _ => HostInOrder(s, a);
  }

  lemma NextInOrder(s: Bus, s': Bus)
    requires InOrder(s) && Next(s, s')
    ensures InOrder(s')
  {
    hide InOrder;
    var a :| Enabled(s, a) && s' == Do(s, a);
    StepInOrder(s, a);
  }

  lemma {:induction false} WireOrder(run: seq<Bus>, k: nat)
    requires Runs.IsRun(Init, Next, run) && k < |run|
    ensures InOrder(run[k])
  {
    if k > 0 {
      WireOrder(run, k - 1);
      NextInOrder(run[k - 1], run[k - 1 + 1]);
    }
  }

  /**
   What was accepted is always the front of what the host sent; and when it was the host that closed
   the channel, everything it sent before its first close note is in there, although the note is
   handled on a goroutine of its own.
   */
  lemma DataBeforeCloseInOrder(run: seq<Bus>, k: nat)
    requires Runs.IsRun(Init, Next, run) && k < |run|
    ensures run[k].accepted <= run[k].wireBytes
    ensures run[k].closer == ByHost ==>
      run[k].noteAt.Some? && run[k].noteAt.value <= |run[k].accepted|
  {
    WireOrder(run, k);
  }

  /** A failed Read's error, as the layers above see it. */
  function EndOf(err: Option<CloseError>): StreamError {
    match err
    case None => EOF
    case Some(ChannelClosed) => Broken("chanbus: channel closed")
    case Some(ChannelClosedFor(reason)) => Broken("chanbus: channel closed: " + reason)
  }

  /** A log that went through whole: chunks the host cut into frames, sent, and only then closed; Read i has failed. */
  ghost predicate LogSent(s: Bus, i: nat, fs: seq<Demultiplexer.DemuxFrame>, paddings: seq<seq<Byte>>) {
    && i < |s.go| && s.go[i].ReadFailed? && s.closer == ByHost
    && |fs| == |paddings|
    && (forall f :: f in fs ==> Demultiplexer.Valid(f))
    && (forall p :: p in paddings ==> |p| == 3)
    && s.wireBytes == Demultiplexer.EncodeAll(fs, paddings)
    && s.noteAt == Some(|s.wireBytes|)
  }

  lemma LogSurvivesTheBus(run: seq<Bus>, k: nat, i: nat, fs: seq<Demultiplexer.DemuxFrame>, paddings: seq<seq<Byte>>)
    requires Runs.IsRun(Init, Next, run) && k < |run| && LogSent(run[k], i, fs, paddings)
    ensures var end := EndOf(run[k].go[i].err);
      && end == EndOf(run[k].chan.closeErr) && end.Broken?
      && Demultiplexer.ParseAll(Flatten(run[k].results), end) ==
         Demultiplexer.Reading(fs, Demultiplexer.Stream(end), [])
  {
    ReadFailsOnlyAtTheEnd(run, k, i);
    DataBeforeCloseInOrder(run, k);
    assert run[k].accepted == run[k].wireBytes;
    Demultiplexer.ParseAllOfEncodeAll(fs, paddings, EndOf(run[k].go[i].err));
  }

  /**
   End to end: the log pump over the channel. Its Source hands over what the Reads returned, Read by
   Read, and ends with the error of the Read that failed. However the daemon's chunks were cut into
   frames, and those by the sizes of the Reads, it recovers exactly the chunks.
   */
  method PumpLog(src: Source, ghost run: seq<Bus>, ghost k: nat, ghost i: nat,
      ghost fs: seq<Demultiplexer.DemuxFrame>, ghost paddings: seq<seq<Byte>>)
    returns (frames: seq<Demultiplexer.DemuxFrame>, error: Demultiplexer.Error)
    requires Runs.IsRun(Init, Next, run) && k < |run| && LogSent(run[k], i, fs, paddings)
    requires src.chunks == run[k].results && src.end == EndOf(run[k].go[i].err)
    modifies src
    ensures frames == fs && error == Demultiplexer.Stream(src.end) && src.end.Broken?
  {
    LogSurvivesTheBus(run, k, i, fs, paddings);
    hide LogSent;
    frames, error := Demultiplexer.DemuxUntilError(src);
  }
}
