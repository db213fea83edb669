/** What the other side and the callers asked for takes effect: credits arrive, Reads and Writes go through, closes close. */
module BusEffects {
  import opened Bytes
  import opened ChannelCore
  import opened BusSteps
  import opened Totals
  import Runs

  // --- the host's credits arrive -----------------------------------------------------------

  function CreditOn(m: HostMsg): nat {
    if m.Credit? then m.credit else 0
  }

  function CreditInHand(r: FrameReader): nat {
    if r.HaveCredit? || r.FoundCredit? then r.credit else 0
  }

  /** Every credit the host sent is in the window's total, on its way to it, or came for a channel that was forgotten. */
  ghost predicate Arriving(s: Bus) {
    && s.granted + Total(CreditOn, s.wire) + CreditInHand(s.reader) + s.missed == INITIAL_CREDIT + s.offered
    && (s.missed > 0 ==> !s.registered)
  }

  lemma HostArriving(s: Bus, a: Action)
    requires Arriving(s) && Enabled(s, a) && (a.HostSend? || a.HostGrant? || a.HostClose?)
    ensures Arriving(Do(s, a))
  {
    hide Total;
    match a
    case HostSend(payload) => TotalSnoc(CreditOn, s.wire, Data(payload));
    case HostGrant(credit) => TotalSnoc(CreditOn, s.wire, Credit(credit));
    case HostClose(reason) => TotalSnoc(CreditOn, s.wire, CloseNote(reason));
  }

  lemma ReaderArriving(s: Bus)
    requires Arriving(s) && (s.reader != Idle || s.wire != [])
    ensures Arriving(Do(s, ReaderStep))
  {
    if s.reader == Idle {
      assert Total(CreditOn, s.wire) == CreditOn(s.wire[0]) + Total(CreditOn, s.wire[1..]);
    }
    hide Total;
  }

  lemma QuietArriving(s: Bus, s': Bus)
    requires Arriving(s) && s'.granted == s.granted && s'.wire == s.wire && s'.reader == s.reader
    requires s'.missed == s.missed && s'.offered == s.offered && (s'.registered ==> s.registered)
    ensures Arriving(s')
  {
  }

  /** The calls have no part in it, but for forgetting the channel. */
  lemma GoArriving(s: Bus, i: nat, ok: bool)
    requires i < |s.go|
    ensures s.go[i].Reading? ==> QuietForHost(s, ReadSection(s, i))
    ensures s.go[i].Granting? ==> QuietForHost(s, GrantRpc(s, i, ok))
    ensures s.go[i].Writing? ==> QuietForHost(s, PaySection(s, i))
    ensures s.go[i].Sending? ==> QuietForHost(s, SendRpc(s, i, ok))
    ensures IsClosing(s.go[i]) ==> QuietForHost(s, CloseStep(s, i, ok))
  {
    hide ServeRead, ChunkAt;
  }

  predicate QuietForHost(s: Bus, s': Bus) {
    && s'.granted == s.granted && s'.wire == s.wire && s'.reader == s.reader
    && s'.missed == s.missed && s'.offered == s.offered && (s'.registered ==> s.registered)
  }

  lemma NextArriving(s: Bus, s': Bus)
    requires Arriving(s) && Next(s, s')
    ensures Arriving(s')
  {
    hide Arriving, ReadSection, GrantRpc, PaySection, SendRpc, CloseStep, TakeFrame, HandleFrame;
    var a :| Enabled(s, a) && s' == Do(s, a);
    if a.GoStep? {
      GoArriving(s, a.i, a.ok);
      QuietArriving(s, s');
    } else if a.ReaderStep? {
      ReaderArriving(s);
    } else if a.Spawn? || a.HostReceive? {
      QuietArriving(s, s');
    } else {
      HostArriving(s, a);
    }
  }

  /**
   On a channel that is still registered, every credit the host sent is in the window's total, but for
   those that are on the wire or in the frame reader's hands.
   */
  lemma {:induction false} CreditsArrive(run: seq<Bus>, k: nat)
    requires Runs.IsRun(Init, Next, run) && k < |run|
    ensures Arriving(run[k])
    ensures run[k].registered ==>
      run[k].granted + Total(CreditOn, run[k].wire) + CreditInHand(run[k].reader) == INITIAL_CREDIT + run[k].offered
  {
    if k > 0 {
      CreditsArrive(run, k - 1);
      NextArriving(run[k - 1], run[k - 1 + 1]);
    }
  }

  // --- a Read returns what it took ------------------------------------------------------------

  predicate HasTaken(g: Goroutine) {
    g.Granting? || g.ReadReturned?
  }

  /** Each result is what its call has to return, and whoever has something to return took it. */
  ghost predicate Takes(s: Bus) {
    && |s.takers| == |s.results|
    && (forall m :: 0 <= m < |s.takers| ==>
        s.takers[m] < |s.go| && HasTaken(s.go[s.takers[m]]) && s.go[s.takers[m]].bytes == s.results[m])
    && (forall i :: 0 <= i < |s.go| && HasTaken(s.go[i]) ==> i in s.takers)
  }

  lemma ReadTakes(s: Bus, i: nat)
    requires Takes(s) && i < |s.go| && s.go[i].Reading?
    ensures Takes(ReadSection(s, i))
  {
    hide ServeRead;
    var s' := ReadSection(s, i);
    if Readable(s.chan) && !ReadMustWait(s.chan) {
      assert s'.takers[|s.takers|] == i;
      forall j | 0 <= j < |s'.go| && HasTaken(s'.go[j]) ensures j in s'.takers {
        if j != i {
          assert HasTaken(s.go[j]) && j in s.takers;
        }
      }
    }
  }

  /** A call that has taken something keeps it, and no other comes to have something. */
  predicate KeepsTaken(go: seq<Goroutine>, go': seq<Goroutine>) {
    && |go| <= |go'|
    && (forall j :: 0 <= j < |go| && HasTaken(go[j]) ==> HasTaken(go'[j]) && go'[j].bytes == go[j].bytes)
    && (forall j :: 0 <= j < |go'| && HasTaken(go'[j]) ==> j < |go| && HasTaken(go[j]))
  }

  lemma QuietTakes(s: Bus, s': Bus)
    requires Takes(s) && s'.takers == s.takers && s'.results == s.results && KeepsTaken(s.go, s'.go)
    ensures Takes(s')
  {
  }

  lemma RpcTakes(s: Bus, i: nat, ok: bool)
    requires Takes(s) && i < |s.go|
    ensures s.go[i].Granting? ==> Takes(GrantRpc(s, i, ok))
    ensures s.go[i].Sending? ==> Takes(SendRpc(s, i, ok))
    ensures s.go[i].Writing? ==> Takes(PaySection(s, i))
  {
    hide Takes, ChunkAt;
    if s.go[i].Granting? {
      QuietTakes(s, GrantRpc(s, i, ok));
    } else if s.go[i].Sending? {
      QuietTakes(s, SendRpc(s, i, ok));
    } else if s.go[i].Writing? {
      QuietTakes(s, PaySection(s, i));
    }
  }

  lemma CloseTakes(s: Bus, i: nat, ok: bool)
    requires Takes(s) && i < |s.go| && IsClosing(s.go[i])
    ensures Takes(CloseStep(s, i, ok))
  {
    hide Takes, CloseStep;
    CloseStepMoves(s, i, ok);
    CloseStepLeaves(s, i, ok);
    QuietTakes(s, CloseStep(s, i, ok));
  }

  lemma ReaderTakes(s: Bus)
    requires Takes(s) && (s.reader != Idle || s.wire != [])
    ensures Takes(Do(s, ReaderStep))
  {
    hide Takes;
    QuietTakes(s, Do(s, ReaderStep));
  }

  lemma OtherTakes(s: Bus, a: Action)
    requires Takes(s) && Enabled(s, a) && !a.GoStep? && !a.ReaderStep?
    ensures Takes(Do(s, a))
  {
    hide Takes;
    QuietTakes(s, Do(s, a));
  }

  lemma NextTakes(s: Bus, s': Bus)
    requires Takes(s) && Next(s, s')
    ensures Takes(s')
  {
    hide Takes, ReadSection, GrantRpc, PaySection, SendRpc, CloseStep, TakeFrame, HandleFrame;
    var a :| Enabled(s, a) && s' == Do(s, a);
    if a.ReaderStep? { ReaderTakes(s); }
    else if !a.GoStep? { OtherTakes(s, a); }
    else if IsClosing(s.go[a.i]) { CloseTakes(s, a.i, a.ok); }
    else if s.go[a.i].Reading? { ReadTakes(s, a.i); }
    else { RpcTakes(s, a.i, a.ok); }
  }

  lemma {:induction false} AllTakes(run: seq<Bus>, k: nat)
    requires Runs.IsRun(Init, Next, run) && k < |run|
    ensures Takes(run[k])
  {
    if k > 0 {
      AllTakes(run, k - 1);
      NextTakes(run[k - 1], run[k - 1 + 1]);
    }
  }

  /** Each of the results is returned by the call that took it, as it was taken, and no Read returns anything else. */
  lemma ReadsReturnWhatTheyTook(run: seq<Bus>, k: nat)
    requires Runs.IsRun(Init, Next, run) && k < |run|
    ensures |run[k].takers| == |run[k].results|
    ensures forall m :: 0 <= m < |run[k].takers| ==>
      var i := run[k].takers[m];
      i < |run[k].go| && HasTaken(run[k].go[i]) && run[k].go[i].bytes == run[k].results[m]
    ensures forall i :: 0 <= i < |run[k].go| && run[k].go[i].ReadReturned? ==> i in run[k].takers
  {
    AllTakes(run, k);
  }

  // --- steps that get somewhere -----------------------------------------------------------------

  /** A Read with something to hand over returns as much of the front frame as it was asked for, in its own steps. */
  lemma ReadServes(s: Bus, i: nat) returns (s': Bus)
    requires i < |s.go| && s.go[i].Reading? && Readable(s.chan)
    ensures Enabled(s, GoStep(i, true))
    ensures s' == Do(s, GoStep(i, true)) || (
      Enabled(Do(s, GoStep(i, true)), GoStep(i, true)) && s' == Do(Do(s, GoStep(i, true)), GoStep(i, true)))
    ensures var front := FrontFrame(s.chan);
      |s'.go| == |s.go| && s'.go[i] == ReadReturned(front[..Min(s.go[i].want, |front|)])
  {
    var want := s.go[i].want;
    ServeReadFillsTheBuffer(s.chan, want);
    var r := ServeRead(s.chan, want);
    hide ServeRead;
    s' := Do(s, GoStep(i, true));
    if r.grant > 0 {
      s' := Do(s', GoStep(i, true));
    }
  }

  /** A Write with credit on an open channel sends its next chunk, if the transport takes it, in its own steps. */
  lemma WriteSends(s: Bus, i: nat) returns (s': Bus)
    requires i < |s.go| && s.go[i].Writing? && s.go[i].written < |s.go[i].p|
    requires !s.chan.closed && s.chan.credit > 0
    ensures Enabled(s, GoStep(i, true)) && Enabled(Do(s, GoStep(i, true)), GoStep(i, true))
    ensures s' == Do(Do(s, GoStep(i, true)), GoStep(i, true))
    ensures var p, written := s.go[i].p, s.go[i].written;
      && s'.out == s.out + [DataOut(ChunkAt(p, written))]
      && |s'.go| == |s.go| && s'.go[i] == Writing(p, written + |ChunkAt(p, written)|)
  {
    hide ChunkAt;
    s' := Do(Do(s, GoStep(i, true)), GoStep(i, true));
  }

  /** A Write ends with an error of the channel's only when it is closed, and then with the error of the close. */
  ghost predicate WritesEnd(s: Bus) {
    forall i :: 0 <= i < |s.go| && s.go[i].WriteReturned? && s.go[i].end.Ended? ==>
      s.chan.closed && s.go[i].end.err == s.chan.closeErr
  }

  // --- closes close ---------------------------------------------------------------------------

  /** A goroutine in or just before the lock section that closes the channel. */
  predicate AboutToClose(g: Goroutine) {
    g.Closing? || g.RemoteClosing?
  }

  ghost predicate ClosePending(s: Bus) {
    exists i :: 0 <= i < |s.go| && AboutToClose(s.go[i])
  }

  ghost predicate NotePending(s: Bus) {
    exists i :: 0 <= i < |s.go| && s.go[i].HostClosing?
  }

  predicate HasClosed(g: Goroutine) {
    g.CloseWaking? || g.CloseForgetting? || g.CloseNotifying? || g.RemoteWaking?
  }

  /** A note that was read has its goroutine, or has had the channel forgotten; and what is forgotten is closed, or about to be. */
  ghost predicate ClosesComing(s: Bus) {
    && (s.noteRead ==> !s.registered || NotePending(s))
    && (!s.registered ==> s.chan.closed || ClosePending(s))
    && (forall i :: 0 <= i < |s.go| && HasClosed(s.go[i]) ==> s.chan.closed)
    && (s.chan.closed <==> s.chan.closeErr.Some?)
    && WritesEnd(s)
  }

  /** Steps that leave the close, the registration and every closing goroutine as they are. */
  predicate NoClosing(s: Bus, s': Bus) {
    && s'.noteRead == s.noteRead && s'.registered == s.registered
    && s'.chan.closed == s.chan.closed && s'.chan.closeErr == s.chan.closeErr && |s.go| <= |s'.go|
    && (forall j :: 0 <= j < |s.go| && IsClosing(s.go[j]) ==> s'.go[j] == s.go[j])
    && (forall j :: 0 <= j < |s'.go| && HasClosed(s'.go[j]) ==> j < |s.go| && HasClosed(s.go[j]))
    && (forall j :: 0 <= j < |s'.go| && s'.go[j].WriteReturned? && s'.go[j].end.Ended? ==>
        (j < |s.go| && s'.go[j] == s.go[j]) || (s.chan.closed && s'.go[j].end.err == s.chan.closeErr))
  }

  lemma QuietComing(s: Bus, s': Bus)
    requires ClosesComing(s) && NoClosing(s, s')
    ensures ClosesComing(s')
  {
    if i :| 0 <= i < |s.go| && AboutToClose(s.go[i]) {
      assert AboutToClose(s'.go[i]);
    }
    if i :| 0 <= i < |s.go| && s.go[i].HostClosing? {
      assert s'.go[i].HostClosing?;
    }
  }

  lemma ReadComing(s: Bus, i: nat)
    requires ClosesComing(s) && i < |s.go| && s.go[i].Reading?
    ensures ClosesComing(ReadSection(s, i))
  {
    hide ClosesComing, ServeRead;
    if Readable(s.chan) {
      ServeReadLeavesTheRest(s.chan, s.go[i].want);
    }
    QuietComing(s, ReadSection(s, i));
  }

  lemma PayComing(s: Bus, i: nat)
    requires ClosesComing(s) && i < |s.go| && s.go[i].Writing?
    ensures ClosesComing(PaySection(s, i))
  {
    hide ClosesComing;
    QuietComing(s, PaySection(s, i));
  }

  lemma RpcComing(s: Bus, i: nat, ok: bool)
    requires ClosesComing(s) && i < |s.go|
    ensures s.go[i].Granting? ==> ClosesComing(GrantRpc(s, i, ok))
    ensures s.go[i].Sending? ==> ClosesComing(SendRpc(s, i, ok))
  {
    hide ClosesComing, ChunkAt;
    if s.go[i].Granting? {
      QuietComing(s, GrantRpc(s, i, ok));
    } else if s.go[i].Sending? {
      QuietComing(s, SendRpc(s, i, ok));
    }
  }

  lemma CloseComing(s: Bus, i: nat, ok: bool)
    requires ClosesComing(s) && i < |s.go| && IsClosing(s.go[i])
    ensures ClosesComing(CloseStep(s, i, ok))
  {
    var s' := CloseStep(s, i, ok);
    CloseStepMoves(s, i, ok);
    if j :| 0 <= j < |s.go| && j != i && AboutToClose(s.go[j]) {
      assert AboutToClose(s'.go[j]);
    }
    if j :| 0 <= j < |s.go| && j != i && s.go[j].HostClosing? {
      assert s'.go[j].HostClosing?;
    }
    if AboutToClose(s'.go[i]) {
      assert ClosePending(s');
    }
    forall j | 0 <= j < |s'.go| && s'.go[j].WriteReturned? && s'.go[j].end.Ended?
      ensures s.go[j] == s'.go[j]
    {
      assert j != i;
    }
  }

  lemma NoteComing(s: Bus)
    requires ClosesComing(s) && s.reader == Idle && s.wire != [] && s.wire[0].CloseNote?
    ensures ClosesComing(TakeFrame(s))
  {
    var s' := TakeFrame(s);
    assert s'.go[|s.go|].HostClosing?;
    if i :| 0 <= i < |s.go| && AboutToClose(s.go[i]) {
      assert AboutToClose(s'.go[i]);
    }
  }

  lemma ReaderComing(s: Bus)
    requires ClosesComing(s) && (s.reader != Idle || (s.wire != [] && !s.wire[0].CloseNote?))
    ensures ClosesComing(Do(s, ReaderStep))
  {
    hide ClosesComing;
    QuietComing(s, Do(s, ReaderStep));
  }

  lemma OtherComing(s: Bus, a: Action)
    requires ClosesComing(s) && Enabled(s, a) && !a.GoStep? && !a.ReaderStep?
    ensures ClosesComing(Do(s, a))
  {
    hide ClosesComing;
    QuietComing(s, Do(s, a));
  }

  lemma NextComing(s: Bus, s': Bus)
    requires ClosesComing(s) && Next(s, s')
    ensures ClosesComing(s')
  {
    hide ClosesComing, ReadSection, GrantRpc, PaySection, SendRpc, CloseStep, TakeFrame, HandleFrame;
    var a :| Enabled(s, a) && s' == Do(s, a);
    if a.ReaderStep? {
      if s.reader == Idle && s.wire[0].CloseNote? { NoteComing(s); } else { ReaderComing(s); }
    } else if !a.GoStep? {
      OtherComing(s, a);
    } else if IsClosing(s.go[a.i]) {
      CloseComing(s, a.i, a.ok);
    } else if s.go[a.i].Reading? {
      ReadComing(s, a.i);
    } else if s.go[a.i].Writing? {
      PayComing(s, a.i);
    } else {
      RpcComing(s, a.i, a.ok);
    }
  }

  lemma {:induction false} AllComing(run: seq<Bus>, k: nat)
    requires Runs.IsRun(Init, Next, run) && k < |run|
    ensures ClosesComing(run[k])
  {
    if k > 0 {
      AllComing(run, k - 1);
      NextComing(run[k - 1], run[k - 1 + 1]);
    }
  }

  /**
   A close note takes effect: once it was read and no closing goroutine is left, the channel is
   forgotten and closed. So is one that CloseAll has forgotten.
   */
  lemma NotesTakeEffect(run: seq<Bus>, k: nat)
    requires Runs.IsRun(Init, Next, run) && k < |run|
    requires forall i :: 0 <= i < |run[k].go| ==> !IsClosing(run[k].go[i])
    ensures run[k].noteRead ==> run[k].chan.closed && !run[k].registered
    ensures !run[k].registered ==> run[k].chan.closed
  {
    AllComing(run, k);
  }

  /** A Write that failed on a close failed with the error of the close. */
  lemma WritesEndWithTheClose(run: seq<Bus>, k: nat, i: nat)
    requires Runs.IsRun(Init, Next, run) && k < |run| && i < |run[k].go|
    requires run[k].go[i].WriteReturned? && run[k].go[i].end.Ended?
    ensures run[k].chan.closed && run[k].go[i].end.err == run[k].chan.closeErr && run[k].chan.closeErr.Some?
  {
    AllComing(run, k);
  }

  /** The lock section of a close closes: the first with its own error, a later one changing nothing. */
  lemma ClosingCloses(s: Bus, i: nat, ok: bool)
    requires i < |s.go| && AboutToClose(s.go[i])
    ensures var s' := CloseStep(s, i, ok);
      && s'.chan.closed && (s.chan.closed ==> s'.chan == s.chan)
      && (!s.chan.closed && s.go[i].Closing? ==> s'.chan.closeErr == Some(ChannelClosed))
      && (!s.chan.closed && s.go[i].RemoteClosing? && |s.go[i].reason| > 0 ==>
        s'.chan.closeErr == Some(ChannelClosedFor(s.go[i].reason)))
  {
  }
}
