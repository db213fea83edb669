/** Closing from either side, in any interleaving, happens exactly once. */
module BusClose {
  import opened Bytes
  import opened ChannelCore
  import opened BusSteps
  import opened BusCredit
  import opened Totals
  import Runs

  /** A Close that won, and has its notification still to make. */
  function NotifyDue(g: Goroutine): nat {
    if g.CloseWaking? || g.CloseForgetting? || g.CloseNotifying? then 1 else 0
  }

  /** A Close that won, and has not yet taken the channel out of the map. */
  predicate ForgetDue(g: Goroutine) {
    g.CloseWaking? || g.CloseForgetting?
  }

  ghost predicate Forgetting(s: Bus) {
    exists i :: 0 <= i < |s.go| && ForgetDue(s.go[i])
  }

  ghost predicate ClosesOnce(s: Bus) {
    && (s.chan.closed <==> s.closer != NotClosed)
    && (s.chan.closed <==> s.chan.closeErr.Some?)
    && (s.closer == ByPlugin ==> s.chan.closeErr == Some(ChannelClosed))
    && s.notices + Total(NotifyDue, s.go) == (if s.closer == ByPlugin then 1 else 0)
    && (forall i :: 0 <= i < |s.go| && (s.go[i].RemoteClosing? || s.go[i].RemoteWaking?) ==> !s.registered)
    && (s.chan.closed && s.registered ==> Forgetting(s))
  }

  /** Steps that leave the close and its bookkeeping alone. */
  lemma QuietCloses(s: Bus, s': Bus)
    requires ClosesOnce(s) && s'.closer == s.closer && s'.notices == s.notices && s'.registered == s.registered
    requires s'.chan.closed == s.chan.closed && s'.chan.closeErr == s.chan.closeErr && |s.go| == |s'.go|
    requires forall j :: 0 <= j < |s.go| ==>
      && NotifyDue(s.go[j]) == NotifyDue(s'.go[j]) && (ForgetDue(s.go[j]) <==> ForgetDue(s'.go[j]))
      && ((s.go[j].RemoteClosing? || s.go[j].RemoteWaking?) <==> (s'.go[j].RemoteClosing? || s'.go[j].RemoteWaking?))
    ensures ClosesOnce(s')
  {
    hide Total;
    TotalSame(NotifyDue, s.go, s'.go);
    if i :| 0 <= i < |s.go| && ForgetDue(s.go[i]) {
      assert ForgetDue(s'.go[i]);
    }
  }

  lemma AppendCloses(s: Bus, g: Goroutine)
    requires ClosesOnce(s) && NotifyDue(g) == 0 && !g.RemoteClosing? && !g.RemoteWaking?
    ensures ClosesOnce(s.(go := s.go + [g]))
  {
    hide Total;
    var s' := s.(go := s.go + [g]);
    TotalSnoc(NotifyDue, s.go, g);
    if i :| 0 <= i < |s.go| && ForgetDue(s.go[i]) {
      assert ForgetDue(s'.go[i]);
    }
  }

  lemma WakeCloses(s: Bus)
    requires ClosesOnce(s)
    ensures ClosesOnce(s.(go := WakeAll(s.go)))
  {
    QuietCloses(s, s.(go := WakeAll(s.go)));
  }

  /** A closing step, once any Broadcast it makes is done. */
  lemma CloseMoveCloses(s: Bus, i: nat, ok: bool)
    requires ClosesOnce(s) && i < |s.go| && IsClosing(s.go[i])
    requires !s.go[i].CloseWaking? && !s.go[i].RemoteWaking?
    ensures ClosesOnce(CloseStep(s, i, ok))
  {
    hide Total;
    var s' := CloseStep(s, i, ok);
    TotalUpdate(NotifyDue, s.go, i, s'.go[i]);
    if s'.chan.closed && s'.registered {
      if ForgetDue(s'.go[i]) {
        assert Forgetting(s');
      } else {
        var j :| 0 <= j < |s.go| && ForgetDue(s.go[j]);
        assert ForgetDue(s'.go[j]);
      }
    }
  }

  lemma CloseWakingCloses(s: Bus, i: nat, ok: bool)
    requires ClosesOnce(s) && i < |s.go| && (s.go[i].CloseWaking? || s.go[i].RemoteWaking?)
    ensures ClosesOnce(CloseStep(s, i, ok))
  {
    hide Total;
    var t := s.(go := WakeAll(s.go));
    WakeCloses(s);
    var s' := CloseStep(s, i, ok);
    TotalUpdate(NotifyDue, t.go, i, s'.go[i]);
    if s'.chan.closed && s'.registered {
      var j :| 0 <= j < |t.go| && ForgetDue(t.go[j]);
      assert ForgetDue(s'.go[j]);
    }
  }

  lemma ReadSectionCloses(s: Bus, i: nat)
    requires ClosesOnce(s) && i < |s.go| && s.go[i].Reading?
    ensures ClosesOnce(ReadSection(s, i))
  {
    hide ClosesOnce, ServeRead;
    if Readable(s.chan) {
      ServeReadLeavesTheRest(s.chan, s.go[i].want);
    }
    QuietCloses(s, ReadSection(s, i));
  }

  lemma PaySectionCloses(s: Bus, i: nat)
    requires ClosesOnce(s) && i < |s.go| && s.go[i].Writing?
    ensures ClosesOnce(PaySection(s, i))
  {
    hide ClosesOnce;
    QuietCloses(s, PaySection(s, i));
  }

  lemma RpcCloses(s: Bus, i: nat, ok: bool)
    requires ClosesOnce(s) && i < |s.go|
    ensures s.go[i].Granting? ==> ClosesOnce(GrantRpc(s, i, ok))
    ensures s.go[i].Sending? ==> ClosesOnce(SendRpc(s, i, ok))
  {
    hide ClosesOnce, ChunkAt;
    if s.go[i].Granting? {
      QuietCloses(s, GrantRpc(s, i, ok));
    } else if s.go[i].Sending? {
      QuietCloses(s, SendRpc(s, i, ok));
    }
  }

  lemma ReaderCloses(s: Bus)
    requires ClosesOnce(s) && (s.reader != Idle || s.wire != [])
    ensures ClosesOnce(Do(s, ReaderStep))
  {
    hide ClosesOnce;
    var s' := Do(s, ReaderStep);
    if s.reader == Idle && s.wire[0].CloseNote? {
      AppendCloses(s, HostClosing(s.wire[0].reason));
      QuietCloses(s.(go := s'.go), s');
    } else {
      QuietCloses(s, s');
    }
  }

  lemma StepCloses(s: Bus, a: Action)
    requires ClosesOnce(s) && Enabled(s, a)
    ensures ClosesOnce(Do(s, a))
  {
    hide ClosesOnce, CloseStep, ReadSection, GrantRpc, PaySection, SendRpc, TakeFrame, HandleFrame;
    match a
    case GoStep(i, ok) =>
      if s.go[i].CloseWaking? || s.go[i].RemoteWaking? { CloseWakingCloses(s, i, ok); }
      else if IsClosing(s.go[i]) { CloseMoveCloses(s, i, ok); }
      else if s.go[i].Reading? { ReadSectionCloses(s, i); }
      else if s.go[i].Writing? { PaySectionCloses(s, i); }
      else { RpcCloses(s, i, ok); }
    case ReaderStep => ReaderCloses(s);
    case Spawn(call) => AppendCloses(s, call);
    case _ => QuietCloses(s, Do(s, a));
  }

  lemma NextCloses(s: Bus, s': Bus)
    requires ClosesOnce(s) && Next(s, s')
    ensures ClosesOnce(s')
  {
    hide ClosesOnce;
    var a :| Enabled(s, a) && s' == Do(s, a);
    StepCloses(s, a);
  }

  lemma {:induction false} ClosesAreBalanced(run: seq<Bus>, k: nat)
    requires Runs.IsRun(Init, Next, run) && k < |run|
    ensures ClosesOnce(run[k])
  {
    if k > 0 {
      ClosesAreBalanced(run, k - 1);
      NextCloses(run[k - 1], run[k - 1 + 1]);
    }
  }

  /**
   Once closed, always closed, with the error the first close gave. The host is told at most once,
   and never about a close of its own; when the plugin's close won and its goroutine is through, it
   was told exactly once. With no winning Close left to forget it, a closed channel is out of the map.
   */
  lemma ClosedExactlyOnce(run: seq<Bus>, i: nat, j: nat)
    requires Runs.IsRun(Init, Next, run) && i <= j < |run|
    ensures run[j].chan.closed <==> run[j].chan.closeErr.Some?
    ensures run[i].chan.closed ==>
      run[j].chan.closed && run[j].chan.closeErr == run[i].chan.closeErr && run[j].closer == run[i].closer
    ensures run[j].notices <= 1 && (run[j].notices == 1 ==> run[j].closer == ByPlugin)
    ensures run[j].closer == ByPlugin && Total(NotifyDue, run[j].go) == 0 ==> run[j].notices == 1
    ensures run[j].chan.closed && !Forgetting(run[j]) ==> !run[j].registered
  {
    CloseIsFinal(run, i, j);
    ClosesAreBalanced(run, j);
  }
}
