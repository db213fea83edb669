/** No lost wake-up: nobody sleeps through the change it was waiting for. */
module BusWakeup {
  import opened ChannelCore
  import opened BusSteps
  import opened Totals
  import Runs

  predicate OwesBroadcast(g: Goroutine) {
    g.CloseWaking? || g.RemoteWaking?
  }

  /** Some goroutine, or the frame reader, is past a locked update and has its Broadcast still to make. */
  ghost predicate BroadcastDue(s: Bus) {
    s.reader.DataWaking? || s.reader.CreditWaking? || exists i :: 0 <= i < |s.go| && OwesBroadcast(s.go[i])
  }

  /** The call sleeps although what it waits for has happened. */
  predicate Overslept(c: Chan, g: Goroutine) {
    (g.ReadAsleep? && !ReadMustWait(c)) || (g.WriteAsleep? && !WriteMustWait(c))
  }

  ghost predicate NoneLost(s: Bus) {
    forall i :: 0 <= i < |s.go| && Overslept(s.chan, s.go[i]) ==> BroadcastDue(s)
  }

  /** A step that makes no sleeper's condition come true and ends no owed Broadcast keeps the property. */
  lemma QuietMove(s: Bus, s': Bus, i: nat)
    requires NoneLost(s) && i < |s.go| && !OwesBroadcast(s.go[i])
    requires s'.reader == s.reader && |s'.go| == |s.go|
    requires forall j :: 0 <= j < |s.go| && j != i ==> s'.go[j] == s.go[j]
    requires !Overslept(s'.chan, s'.go[i])
    requires ReadMustWait(s.chan) ==> ReadMustWait(s'.chan)
    requires WriteMustWait(s.chan) ==> WriteMustWait(s'.chan)
    ensures NoneLost(s')
  {
    forall j | 0 <= j < |s'.go| && Overslept(s'.chan, s'.go[j]) ensures BroadcastDue(s') {
      assert Overslept(s.chan, s.go[j]);
      if k :| 0 <= k < |s.go| && OwesBroadcast(s.go[k]) {
        assert OwesBroadcast(s'.go[k]);
      }
    }
  }

  lemma ReadSectionLosesNone(s: Bus, i: nat)
    requires NoneLost(s) && i < |s.go| && s.go[i].Reading?
    ensures NoneLost(ReadSection(s, i))
  {
    QuietMove(s, ReadSection(s, i), i);
  }

  lemma PaySectionLosesNone(s: Bus, i: nat)
    requires NoneLost(s) && i < |s.go| && s.go[i].Writing?
    ensures NoneLost(PaySection(s, i))
  {
    QuietMove(s, PaySection(s, i), i);
  }

  lemma RpcLosesNone(s: Bus, i: nat, ok: bool)
    requires NoneLost(s) && i < |s.go|
    ensures s.go[i].Granting? ==> NoneLost(GrantRpc(s, i, ok))
    ensures s.go[i].Sending? ==> NoneLost(SendRpc(s, i, ok))
  {
    hide ChunkAt;
    if s.go[i].Granting? {
      QuietMove(s, GrantRpc(s, i, ok), i);
    } else if s.go[i].Sending? {
      QuietMove(s, SendRpc(s, i, ok), i);
    }
  }

  lemma CloseLosesNone(s: Bus, i: nat, ok: bool)
    requires NoneLost(s) && i < |s.go| && IsClosing(s.go[i])
    ensures NoneLost(CloseStep(s, i, ok))
  {
    var s' := CloseStep(s, i, ok);
    if OwesBroadcast(s'.go[i]) {
      assert BroadcastDue(s');
    } else if !OwesBroadcast(s.go[i]) {
      QuietMove(s, s', i);
    }
  }

  /** Outside the calls: more calls, more wire, or the frame reader between its own lock sections. */
  lemma OtherLosesNone(s: Bus, s': Bus)
    requires NoneLost(s) && s.go <= s'.go
    requires forall j :: |s.go| <= j < |s'.go| ==> !Asleep(s'.go[j])
    requires s.reader.DataWaking? || s.reader.CreditWaking? ==> s'.reader == s.reader
    requires s'.chan == s.chan || s'.reader.DataWaking? || s'.reader.CreditWaking?
    ensures NoneLost(s')
  {
    forall j | 0 <= j < |s'.go| && Overslept(s'.chan, s'.go[j]) ensures BroadcastDue(s') {
      if s'.chan == s.chan {
        assert Overslept(s.chan, s.go[j]);
        if k :| 0 <= k < |s.go| && OwesBroadcast(s.go[k]) {
          assert OwesBroadcast(s'.go[k]);
        }
      }
    }
  }

  lemma HandleFrameLosesNone(s: Bus)
    requires NoneLost(s) && s.reader != Idle
    ensures NoneLost(HandleFrame(s))
  {
    if !s.reader.DataWaking? && !s.reader.CreditWaking? {
      OtherLosesNone(s, HandleFrame(s));
    }
  }

  lemma StepLosesNone(s: Bus, a: Action)
    requires NoneLost(s) && Enabled(s, a)
    ensures NoneLost(Do(s, a))
  {
    match a
    case GoStep(i, ok) =>
      if s.go[i].Reading? { ReadSectionLosesNone(s, i); }
      else if s.go[i].Writing? { PaySectionLosesNone(s, i); }
      else if s.go[i].Granting? || s.go[i].Sending? { RpcLosesNone(s, i, ok); }
      else { CloseLosesNone(s, i, ok); }
    case ReaderStep =>
      if s.reader == Idle { OtherLosesNone(s, TakeFrame(s)); } else { HandleFrameLosesNone(s); }
    case _ => OtherLosesNone(s, Do(s, a));
  }

  lemma NextLosesNone(s: Bus, s': Bus)
    requires NoneLost(s) && Next(s, s')
    ensures NoneLost(s')
  {
    var a :| Enabled(s, a) && s' == Do(s, a);
    StepLosesNone(s, a);
  }

  lemma {:induction false} NoLostWakeup(run: seq<Bus>, k: nat)
    requires Runs.IsRun(Init, Next, run) && k < |run|
    ensures NoneLost(run[k])
  {
    if k > 0 {
      NoLostWakeup(run, k - 1);
      NextLosesNone(run[k - 1], run[k - 1 + 1]);
    }
  }

  /** The action can be taken now, and call i is asleep before it and awake after it. */
  ghost predicate Wakes(s: Bus, a: Action, i: nat) {
    && Enabled(s, a) && i < |s.go| == |Do(s, a).go|
    && Asleep(s.go[i]) && Do(s, a).go[i] == Woken(s.go[i])
  }

  lemma ReaderWakes(s: Bus, i: nat)
    requires (s.reader.DataWaking? || s.reader.CreditWaking?) && i < |s.go| && Asleep(s.go[i])
    ensures Wakes(s, ReaderStep, i)
  {
  }

  lemma CloserWakes(s: Bus, j: nat, i: nat)
    requires j < |s.go| && OwesBroadcast(s.go[j]) && i < |s.go| && Asleep(s.go[i])
    ensures Wakes(s, GoStep(j, true), i)
  {
  }

  /**
   In every reachable state, a sleeper whose condition has come true can be woken at once: the
   Broadcast that does it is still to come and is enabled.
   */
  lemma SleeperCanWake(run: seq<Bus>, k: nat, i: nat) returns (broadcast: Action)
    requires Runs.IsRun(Init, Next, run) && k < |run|
    requires i < |run[k].go| && Overslept(run[k].chan, run[k].go[i])
    ensures Wakes(run[k], broadcast, i)
  {
    hide Wakes;
    NoLostWakeup(run, k);
    if run[k].reader.DataWaking? || run[k].reader.CreditWaking? {
      broadcast := ReaderStep;
      ReaderWakes(run[k], i);
    } else {
      var j :| 0 <= j < |run[k].go| && OwesBroadcast(run[k].go[j]);
      broadcast := GoStep(j, true);
      CloserWakes(run[k], j, i);
    }
  }

  /** A quiescent state: nobody has a step of their own left, so every call is asleep or over. */
  ghost predicate Quiescent(s: Bus) {
    s.reader == Idle && forall i :: 0 <= i < |s.go| ==> Asleep(s.go[i]) || Over(s.go[i])
  }

  /** No quiescent state has a reader asleep over data, a writer over credit, or anyone on a closed channel. */
  lemma QuiescenceIsHonest(run: seq<Bus>, k: nat, i: nat)
    requires Runs.IsRun(Init, Next, run) && k < |run| && Quiescent(run[k]) && i < |run[k].go|
    ensures run[k].go[i].ReadAsleep? ==> !Readable(run[k].chan) && !run[k].chan.closed
    ensures run[k].go[i].WriteAsleep? ==> run[k].chan.credit == 0 && !run[k].chan.closed
  {
    NoLostWakeup(run, k);
  }

  // --- a closed channel -------------------------------------------------------------------

  /**
   How far a call is from its end on a closed channel, where a Read still has what is queued to hand
   over, and a Write past awaitCredit one frame to send. A sleeper is further from it than when woken.
   */
  function Left(g: Goroutine): nat {
    match g
    case Reading(_) => 2
    case ReadAsleep(_) => 3
    case Granting(_, _) => 1
    case ReadReturned(_) => 0
    case ReadFailed(_) => 0
    case Writing(_, _) => 1
    case WriteAsleep(_, _) => 2
    case Sending(_, _) => 2
    case WriteReturned(_, _, _) => 0
    case Closing => 4
    case CloseWaking => 3
    case CloseForgetting => 2
    case CloseNotifying => 1
    case HostClosing(_) => 3
    case RemoteClosing(_) => 2
    case RemoteWaking => 1
    case ClosingAll => 5
    case Finished => 0
  }

  lemma WakingHelps(go: seq<Goroutine>)
    ensures Total(Left, WakeAll(go)) <= Total(Left, go)
  {
    TotalAtMost(Left, go, WakeAll(go));
  }

  lemma CallShrinks(s: Bus, i: nat, ok: bool)
    requires s.chan.closed && i < |s.go|
    ensures s.go[i].Reading? ==> Total(Left, ReadSection(s, i).go) < Total(Left, s.go)
    ensures s.go[i].Granting? ==> Total(Left, GrantRpc(s, i, ok).go) < Total(Left, s.go)
    ensures s.go[i].Writing? ==> Total(Left, PaySection(s, i).go) < Total(Left, s.go)
    ensures s.go[i].Sending? ==> Total(Left, SendRpc(s, i, ok).go) < Total(Left, s.go)
  {
    hide Total, ServeRead, ChunkAt;
    if s.go[i].Reading? { TotalUpdate(Left, s.go, i, ReadSection(s, i).go[i]); }
    else if s.go[i].Granting? { TotalUpdate(Left, s.go, i, GrantRpc(s, i, ok).go[i]); }
    else if s.go[i].Writing? { TotalUpdate(Left, s.go, i, PaySection(s, i).go[i]); }
    else if s.go[i].Sending? { TotalUpdate(Left, s.go, i, SendRpc(s, i, ok).go[i]); }
  }

  lemma CloseShrinks(s: Bus, i: nat, ok: bool)
    requires s.chan.closed && i < |s.go| && IsClosing(s.go[i])
    ensures Total(Left, CloseStep(s, i, ok).go) < Total(Left, s.go)
  {
    hide Total;
    var g := CloseStep(s, i, ok).go[i];
    TotalUpdate(Left, s.go, i, g);
    if s.go[i].CloseWaking? || s.go[i].RemoteWaking? {
      WakingHelps(s.go);
      TotalUpdate(Left, WakeAll(s.go), i, g);
    }
  }

  /**
   On a closed channel every call ends, however it was blocked: one that is not over has a step, or
   sleeps with the Broadcast that wakes it enabled, and each step of a call brings all of them
   together closer to the end.
   */
  lemma ClosedCallsEnd(run: seq<Bus>, k: nat)
    requires Runs.IsRun(Init, Next, run) && k < |run| && run[k].chan.closed
    ensures forall i :: 0 <= i < |run[k].go| && !Over(run[k].go[i]) ==>
      Enabled(run[k], GoStep(i, true)) || exists broadcast :: Wakes(run[k], broadcast, i)
    ensures forall i: nat, ok :: Enabled(run[k], GoStep(i, ok)) ==>
      Total(Left, Do(run[k], GoStep(i, ok)).go) < Total(Left, run[k].go)
  {
    hide Wakes, Total, ReadSection, GrantRpc, PaySection, SendRpc, CloseStep;
    forall i | 0 <= i < |run[k].go| && !Over(run[k].go[i])
      ensures Enabled(run[k], GoStep(i, true)) || exists broadcast :: Wakes(run[k], broadcast, i)
    {
      if Asleep(run[k].go[i]) {
        var broadcast := SleeperCanWake(run, k, i);
      }
    }
    forall i: nat, ok | Enabled(run[k], GoStep(i, ok))
      ensures Total(Left, Do(run[k], GoStep(i, ok)).go) < Total(Left, run[k].go)
    {
      if IsClosing(run[k].go[i]) { CloseShrinks(run[k], i, ok); } else { CallShrinks(run[k], i, ok); }
    }
  }
}
