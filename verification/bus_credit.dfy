/** The outbound window: no frame leaves unpaid, and few leave after a close. */
module BusCredit {
  import opened Bytes
  import opened ChannelCore
  import opened BusSteps
  import opened Totals
  import Runs

  /** A writer past awaitCredit that has neither sent its frame nor failed to. */
  function PastCredit(g: Goroutine): nat {
    if g.Sending? then 1 else 0
  }

  // --- credits and frames ------------------------------------------------------------

  /** The window counter holds what was granted and not paid, to 32 bits; what was paid was sent, lost, or is about to be. */
  ghost predicate Paying(s: Bus) {
    && s.paid <= s.granted && s.chan.credit == (s.granted - s.paid) % WORD_RANGE
    && s.paid == |s.sent| + s.failedSends + Total(PastCredit, s.go)
  }

  lemma PaySectionPays(s: Bus, i: nat)
    requires Paying(s) && i < |s.go| && s.go[i].Writing?
    ensures Paying(PaySection(s, i))
  {
    hide Total;
    TotalUpdate(PastCredit, s.go, i, PaySection(s, i).go[i]);
  }

  lemma SendRpcPays(s: Bus, i: nat, ok: bool)
    requires Paying(s) && i < |s.go| && s.go[i].Sending?
    ensures Paying(SendRpc(s, i, ok))
  {
    hide Total, ChunkAt;
    TotalUpdate(PastCredit, s.go, i, SendRpc(s, i, ok).go[i]);
  }

  /** Steps that neither pay, nor send, nor move a writer across awaitCredit. */
  lemma QuietPays(s: Bus, s': Bus)
    requires Paying(s) && s'.paid == s.paid && s'.sent == s.sent && s'.failedSends == s.failedSends
    requires s'.granted == s.granted && s'.chan.credit == s.chan.credit
    requires |s.go| == |s'.go| && forall j :: 0 <= j < |s.go| ==> PastCredit(s.go[j]) == PastCredit(s'.go[j])
    ensures Paying(s')
  {
    hide Total;
    TotalSame(PastCredit, s.go, s'.go);
  }

  lemma WakePays(s: Bus)
    requires Paying(s)
    ensures Paying(s.(go := WakeAll(s.go)))
  {
    QuietPays(s, s.(go := WakeAll(s.go)));
  }

  lemma TakeFramePays(s: Bus)
    requires Paying(s) && s.reader == Idle && s.wire != []
    ensures Paying(TakeFrame(s))
  {
    hide Total;
    if s.wire[0].CloseNote? {
      TotalSnoc(PastCredit, s.go, HostClosing(s.wire[0].reason));
    }
  }

  lemma HandleFramePays(s: Bus)
    requires Paying(s) && s.reader != Idle
    ensures Paying(HandleFrame(s))
  {
    hide Total;
    if s.reader.DataWaking? || s.reader.CreditWaking? {
      WakePays(s);
    }
  }

  lemma ReadSectionPays(s: Bus, i: nat)
    requires Paying(s) && i < |s.go| && s.go[i].Reading?
    ensures Paying(ReadSection(s, i))
  {
    hide Paying, ServeRead;
    if Readable(s.chan) {
      ServeReadLeavesTheRest(s.chan, s.go[i].want);
    }
    QuietPays(s, ReadSection(s, i));
  }

  lemma GrantRpcPays(s: Bus, i: nat, ok: bool)
    requires Paying(s) && i < |s.go| && s.go[i].Granting?
    ensures Paying(GrantRpc(s, i, ok))
  {
    QuietPays(s, GrantRpc(s, i, ok));
  }

  lemma CloseStepPays(s: Bus, i: nat, ok: bool)
    requires Paying(s) && i < |s.go| && IsClosing(s.go[i])
    ensures Paying(CloseStep(s, i, ok))
  {
    hide Paying, CloseStep;
    CloseStepMoves(s, i, ok);
    CloseStepLeaves(s, i, ok);
    QuietPays(s, CloseStep(s, i, ok));
  }

  lemma StepPays(s: Bus, a: Action)
    requires Paying(s) && Enabled(s, a)
    ensures Paying(Do(s, a))
  {
    hide Paying, CloseStep, ReadSection, GrantRpc, PaySection, SendRpc, TakeFrame, HandleFrame;
    match a
    case GoStep(i, ok) =>
      if s.go[i].Writing? { PaySectionPays(s, i); }
      else if s.go[i].Sending? { SendRpcPays(s, i, ok); }
      else if s.go[i].Reading? { ReadSectionPays(s, i); }
      else if s.go[i].Granting? { GrantRpcPays(s, i, ok); }
      else { CloseStepPays(s, i, ok); }
    case ReaderStep => if s.reader == Idle { TakeFramePays(s); } else { HandleFramePays(s); }
    case Spawn(call) => SpawnPays(s, call);
    case _ => QuietPays(s, Do(s, a));
  }

  lemma SpawnPays(s: Bus, call: Goroutine)
    requires Paying(s) && Startable(call)
    ensures Paying(Do(s, Spawn(call)))
  {
    TotalSnoc(PastCredit, s.go, call);
  }

  lemma NextPays(s: Bus, s': Bus)
    requires Paying(s) && Next(s, s')
    ensures Paying(s')
  {
    hide Paying;
    var a :| Enabled(s, a) && s' == Do(s, a);
    StepPays(s, a);
  }

  lemma {:induction false} CreditConserved(run: seq<Bus>, k: nat)
    requires Runs.IsRun(Init, Next, run) && k < |run|
    ensures Paying(run[k])
  {
    if k > 0 {
      CreditConserved(run, k - 1);
      NextPays(run[k - 1], run[k - 1 + 1]);
    }
  }

  /**
   Outbound safety: no frame is sent unpaid, and credit plus payments is all that was granted, exactly
   as long as what is granted and not yet paid fits the 32-bit counter.
   */
  lemma CreditSafety(run: seq<Bus>, k: nat)
    requires Runs.IsRun(Init, Next, run) && k < |run|
    ensures run[k].chan.credit + run[k].paid == run[k].granted <==> run[k].granted - run[k].paid < WORD_RANGE
    ensures |run[k].sent| <= run[k].paid <= run[k].granted
  {
    CreditConserved(run, k);
  }

  // --- after a close --------------------------------------------------------------------

  /** A closed channel stays closed with the same error, and lets no more writers through. */
  predicate ClosedForGood(s: Bus, s': Bus) {
    s.chan.closed ==>
      && s'.chan.closed && s'.chan.closeErr == s.chan.closeErr && s'.closer == s.closer
      && s'.paid == s.paid && s'.failedSends >= s.failedSends
  }

  lemma CallClosedForGood(s: Bus, i: nat, ok: bool)
    requires i < |s.go|
    ensures s.go[i].Reading? ==> ClosedForGood(s, ReadSection(s, i))
    ensures s.go[i].Granting? ==> ClosedForGood(s, GrantRpc(s, i, ok))
    ensures s.go[i].Writing? ==> ClosedForGood(s, PaySection(s, i))
    ensures s.go[i].Sending? ==> ClosedForGood(s, SendRpc(s, i, ok))
  {
    hide ChunkAt, ServeRead;
    if s.go[i].Reading? && Readable(s.chan) {
      ServeReadLeavesTheRest(s.chan, s.go[i].want);
    }
  }

  lemma CloseClosedForGood(s: Bus, i: nat, ok: bool)
    requires i < |s.go| && IsClosing(s.go[i])
    ensures ClosedForGood(s, CloseStep(s, i, ok))
  {
  }

  lemma OtherClosedForGood(s: Bus, a: Action)
    requires Enabled(s, a) && !a.GoStep?
    ensures ClosedForGood(s, Do(s, a))
  {
  }

  lemma StepClosedForGood(s: Bus, a: Action)
    requires Enabled(s, a)
    ensures ClosedForGood(s, Do(s, a))
  {
    hide ClosedForGood, CloseStep, ReadSection, GrantRpc, PaySection, SendRpc;
    if !a.GoStep? {
      OtherClosedForGood(s, a);
    } else if IsClosing(s.go[a.i]) {
      CloseClosedForGood(s, a.i, a.ok);
    } else {
      CallClosedForGood(s, a.i, a.ok);
    }
  }

  lemma NextClosedForGood(s: Bus, s': Bus)
    requires Next(s, s')
    ensures ClosedForGood(s, s')
  {
    hide ClosedForGood;
    var a :| Enabled(s, a) && s' == Do(s, a);
    StepClosedForGood(s, a);
  }

  lemma {:induction false} CloseIsFinal(run: seq<Bus>, i: nat, j: nat)
    requires Runs.IsRun(Init, Next, run) && i <= j < |run|
    ensures ClosedForGood(run[i], run[j])
    decreases j
  {
    hide Do, Enabled;
    if i < j {
      CloseIsFinal(run, i, j - 1);
      NextClosedForGood(run[j - 1], run[j - 1 + 1]);
    }
  }

  /** Frames sent after a close are at most the writers that were already past awaitCredit. */
  lemma SentAfterClose(run: seq<Bus>, i: nat, j: nat)
    requires Runs.IsRun(Init, Next, run) && i <= j < |run| && run[i].chan.closed
    ensures |run[j].sent| <= |run[i].sent| + Total(PastCredit, run[i].go)
  {
    CloseIsFinal(run, i, j);
    CreditConserved(run, i);
    CreditConserved(run, j);
  }
}
