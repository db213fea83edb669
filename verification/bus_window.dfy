/** The inbound window: every credit the host was given is accounted for, in every reachable state. */
module BusWindow {
  import opened Bytes
  import opened ChannelCore
  import opened BusSteps
  import opened Totals
  import BusWrites
  import Runs

  function DataFrames(m: HostMsg): nat {
    if m.Data? then 1 else 0
  }

  function GrantIn(m: PluginMsg): nat {
    if m.Grant? then m.credit else 0
  }

  /** Credit a Read has computed and not yet handed to the transport. */
  function Owed(g: Goroutine): nat {
    if g.Granting? then g.grant else 0
  }

  function InHand(r: FrameReader): nat {
    if r.HaveData? || r.FoundData? then 1 else 0
  }

  /** Credits on their way back to the host: computed by a Read, or already on the wire. */
  function GrantsUnderWay(s: Bus): nat {
    Total(Owed, s.go) + Total(GrantIn, s.out)
  }

  /** Data frames on their way in: on the wire, or in the frame reader's hands. */
  function FramesUnderWay(s: Bus): nat {
    Total(DataFrames, s.wire) + InHand(s.reader)
  }

  /**
   The window's books. The last two terms are the only leaks: frames that were not queued, which
   needs a closed or forgotten channel, and grants the transport refused.
   */
  ghost predicate Balanced(s: Bus) {
    && s.hostCredit + FramesUnderWay(s) + Held(s.chan) + GrantsUnderWay(s) + s.dropped + s.refused == INITIAL_CREDIT
    && s.chan.consumed <= 1
    && (s.dropped > 0 ==> s.chan.closed || !s.registered)
  }

  lemma OwedMove(s: Bus, i: nat, g: Goroutine)
    requires i < |s.go|
    ensures Total(Owed, s.go[i := g]) + Owed(s.go[i]) == Total(Owed, s.go) + Owed(g)
  {
    TotalUpdate(Owed, s.go, i, g);
  }

  lemma OwedWake(go: seq<Goroutine>)
    ensures Total(Owed, WakeAll(go)) == Total(Owed, go)
  {
    TotalSame(Owed, go, WakeAll(go));
  }

  lemma ReadSectionKeepsBalance(s: Bus, i: nat)
    requires Balanced(s) && i < |s.go| && s.go[i].Reading?
    ensures Balanced(ReadSection(s, i))
  {
    hide Total;
    OwedMove(s, i, ReadSection(s, i).go[i]);
    if Readable(s.chan) {
      ServeReadKeepsWindow(s.chan, s.go[i].want);
    }
  }

  lemma GrantRpcKeepsBalance(s: Bus, i: nat, ok: bool)
    requires Balanced(s) && i < |s.go| && s.go[i].Granting?
    ensures Balanced(GrantRpc(s, i, ok))
  {
    hide Total;
    OwedMove(s, i, ReadReturned(s.go[i].bytes));
    TotalSnoc(GrantIn, s.out, Grant(s.go[i].grant));
  }

  lemma PaySectionKeepsBalance(s: Bus, i: nat)
    requires Balanced(s) && i < |s.go| && s.go[i].Writing?
    ensures Balanced(PaySection(s, i))
  {
    hide Total;
    OwedMove(s, i, PaySection(s, i).go[i]);
  }

  lemma SendRpcKeepsBalance(s: Bus, i: nat, ok: bool)
    requires Balanced(s) && i < |s.go| && s.go[i].Sending?
    ensures Balanced(SendRpc(s, i, ok))
  {
    hide Total;
    OwedMove(s, i, SendRpc(s, i, ok).go[i]);
    TotalSnoc(GrantIn, s.out, DataOut(ChunkAt(s.go[i].p, s.go[i].written)));
  }

  lemma CloseKeepsBalance(s: Bus, i: nat, ok: bool)
    requires Balanced(s) && i < |s.go| && IsClosing(s.go[i])
    ensures Balanced(CloseStep(s, i, ok))
  {
    hide Total;
    var g := CloseStep(s, i, ok).go[i];
    OwedMove(s, i, g);
    if s.go[i].CloseWaking? || s.go[i].RemoteWaking? {
      OwedWake(s.go);
      OwedMove(s.(go := WakeAll(s.go)), i, g);
    }
    TotalSnoc(GrantIn, s.out, CloseOut);
  }

  lemma TakeFrameKeepsBalance(s: Bus)
    requires Balanced(s) && s.reader == Idle && s.wire != []
    ensures Balanced(TakeFrame(s))
  {
    assert Total(DataFrames, s.wire) == DataFrames(s.wire[0]) + Total(DataFrames, s.wire[1..]);
    if s.wire[0].CloseNote? {
      TotalSnoc(Owed, s.go, HostClosing(s.wire[0].reason));
    }
  }

  lemma HandleFrameKeepsBalance(s: Bus)
    requires Balanced(s) && s.reader != Idle
    ensures Balanced(HandleFrame(s))
  {
    hide Total;
    OwedWake(s.go);
  }

  lemma StepKeepsBalance(s: Bus, a: Action)
    requires Balanced(s) && Enabled(s, a)
    ensures Balanced(Do(s, a))
  {
    match a
    case Spawn(call) => TotalSnoc(Owed, s.go, call);
    case HostSend(payload) => TotalSnoc(DataFrames, s.wire, Data(payload));
    case HostGrant(credit) => TotalSnoc(DataFrames, s.wire, Credit(credit));
    case HostClose(reason) => TotalSnoc(DataFrames, s.wire, CloseNote(reason));
    case HostReceive =>
    case ReaderStep => if s.reader == Idle { TakeFrameKeepsBalance(s); } else { HandleFrameKeepsBalance(s); }
    case GoStep(i, ok) =>
      if s.go[i].Reading? { ReadSectionKeepsBalance(s, i); }
      else if s.go[i].Granting? { GrantRpcKeepsBalance(s, i, ok); }
      else if s.go[i].Writing? { PaySectionKeepsBalance(s, i); }
      else if s.go[i].Sending? { SendRpcKeepsBalance(s, i, ok); }
      else { CloseKeepsBalance(s, i, ok); }
  }

  lemma NextKeepsBalance(s: Bus, s': Bus)
    requires Balanced(s) && Next(s, s')
    ensures Balanced(s')
  {
    var a :| Enabled(s, a) && s' == Do(s, a);
    StepKeepsBalance(s, a);
  }

  /** The window's books balance in every state of every run, open or closed. */
  lemma {:induction false} WindowConserved(run: seq<Bus>, k: nat)
    requires Runs.IsRun(Init, Next, run) && k < |run|
    ensures Balanced(run[k])
  {
    if k > 0 {
      WindowConserved(run, k - 1);
      NextKeepsBalance(run[k - 1], run[k - 1 + 1]);
    }
  }

  /** Nothing is under way that would let the host send again, and it is out of credit. */
  ghost predicate HostIsStuck(s: Bus) {
    s.hostCredit == 0 && FramesUnderWay(s) == 0 && GrantsUnderWay(s) == 0
  }

  /**
   Flow control as the design promises it, on an open, registered channel. The host is out of credit
   with nothing under way while a Read would block only if the transport has refused grants for the
   whole window.
   */
  lemma WindowSafety(run: seq<Bus>, k: nat)
    requires Runs.IsRun(Init, Next, run) && k < |run|
    ensures |run[k].chan.inbound| <= INITIAL_CREDIT && run[k].chan.consumed <= 1
    ensures !run[k].chan.closed && run[k].registered ==>
      var s := run[k];
      && s.hostCredit + FramesUnderWay(s) + Held(s.chan) + GrantsUnderWay(s) == INITIAL_CREDIT - s.refused
      && (ReadMustWait(s.chan) && s.refused < INITIAL_CREDIT ==> !HostIsStuck(s))
  {
    WindowConserved(run, k);
    RefusedInHalves(run, k);
  }

  // --- when the host does get stuck ------------------------------------------------------

  lemma CallRefused(s: Bus, i: nat, ok: bool)
    requires i < |s.go|
    ensures s.go[i].Reading? ==> ReadSection(s, i).refused == s.refused
    ensures s.go[i].Writing? ==> PaySection(s, i).refused == s.refused
    ensures s.go[i].Sending? ==> SendRpc(s, i, ok).refused == s.refused
    ensures s.go[i].Granting? ==> GrantRpc(s, i, ok).refused == s.refused + (if ok then 0 else s.go[i].grant)
  {
    hide ServeRead, ChunkAt;
  }

  lemma OtherRefused(s: Bus, a: Action)
    requires Enabled(s, a) && !a.GoStep?
    ensures Do(s, a).refused == s.refused
  {
  }

  lemma NextRefused(s: Bus, s': Bus)
    requires BusWrites.Sendable(s) && Next(s, s')
    ensures s'.refused == s.refused || s'.refused == s.refused + INITIAL_CREDIT / 2
  {
    hide CloseStep, ReadSection, GrantRpc, PaySection, SendRpc, TakeFrame, HandleFrame;
    var a :| Enabled(s, a) && s' == Do(s, a);
    if !a.GoStep? { OtherRefused(s, a); }
    else if IsClosing(s.go[a.i]) { CloseStepLeaves(s, a.i, a.ok); }
    else { CallRefused(s, a.i, a.ok); }
  }

  /** Grants are all of half a window, so that is what refusals add up in. */
  lemma {:induction false} RefusedInHalves(run: seq<Bus>, k: nat)
    requires Runs.IsRun(Init, Next, run) && k < |run|
    ensures run[k].refused % (INITIAL_CREDIT / 2) == 0
  {
    hide Next, BusWrites.Sendable;
    if k > 0 {
      RefusedInHalves(run, k - 1);
      BusWrites.AllSendable(run, k - 1);
      NextRefused(run[k - 1], run[k - 1 + 1]);
    }
  }

  /**
   A refused grant is never repeated. While a Read would block on an open, registered channel, the
   host is stuck exactly when the refusals have used up the whole window.
   */
  lemma StuckExactly(run: seq<Bus>, k: nat)
    requires Runs.IsRun(Init, Next, run) && k < |run|
    requires !run[k].chan.closed && run[k].registered && ReadMustWait(run[k].chan)
    ensures HostIsStuck(run[k]) <==> run[k].refused == INITIAL_CREDIT
  {
    WindowConserved(run, k);
    RefusedInHalves(run, k);
  }

  lemma {:induction false} RefusalsStay(run: seq<Bus>, i: nat, j: nat)
    requires Runs.IsRun(Init, Next, run) && i <= j < |run|
    ensures run[i].refused <= run[j].refused
    decreases j
  {
    hide Next, Init, BusWrites.Sendable;
    if i < j {
      RefusalsStay(run, i, j - 1);
      BusWrites.AllSendable(run, j - 1);
      NextRefused(run[j - 1], run[j - 1 + 1]);
    }
  }

  /** From then on the host can send no data frame, and no Read will find any. */
  lemma StuckForGood(run: seq<Bus>, i: nat, j: nat)
    requires Runs.IsRun(Init, Next, run) && i <= j < |run| && run[i].refused == INITIAL_CREDIT
    ensures HostIsStuck(run[j]) && !Readable(run[j].chan)
  {
    RefusalsStay(run, i, j);
    WindowConserved(run, j);
  }

  ghost predicate Reached(s: Bus) {
    Runs.Reaches(Init, Next, s)
  }

  lemma Step(s: Bus, a: Action) returns (s': Bus)
    requires Reached(s) && Enabled(s, a)
    ensures s' == Do(s, a) && Reached(s')
  {
    s' := Do(s, a);
    Runs.OneMore(Init, Next, s, s');
  }

  /** An open, registered channel with nothing in it and nobody at work. */
  ghost predicate Empty(s: Bus) {
    && Reached(s) && !s.chan.closed && s.registered && s.reader == Idle && s.wire == [] && s.out == []
    && ReadMustWait(s.chan) && forall i :: 0 <= i < |s.go| ==> Over(s.go[i])
  }

  /** One frame comes in and is queued. */
  lemma DeliverOne(s: Bus) returns (s': Bus)
    requires Empty(s) && s.hostCredit > 0
    ensures Reached(s') && s' == s.(hostCredit := s.hostCredit - 1, wireBytes := s'.wireBytes, accepted := s'.accepted,
      chan := s.chan.(inbound := [[0]]))
  {
    hide Reached;
    s' := Step(s, HostSend([0]));
    s' := Step(s', ReaderStep);
    s' := Step(s', ReaderStep);
    s' := Step(s', ReaderStep);
    assert WakeAll(s'.go) == s'.go;
    s' := Step(s', ReaderStep);
  }

  /** One Read takes it all, and any grant it owes is refused. */
  lemma ReadOneRefused(s: Bus) returns (s': Bus)
    requires Reached(s) && !s.chan.closed && s.registered && s.reader == Idle && s.wire == [] && s.out == []
    requires s.chan.inbound == [[0]] && s.chan.pending == [] && s.chan.consumed <= 1
    requires forall i :: 0 <= i < |s.go| ==> Over(s.go[i])
    ensures Empty(s') && s'.hostCredit == s.hostCredit
    ensures s'.chan.consumed == 1 - s.chan.consumed
    ensures s'.refused == s.refused + if s.chan.consumed == 1 then 2 else 0
  {
    hide Reached;
    var i := |s.go|;
    s' := Step(s, Spawn(Reading(1)));
    var r := ServeRead(s.chan, 1);
    assert r.chan.inbound == [] && r.chan.pending == [] && r.chan.consumed == 1 - s.chan.consumed;
    assert r.grant == if s.chan.consumed == 1 then 2 else 0;
    s' := Step(s', GoStep(i, true));
    if s.chan.consumed == 1 {
      s' := Step(s', GoStep(i, false));
    }
  }

  lemma RefusedRound(s: Bus) returns (s': Bus)
    requires Empty(s) && s.hostCredit > 0 && s.chan.consumed <= 1
    ensures Empty(s') && s'.hostCredit == s.hostCredit - 1
    ensures s'.chan.consumed == 1 - s.chan.consumed
    ensures s'.refused == s.refused + if s.chan.consumed == 1 then 2 else 0
  {
    hide Reached;
    s' := DeliverOne(s);
    s' := ReadOneRefused(s');
  }

  /** And it does happen: four frames are read, and both grants are refused. */
  lemma RefusedGrantsWedge() returns (s: Bus)
    ensures Reached(s) && !s.chan.closed && s.registered && ReadMustWait(s.chan)
    ensures HostIsStuck(s) && s.refused == INITIAL_CREDIT
  {
    hide Reached;
    s := Bus(NewChan(INITIAL_CREDIT), true, Idle, [], [], [], INITIAL_CREDIT,
             [], [], [], [], None, false, 0, 0, INITIAL_CREDIT, 0, [], 0, 0, 0, NotClosed, 0);
    InitReached(s);
    s := RefusedRound(s);
    s := RefusedRound(s);
    s := RefusedRound(s);
    s := RefusedRound(s);
    NothingOwed(s.go);
  }

  lemma InitReached(s: Bus)
    requires Init(s)
    ensures Reached(s)
  {
    Runs.StartReaches(Init, Next, s);
  }

  lemma {:induction false} NothingOwed(go: seq<Goroutine>)
    requires forall i :: 0 <= i < |go| ==> Over(go[i])
    ensures Total(Owed, go) == 0
  {
    if go != [] {
      NothingOwed(go[1..]);
    }
  }
}
