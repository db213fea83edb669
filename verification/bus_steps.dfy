/**
 One channel of the bus with every goroutine that can touch it, as a transition system.

 Each lock section of Channel and Manager, each Broadcast, and each RPC made outside the lock is a
 step of its own; any number of Read, Write, Close and CloseAll calls may be in flight, and the
 single frame reader hands over what the host put on the wire. The host keeps its own send window:
 it starts with four credits and spends one on each data frame.
 */
module BusSteps {
  import opened Bytes
  import opened ChannelCore

  /** What the host puts on the wire for this channel; a close note is a JSON-RPC notification. */
  datatype HostMsg = Data(payload: seq<Byte>) | Credit(credit: UInt32) | CloseNote(reason: string)

  /** What the plugin puts on the wire for this channel. */
  datatype PluginMsg = DataOut(payload: seq<Byte>) | Grant(credit: UInt32) | CloseOut

  datatype WriteEnd = Complete | Ended(err: Option<CloseError>) | SendFailed

  /** A call in flight, and where it is. */
  datatype Goroutine =
      // Channel.Read: about to take the lock, asleep on the condition, or making its grant RPC
    | Reading(want: nat) | ReadAsleep(want: nat) | Granting(bytes: seq<Byte>, grant: UInt32)
      // None is io.EOF
    | ReadReturned(bytes: seq<Byte>) | ReadFailed(err: Option<CloseError>)
      // Channel.Write: at the loop head, asleep in awaitCredit, or past it with a frame to send
    | Writing(p: seq<Byte>, written: nat) | WriteAsleep(p: seq<Byte>, written: nat)
    | Sending(p: seq<Byte>, written: nat) | WriteReturned(p: seq<Byte>, written: nat, end: WriteEnd)
      // Channel.Close: before its lock section, then Broadcast, then the two halves of CloseChannel
    | Closing | CloseWaking | CloseForgetting | CloseNotifying
      // Manager.HostClosed, on the notification's own goroutine, and the CloseRemote it calls
    | HostClosing(reason: string) | RemoteClosing(reason: string) | RemoteWaking
      // Manager.CloseAll, before it empties the map
    | ClosingAll
    | Finished

  /** The frame reader: between frames, or part way through handling one. */
  datatype FrameReader =
    | Idle
    | HaveData(payload: seq<Byte>) | FoundData(payload: seq<Byte>) | DataWaking
    | HaveCredit(credit: UInt32) | FoundCredit(credit: UInt32) | CreditWaking

  datatype Closer = NotClosed | ByHost | ByPlugin

  datatype Bus = Bus(
    chan: Chan,
    registered: bool,          // the manager's map holds this channel under its id
    reader: FrameReader,
    go: seq<Goroutine>,        // a call keeps its index for good
    wire: seq<HostMsg>,        // host to plugin, oldest first
    out: seq<PluginMsg>,       // plugin to host, oldest first
    hostCredit: nat,           // data frames the host may still send
    // histories
    accepted: seq<Byte>,       // bytes Deliver queued
    results: seq<seq<Byte>>,   // bytes each successful Read took, in lock order
    takers: seq<nat>,          // which call each of those Reads is
    wireBytes: seq<Byte>,      // data bytes the host ever sent
    noteAt: Option<nat>,       // how many of them it had sent when it first sent a close note
    noteRead: bool,            // the frame reader has taken that note off the wire
    dropped: nat,              // data frames taken off the wire and not queued
    refused: nat,              // credits in grants the transport refused
    granted: nat,              // initial credit and every AddCredit
    paid: nat,                 // frames awaitCredit let through
    sent: seq<(nat, seq<Byte>)>, // data frames sent, with the Write that sent each
    failedSends: nat,
    offered: nat,              // credits in the host's credit frames
    missed: nat,               // those taken off the wire and not added to the window
    closer: Closer,
    notices: nat)              // channel.close notifications the plugin made

  ghost predicate Init(s: Bus) {
    s == Bus(NewChan(INITIAL_CREDIT), true, Idle, [], [], [], INITIAL_CREDIT,
             [], [], [], [], None, false, 0, 0, INITIAL_CREDIT, 0, [], 0, 0, 0, NotClosed, 0)
  }

  datatype Action =
    | Spawn(call: Goroutine)
    | HostSend(payload: seq<Byte>) | HostGrant(credit: UInt32) | HostClose(reason: string) | HostReceive
    | ReaderStep
    | GoStep(i: nat, ok: bool)   // ok: whether the RPC this step makes, if any, succeeds

  predicate Startable(g: Goroutine) {
    g.Reading? || (g.Writing? && g.written == 0) || g.Closing? || g.ClosingAll?
  }

  predicate Asleep(g: Goroutine) {
    g.ReadAsleep? || g.WriteAsleep?
  }

  predicate Over(g: Goroutine) {
    g.ReadReturned? || g.ReadFailed? || g.WriteReturned? || g.Finished?
  }

  predicate Enabled(s: Bus, a: Action) {
    match a
    case Spawn(call) => Startable(call)
    case HostSend(_) => s.hostCredit > 0
    case HostGrant(_) | HostClose(_) => true
    case HostReceive => s.out != []
    case ReaderStep => s.reader != Idle || s.wire != []
    case GoStep(i, _) => i < |s.go| && !Asleep(s.go[i]) && !Over(s.go[i])
  }

  // --- Broadcast -----------------------------------------------------------------

  function Woken(g: Goroutine): Goroutine {
    match g
    case ReadAsleep(want) => Reading(want)
    case WriteAsleep(p, written) => Writing(p, written)
    case _ => g
  }

  function WakeAll(go: seq<Goroutine>): (woken: seq<Goroutine>)
    ensures |woken| == |go|
  {
    seq(|go|, i requires 0 <= i < |go| => Woken(go[i]))
  }

  // --- the steps -------------------------------------------------------------------

  function Move(s: Bus, i: nat, g: Goroutine): Bus
    requires i < |s.go|
  {
    s.(go := s.go[i := g])
  }

  /** Read's lock section: wait, fail, or take bytes off the front. */
  function ReadSection(s: Bus, i: nat): Bus
    requires i < |s.go| && s.go[i].Reading?
  {
    if ReadMustWait(s.chan) then Move(s, i, ReadAsleep(s.go[i].want))
    else if !Readable(s.chan) then Move(s, i, ReadFailed(s.chan.closeErr))
    else
      var r := ServeRead(s.chan, s.go[i].want);
      Move(s, i, if r.grant > 0 then Granting(r.bytes, r.grant) else ReadReturned(r.bytes))
        .(chan := r.chan, results := s.results + [r.bytes], takers := s.takers + [i])
  }

  /** Read's grant, made outside the lock; its error is ignored. */
  function GrantRpc(s: Bus, i: nat, ok: bool): Bus
    requires i < |s.go| && s.go[i].Granting?
  {
    var s' := Move(s, i, ReadReturned(s.go[i].bytes));
    if ok then s'.(out := s.out + [Grant(s.go[i].grant)]) else s'.(refused := s.refused + s.go[i].grant)
  }

  /** Write's loop test and awaitCredit's lock section. */
  function PaySection(s: Bus, i: nat): Bus
    requires i < |s.go| && s.go[i].Writing?
  {
    var p, written := s.go[i].p, s.go[i].written;
    if written >= |p| then Move(s, i, WriteReturned(p, written, Complete))
    else if WriteMustWait(s.chan) then Move(s, i, WriteAsleep(p, written))
    else if s.chan.closed then Move(s, i, WriteReturned(p, written, Ended(s.chan.closeErr)))
    else Move(s, i, Sending(p, written)).(chan := Paid(s.chan), paid := s.paid + 1)
  }

  /** Write's send of one chunk. */
  function SendRpc(s: Bus, i: nat, ok: bool): Bus
    requires i < |s.go| && s.go[i].Sending?
  {
    var p, written := s.go[i].p, s.go[i].written;
    var chunk := ChunkAt(p, written);
    if ok then
      Move(s, i, Writing(p, written + |chunk|)).(out := s.out + [DataOut(chunk)], sent := s.sent + [(i, chunk)])
    else Move(s, i, WriteReturned(p, written, SendFailed)).(failedSends := s.failedSends + 1)
  }

  predicate IsClosing(g: Goroutine) {
    || g.Closing? || g.CloseWaking? || g.CloseForgetting? || g.CloseNotifying?
    || g.HostClosing? || g.RemoteClosing? || g.RemoteWaking? || g.ClosingAll?
  }

  function CloseStep(s: Bus, i: nat, ok: bool): Bus
    requires i < |s.go| && IsClosing(s.go[i])
  {
    match s.go[i]
    case Closing =>
      if s.chan.closed then Move(s, i, Finished)
      else Move(s, i, CloseWaking).(chan := LocallyClosed(s.chan), closer := ByPlugin)
    case CloseWaking => s.(go := WakeAll(s.go)[i := CloseForgetting])
    case CloseForgetting => Move(s, i, CloseNotifying).(registered := false)
    case CloseNotifying =>
      Move(s, i, Finished).(notices := s.notices + 1, out := if ok then s.out + [CloseOut] else s.out)
    case HostClosing(reason) =>
      Move(s, i, if s.registered then RemoteClosing(reason) else Finished).(registered := false)
    case RemoteClosing(reason) =>
      if s.chan.closed then Move(s, i, Finished)
      else Move(s, i, RemoteWaking).(chan := RemotelyClosed(s.chan, reason), closer := ByHost)
    case RemoteWaking => s.(go := WakeAll(s.go)[i := Finished])
    case ClosingAll => Move(s, i, if s.registered then Closing else Finished).(registered := false)
  }

  /** A closing step moves its own goroutine along the closing path, and at most wakes the others. */
  lemma CloseStepMoves(s: Bus, i: nat, ok: bool)
    requires i < |s.go| && IsClosing(s.go[i])
    ensures var s' := CloseStep(s, i, ok);
      && |s'.go| == |s.go| && (IsClosing(s'.go[i]) || s'.go[i].Finished?)
      && forall j :: 0 <= j < |s.go| && j != i ==> s'.go[j] == s.go[j] || s'.go[j] == Woken(s.go[j])
  {
    if s.go[i].CloseWaking? || s.go[i].RemoteWaking? {
      forall j | 0 <= j < |s.go| && j != i ensures CloseStep(s, i, ok).go[j] == Woken(s.go[j]) {
      }
    }
  }

  /** It neither takes nor adds data or credit, and the only message it makes is the close. */
  lemma CloseStepLeaves(s: Bus, i: nat, ok: bool)
    requires i < |s.go| && IsClosing(s.go[i])
    ensures var s' := CloseStep(s, i, ok);
      && s'.chan.credit == s.chan.credit && s'.chan.consumed == s.chan.consumed
      && s'.granted == s.granted && s'.paid == s.paid && s'.sent == s.sent && s'.failedSends == s.failedSends
      && s'.refused == s.refused && s'.takers == s.takers && s'.results == s.results
      && forall m :: m in s'.out ==> m in s.out || m == CloseOut
  {
  }

  /** The frame reader takes the next frame; a close note is handled on a goroutine of its own. */
  function TakeFrame(s: Bus): Bus
    requires s.reader == Idle && s.wire != []
  {
    var s' := s.(wire := s.wire[1..]);
    match s.wire[0]
    case Data(payload) => s'.(reader := HaveData(payload))
    case Credit(credit) => s'.(reader := HaveCredit(credit))
    case CloseNote(reason) => s'.(go := s.go + [HostClosing(reason)], noteRead := true)
  }

  /** The frame reader's steps on the frame it holds: look the channel up, its lock section, its Broadcast. */
  function HandleFrame(s: Bus): Bus
    requires s.reader != Idle
  {
    match s.reader
    case HaveData(payload) =>
      if s.registered then s.(reader := FoundData(payload)) else s.(reader := Idle, dropped := s.dropped + 1)
    case FoundData(payload) =>
      if s.chan.closed then s.(reader := Idle, dropped := s.dropped + 1)
      else s.(reader := DataWaking, chan := Delivered(s.chan, payload), accepted := s.accepted + payload)
    case DataWaking => s.(reader := Idle, go := WakeAll(s.go))
    case HaveCredit(credit) =>
      if s.registered then s.(reader := FoundCredit(credit)) else s.(reader := Idle, missed := s.missed + credit)
    case FoundCredit(credit) =>
      s.(reader := CreditWaking, chan := Credited(s.chan, credit), granted := s.granted + credit)
    case CreditWaking => s.(reader := Idle, go := WakeAll(s.go))
  }

  function Received(hostCredit: nat, m: PluginMsg): nat {
    match m
    case Grant(credit) => hostCredit + credit
    case _ => hostCredit
  }

  function Do(s: Bus, a: Action): Bus
    requires Enabled(s, a)
  {
    match a
    case Spawn(call) => s.(go := s.go + [call])
    case HostSend(payload) =>
      s.(hostCredit := s.hostCredit - 1, wire := s.wire + [Data(payload)], wireBytes := s.wireBytes + payload)
    case HostGrant(credit) => s.(wire := s.wire + [Credit(credit)], offered := s.offered + credit)
    case HostClose(reason) =>
      s.(wire := s.wire + [CloseNote(reason)], noteAt := if s.noteAt.None? then Some(|s.wireBytes|) else s.noteAt)
    case HostReceive => s.(out := s.out[1..], hostCredit := Received(s.hostCredit, s.out[0]))
    case ReaderStep => if s.reader == Idle then TakeFrame(s) else HandleFrame(s)
    case GoStep(i, ok) =>
      if s.go[i].Reading? then ReadSection(s, i)
      else if s.go[i].Granting? then GrantRpc(s, i, ok)
      else if s.go[i].Writing? then PaySection(s, i)
      else if s.go[i].Sending? then SendRpc(s, i, ok)
      else CloseStep(s, i, ok)
  }

  ghost predicate Next(s: Bus, s': Bus) {
    exists a :: Enabled(s, a) && s' == Do(s, a)
  }
}
