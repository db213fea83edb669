/**
 The channel bus as objects (internal/infra/chanbus): Channel, the Manager that owns the
 id-to-channel map, and the RPC client under them. A method body holds the source's statements in
 the source's order; its contract says which lock section of ChannelCore it computes, and what it
 put on the wire.

 What other goroutines do to the channel whenever this one does not hold its lock is a parameter: the
 lock sections they run before each of its own, and those they run while it sleeps. A method that
 waits reports Waiting when there are no more of those and its condition still does not hold. The
 interleaving of the steps outside the locks is the subject of bus_steps.dfy.
 */
module ChannelBus {
  import opened Bytes
  import opened ChannelCore

  /** What the bus asks of the JSON-RPC client. */
  datatype Request =
    | SendData(id: UInt32, payload: seq<Byte>)
    | GrantCredit(id: UInt32, credit: UInt32)
    | NotifyClose(id: UInt32, reason: string)

  datatype RpcCall = RpcCall(request: Request, ok: bool)

  /** The client as its caller sees it: every request is recorded, and may fail as the script says. */
  class Rpc {
    var calls: seq<RpcCall>
    var outcomes: seq<bool>   // of the next requests; all later ones succeed

    constructor (outcomes: seq<bool>)
      ensures calls == [] && this.outcomes == outcomes
    {
      calls, this.outcomes := [], outcomes;
    }

    method Do(request: Request) returns (ok: bool)
      modifies this
      ensures calls == old(calls) + [RpcCall(request, ok)]
      ensures ok == (old(outcomes) == [] || old(outcomes)[0])
      ensures outcomes == if old(outcomes) == [] then [] else old(outcomes)[1..]
    {
      ok := outcomes == [] || outcomes[0];
      calls := calls + [RpcCall(request, ok)];
      outcomes := if outcomes == [] then [] else outcomes[1..];
    }
  }

  /** Go's built-in copy: as much of src as fits, at the front of dst. */
  method Copy(dst: array<Byte>, src: seq<Byte>) returns (n: nat)
    modifies dst
    ensures n == Min(dst.Length, |src|) && dst[..] == src[..n] + old(dst[n..])
  {
    n := Min(dst.Length, |src|);
    forall k | 0 <= k < n {
      dst[k] := src[k];
    }
  }

  /** A lock section that another goroutine runs: the frame reader, a close, another Read or Write. */
  datatype Section =
    | Delivery(payload: seq<Byte>) | CreditGrant(credit: UInt32) | HostClose(reason: string)
    | OtherRead(want: nat) | OtherPay | OtherClose

  /** The channel after a section; a Read or Write of another goroutine that must wait does nothing yet. */
  function Updated(c: Chan, u: Section): Chan {
    match u
    case Delivery(payload) => Delivered(c, payload)
    case CreditGrant(credit) => Credited(c, credit)
    case HostClose(reason) => RemotelyClosed(c, reason)
    case OtherRead(want) => if Readable(c) then ServeRead(c, want).chan else c
    case OtherPay => if !c.closed && c.credit > 0 then Paid(c) else c
    case OtherClose => LocallyClosed(c)
  }

  function UpdatedAll(c: Chan, passed: seq<Section>): Chan
    decreases |passed|
  {
    if passed == [] then c else UpdatedAll(Updated(c, passed[0]), passed[1..])
  }

  /** The bytes other Reads took. */
  function TakenBy(c: Chan, passed: seq<Section>): seq<Byte>
    decreases |passed|
  {
    if passed == [] then []
    else
      (if passed[0].OtherRead? && Readable(c) then ServeRead(c, passed[0].want).bytes else []) +
      TakenBy(Updated(c, passed[0]), passed[1..])
  }

  /** The frames other Writes paid for. */
  function PaidBy(c: Chan, passed: seq<Section>): nat
    decreases |passed|
  {
    if passed == [] then 0
    else
      (if passed[0].OtherPay? && !c.closed && c.credit > 0 then 1 else 0) +
      PaidBy(Updated(c, passed[0]), passed[1..])
  }

  /** What the others do around one lock section: before it, and, if it must wait, while it sleeps. */
  datatype Turn = Turn(before: seq<Section>, asleep: seq<Section>)

  predicate MustWait(c: Chan, reading: bool) {
    if reading then ReadMustWait(c) else WriteMustWait(c)
  }

  /**
   What passes before a lock section goes on: everything before it, and then no more of what comes
   while it sleeps than its condition takes to fail.
   */
  ghost predicate Passes(c: Chan, turn: Turn, passed: seq<Section>, reading: bool) {
    && turn.before <= passed <= turn.before + turn.asleep
    && (forall k :: |turn.before| <= k < |passed| ==> MustWait(UpdatedAll(c, passed[..k]), reading))
    && (MustWait(UpdatedAll(c, passed), reading) ==> passed == turn.before + turn.asleep)
  }

  datatype ReadOutcome = Got(n: nat) | ReadError(err: Option<CloseError>) | ReadWaiting

  datatype Wait = Through | WaitError(err: CloseError) | StillWaiting

  datatype WriteOutcome = Wrote | WriteClosed(err: CloseError) | WriteFailed | WriteWaiting

  /** The calls a Write makes for the first k chunks of its buffer, all of which succeed. */
  function DataCalls(id: UInt32, chunks: seq<seq<Byte>>): seq<RpcCall> {
    seq(|chunks|, i requires 0 <= i < |chunks| => RpcCall(SendData(id, chunks[i]), true))
  }

  class Channel {
    const id: UInt32
    const transport: Manager

    var inbound: seq<seq<Byte>>
    var pending: seq<Byte>
    var credit: UInt32
    var closed: bool
    var closeErr: Option<CloseError>
    var consumed: UInt32

    ghost var accepted: seq<Byte>   // bytes Deliver queued
    ghost var returned: seq<Byte>   // bytes Read returned
    ghost var granted: nat          // the initial credit and all grants
    ghost var paid: nat             // frames awaitCredit let through

    function State(): Chan
      reads this
    {
      Chan(inbound, pending, credit, consumed, closed, closeErr)
    }

    ghost predicate Valid()
      reads this
    {
      && returned + Unread(State()) == accepted
      && consumed <= 1
      && (closed <==> closeErr.Some?)
      && paid <= granted && credit == (granted - paid) % WORD_RANGE
    }

    constructor (id: UInt32, transport: Manager, grantedCredit: UInt32)
      ensures Valid() && this.id == id && this.transport == transport
      ensures State() == NewChan(grantedCredit)
      ensures accepted == returned == [] && granted == grantedCredit && paid == 0
    {
      this.id, this.transport := id, transport;
      inbound, pending, credit, closed, closeErr, consumed := [], [], grantedCredit, false, None, 0;
      accepted, returned, granted, paid := [], [], grantedCredit, 0;
    }

    method Deliver(payload: seq<Byte>)
      requires Valid()
      modifies this
      ensures Valid() && State() == Delivered(old(State()), payload)
      ensures accepted == if old(closed) then old(accepted) else old(accepted) + payload
      ensures returned == old(returned) && granted == old(granted) && paid == old(paid)
    {
      if closed {
        return;
      }
      DeliveredAppends(State(), payload);
      inbound := inbound + [payload];
      accepted := accepted + payload;
    }

    method AddCredit(n: UInt32)
      requires Valid()
      modifies this
      ensures Valid() && State() == Credited(old(State()), n)
      ensures granted == old(granted) + n
      ensures accepted == old(accepted) && returned == old(returned) && paid == old(paid)
    {
      credit := (credit + n) % WORD_RANGE;
      granted := granted + n;
    }

    method CloseRemote(reason: string)
      requires Valid()
      modifies this
      ensures Valid() && State() == RemotelyClosed(old(State()), reason)
      ensures accepted == old(accepted) && returned == old(returned) && granted == old(granted) && paid == old(paid)
    {
      if closed {
        return;
      }
      closed := true;
      if reason != "" {
        closeErr := Some(ChannelClosedFor(reason));
      } else {
        closeErr := Some(ChannelClosed);
      }
    }

    /** One section of another goroutine. */
    method Admit(u: Section)
      requires Valid()
      modifies this
      ensures Valid() && State() == Updated(old(State()), u)
      ensures old(accepted) <= accepted && old(granted) <= granted
      ensures returned == old(returned) + TakenBy(old(State()), [u]) && paid == old(paid) + PaidBy(old(State()), [u])
    {
      OneSection(State(), u);
      hide TakenBy, PaidBy, ServeRead, Delivered;
      match u
      case Delivery(payload) => Deliver(payload);
      case CreditGrant(n) => AddCredit(n);
      case HostClose(reason) => CloseRemote(reason);
      case OtherRead(want) =>
        if Readable(State()) {
          var p := new Byte[want];
          var n, grant := TakeBytes(p);
        }
      case OtherPay =>
        if !closed && credit > 0 {
          Spend();
        }
      case OtherClose =>
        if !closed {
          closed := true;
          closeErr := Some(ChannelClosed);
        }
    }

    /** What the histories say after some sections of others, starting from a given state. */
    ghost predicate After(start: Chan, passed: seq<Section>, accepted0: seq<Byte>, returned0: seq<Byte>, paid0: nat, granted0: nat)
      reads this
    {
      && State() == UpdatedAll(start, passed)
      && accepted0 <= accepted && granted0 <= granted
      && returned == returned0 + TakenBy(start, passed) && paid == paid0 + PaidBy(start, passed)
    }

    /** The way to a lock section: the others' sections before it, and its wait loop. */
    method Acquire(turn: Turn, reading: bool) returns (ghost passed: seq<Section>)
      requires Valid()
      modifies this
      ensures Valid() && Passes(old(State()), turn, passed, reading)
      ensures After(old(State()), passed, old(accepted), old(returned), old(paid), old(granted))
    {
      hide Valid, Updated, UpdatedAll, TakenBy, PaidBy, MustWait;
      ghost var start := State();
      passed := [];
      NonePassed(start);
      for i := 0 to |turn.before|
        invariant Valid() && passed == turn.before[..i]
        invariant After(start, passed, old(accepted), old(returned), old(paid), old(granted))
      {
        PassOne(start, passed, turn.before[i]);
        passed := passed + [turn.before[i]];
        Admit(turn.before[i]);
      }
      var used := 0;
      while MustWait(State(), reading) && used < |turn.asleep|
        invariant Valid() && used <= |turn.asleep| && passed == turn.before + turn.asleep[..used]
        invariant After(start, passed, old(accepted), old(returned), old(paid), old(granted))
        invariant forall k :: |turn.before| <= k < |passed| ==> MustWait(UpdatedAll(start, passed[..k]), reading)
      {
        ghost var earlier := passed;
        PassOne(start, passed, turn.asleep[used]);
        passed := passed + [turn.asleep[used]];
        assert forall k :: 0 <= k < |earlier| ==> passed[..k] == earlier[..k];
        assert passed[..|earlier|] == earlier;
        Admit(turn.asleep[used]);
        used := used + 1;
      }
    }

    /** The end of Read's lock section: credit is returned for frames that were read to their end, in batches. */
    method Settle() returns (grant: UInt32)
      modifies this`consumed
      ensures (State(), grant) == Settled(old(State()))
    {
      grant := 0;
      if pending == [] {
        consumed := (consumed + 1) % WORD_RANGE;
        if consumed >= INITIAL_CREDIT / 2 {
          grant := consumed;
          consumed := 0;
        }
      }
    }

    /** Read's lock section once there is something: the front of the unread bytes, and the credit due. */
    method TakeBytes(p: array<Byte>) returns (n: nat, grant: UInt32)
      requires Valid() && Readable(State())
      modifies this, p
      ensures Valid() && accepted == old(accepted) && paid == old(paid) && granted == old(granted)
      ensures var served := ServeRead(old(State()), p.Length);
              && State() == served.chan && grant == served.grant && n == |served.bytes| <= p.Length
              && p[..] == served.bytes + old(p[n..]) && returned == old(returned) + served.bytes
    {
      hide Settled, Unread;
      ServeReadTakesFront(State(), p.Length);
      ServeReadKeepsWindow(State(), p.Length);
      ServeReadLeavesTheRest(State(), p.Length);
      if pending == [] {
        pending := inbound[0];
        inbound := inbound[1..];
      }
      n := Copy(p, pending);
      returned := returned + pending[..n];
      pending := pending[n..];
      grant := Settle();
    }

    /**
     Read. Valid() ties its result down further: what Reads have returned, what is pending and what
     is queued always make up what was accepted, so an error means that nothing accepted is left.
     */
    method Read(p: array<Byte>, turn: Turn) returns (r: ReadOutcome, ghost passed: seq<Section>)
      requires Valid()
      modifies this, p, transport.rpc
      ensures Valid() && Passes(old(State()), turn, passed, true) && old(accepted) <= accepted
      ensures paid == old(paid) + PaidBy(old(State()), passed)
      ensures var c, taken := UpdatedAll(old(State()), passed), old(returned) + TakenBy(old(State()), passed);
              if Readable(c) then
                var served := ServeRead(c, p.Length);
                && State() == served.chan && r == Got(|served.bytes|) && r.n <= p.Length
                && p[..] == served.bytes + old(p[r.n..]) && returned == taken + served.bytes
              else
                && State() == c && p[..] == old(p[..]) && returned == taken == accepted
                && r == (if c.closed then ReadError(c.closeErr) else ReadWaiting)
      ensures var c := UpdatedAll(old(State()), passed);
              Readable(c) ==> r == Got(Min(p.Length, |FrontFrame(c)|))
      ensures var c := UpdatedAll(old(State()), passed);
              var grant := if Readable(c) then ServeRead(c, p.Length).grant else 0;
              if grant == 0 then transport.rpc.calls == old(transport.rpc.calls)
              else exists ok :: transport.rpc.calls == old(transport.rpc.calls) + [RpcCall(GrantCredit(id, grant), ok)]
    {
      passed := Acquire(turn, true);
      hide UpdatedAll, TakenBy, PaidBy, Passes;
      if pending == [] && inbound == [] {
        return if closed then ReadError(closeErr) else ReadWaiting, passed;
      }
      ServeReadFillsTheBuffer(State(), p.Length);
      var n, grant := TakeBytes(p);
      if grant > 0 {
        var ok := transport.GrantCredit(id, grant);
      }
      return Got(n), passed;
    }

    /** awaitCredit: wait for the window, then spend one credit, unless the channel closed. */
    method AwaitCredit(turn: Turn) returns (w: Wait, ghost passed: seq<Section>)
      requires Valid()
      modifies this
      ensures Valid() && Passes(old(State()), turn, passed, false) && old(accepted) <= accepted && old(granted) <= granted
      ensures var c := UpdatedAll(old(State()), passed);
              && (w == Through <==> !c.closed && c.credit > 0)
              && State() == (if w == Through then Paid(c) else c)
              && (w.WaitError? <==> c.closed) && (w.WaitError? ==> Some(w.err) == c.closeErr)
      ensures returned == old(returned) + TakenBy(old(State()), passed)
      ensures paid == old(paid) + PaidBy(old(State()), passed) + if w == Through then 1 else 0
    {
      hide Valid, UpdatedAll, TakenBy, PaidBy, Passes;
      passed := Acquire(turn, false);
      ClosedHasError();
      if closed {
        return WaitError(if closeErr.Some? then closeErr.value else ChannelClosed), passed;
      }
      if credit == 0 {
        return StillWaiting, passed;
      }
      Spend();
      return Through, passed;
    }

    lemma ClosedHasError()
      requires Valid()
      ensures closed ==> closeErr.Some?
    {
    }

    /** One credit for one frame. */
    method Spend()
      requires Valid() && credit > 0
      modifies this`credit, this`paid
      ensures Valid() && State() == Paid(old(State())) && paid == old(paid) + 1
    {
      credit := credit - 1;
      paid := paid + 1;
    }

    /**
     Write: the buffer goes out as its chunks, one credit each, until they have all gone or something
     stops it; the caller learns how many bytes went, and the host gets no frame beyond them. Turn i
     is what the others do around the i-th chunk; `others` is how many frames they paid for meanwhile.
     */
    method Write(p: seq<Byte>, turns: seq<Turn>) returns (written: nat, r: WriteOutcome, ghost others: nat)
      requires Valid()
      modifies this, transport.rpc
      ensures Valid() && old(accepted) <= accepted && old(returned) <= returned
      ensures ChunkBoundary(p, written) && (r == Wrote <==> written == |p|)
      ensures transport.rpc.calls == old(transport.rpc.calls) + DataCalls(id, Chunks(p[..written])) +
                (if r == WriteFailed then [RpcCall(SendData(id, ChunkAt(p, written)), false)] else [])
      ensures paid == old(paid) + others + |Chunks(p[..written])| + (if r == WriteFailed then 1 else 0)
      ensures others <= OtherPays(turns)
      ensures r.WriteClosed? ==> closed && Some(r.err) == closeErr
      ensures r.WriteWaiting? ==> credit == 0 && !closed
    {
      hide Valid, OtherPays;
      written, others := 0, 0;
      var turn := 0;
      ghost var calls := transport.rpc.calls;
      NoChunks(p);
      assert calls + DataCalls(id, []) == calls;
      hide Chunks, DataCalls;
      while written < |p|
        invariant Valid() && old(accepted) <= accepted && old(returned) <= returned
        invariant ChunkBoundary(p, written)
        invariant transport.rpc.calls == calls + DataCalls(id, Chunks(p[..written]))
        invariant paid == old(paid) + others + |Chunks(p[..written])|
        invariant others + OtherPays(turns[Min(turn, |turns|)..]) <= OtherPays(turns)
        decreases |p| - written
      {
        var chunk := p[written..];
        if |chunk| > MAX_CHANNEL_FRAME {
          chunk := chunk[..MAX_CHANNEL_FRAME];
        }
        assert chunk == ChunkAt(p, written);
        var w;
        w, others := TurnOfWrite(turns, turn, others);
        turn := turn + 1;
        if w.WaitError? {
          return written, WriteClosed(w.err), others;
        }
        if w.StillWaiting? {
          return written, WriteWaiting, others;
        }
        var ok := transport.WriteChannel(id, chunk);
        if !ok {
          return written, WriteFailed, others;
        }
        SentOne(id, calls, p, written);
        written := written + |chunk|;
      }
      return written, Wrote, others;
    }

    /** The wait of one turn of Write's loop, with the others' payments added up. */
    method TurnOfWrite(turns: seq<Turn>, turn: nat, ghost before: nat) returns (w: Wait, ghost others: nat)
      requires Valid() && before + OtherPays(turns[Min(turn, |turns|)..]) <= OtherPays(turns)
      modifies this
      ensures Valid() && old(accepted) <= accepted && old(returned) <= returned && before <= others
      ensures paid == old(paid) + (others - before) + if w == Through then 1 else 0
      ensures others + OtherPays(turns[Min(turn + 1, |turns|)..]) <= OtherPays(turns)
      ensures w.WaitError? ==> closed && Some(w.err) == closeErr
      ensures w.StillWaiting? ==> credit == 0 && !closed
    {
      ghost var start := State();
      var now := if turn < |turns| then turns[turn] else Turn([], []);
      ghost var passed;
      w, passed := AwaitCredit(now);
      others := before + PaidBy(start, passed);
      PaidByAtMost(start, passed);
      PaysOfFront(passed, now.before + now.asleep);
      if turn < |turns| {
        assert turns[turn..][1..] == turns[turn + 1..];
      }
    }

    /** Close: the first close from this side tells the host and forgets the channel; any later one does nothing. */
    method Close()
      requires Valid()
      modifies this, transport, transport.rpc
      ensures Valid() && State() == LocallyClosed(old(State()))
      ensures accepted == old(accepted) && returned == old(returned) && granted == old(granted) && paid == old(paid)
      ensures if old(closed) then
                transport.channels == old(transport.channels) && transport.rpc.calls == old(transport.rpc.calls)
              else
                && transport.channels == old(transport.channels) - {id}
                && exists ok :: transport.rpc.calls == old(transport.rpc.calls) + [RpcCall(NotifyClose(id, "done"), ok)]
    {
      if closed {
        return;
      }
      closed := true;
      closeErr := Some(ChannelClosed);
      transport.CloseChannel(id, "done");
    }
  }

  lemma DataCallsSnoc(id: UInt32, chunks: seq<seq<Byte>>, chunk: seq<Byte>)
    ensures DataCalls(id, chunks + [chunk]) == DataCalls(id, chunks) + [RpcCall(SendData(id, chunk), true)]
  {
  }

  /** What one turn of Write's loop adds to the requests, and to its chunks. */
  lemma SentOne(id: UInt32, calls: seq<RpcCall>, p: seq<Byte>, written: nat)
    requires ChunkBoundary(p, written) && written < |p|
    ensures var chunk := ChunkAt(p, written);
      && ChunkBoundary(p, written + |chunk|)
      && |Chunks(p[..written + |chunk|])| == |Chunks(p[..written])| + 1
      && calls + DataCalls(id, Chunks(p[..written + |chunk|])) ==
         calls + DataCalls(id, Chunks(p[..written])) + [RpcCall(SendData(id, chunk), true)]
  {
    hide Chunks, ChunkAt, DataCalls;
    ChunksExtend(p, written);
    DataCallsSnoc(id, Chunks(p[..written]), ChunkAt(p, written));
  }

  lemma NonePassed(c: Chan)
    ensures UpdatedAll(c, []) == c && TakenBy(c, []) == [] && PaidBy(c, []) == 0
  {
  }

  lemma OneSection(c: Chan, u: Section)
    ensures TakenBy(c, [u]) == if u.OtherRead? && Readable(c) then ServeRead(c, u.want).bytes else []
    ensures PaidBy(c, [u]) == if u.OtherPay? && !c.closed && c.credit > 0 then 1 else 0
  {
    hide ServeRead, Updated;
    assert [u][1..] == [];
  }

  /** One more section passes. */
  lemma {:induction false} PassOne(c: Chan, passed: seq<Section>, u: Section)
    ensures var c' := UpdatedAll(c, passed);
      && UpdatedAll(c, passed + [u]) == Updated(c', u)
      && TakenBy(c, passed + [u]) == TakenBy(c, passed) + TakenBy(c', [u])
      && PaidBy(c, passed + [u]) == PaidBy(c, passed) + PaidBy(c', [u])
    decreases |passed|
  {
    hide Updated, ServeRead, Readable;
    if passed == [] {
      assert [] + [u] == [u] && [u][1..] == [];
    } else {
      assert (passed + [u])[1..] == passed[1..] + [u];
      PassOne(Updated(c, passed[0]), passed[1..], u);
    }
  }

  /** How often others would pay. */
  function Pays(sections: seq<Section>): nat {
    if sections == [] then 0 else (if sections[0].OtherPay? then 1 else 0) + Pays(sections[1..])
  }

  function OtherPays(turns: seq<Turn>): nat {
    if turns == [] then 0 else Pays(turns[0].before + turns[0].asleep) + OtherPays(turns[1..])
  }

  lemma {:induction false} PaidByAtMost(c: Chan, passed: seq<Section>)
    ensures PaidBy(c, passed) <= Pays(passed)
    decreases |passed|
  {
    if passed != [] {
      PaidByAtMost(Updated(c, passed[0]), passed[1..]);
    }
  }

  lemma {:induction false} PaysOfFront(a: seq<Section>, b: seq<Section>)
    requires a <= b
    ensures Pays(a) <= Pays(b)
  {
    if a != [] {
      PaysOfFront(a[1..], b[1..]);
    }
  }

  /** The requests made, whether or not they succeeded. */
  function Requests(calls: seq<RpcCall>): seq<Request> {
    seq(|calls|, i requires 0 <= i < |calls| => calls[i].request)
  }

  /** The notifications that closing these channels one after the other causes: one for each that is open. */
  ghost function CloseRequests(list: seq<Channel>): seq<Request>
    reads list
  {
    if list == [] then []
    else
      var last := list[|list| - 1];
      CloseRequests(list[..|list| - 1]) + (if last.closed then [] else [NotifyClose(last.id, "done")])
  }

  /** A list of all the channels of a map, each once. */
  ghost predicate Lists(list: seq<Channel>, channels: map<UInt32, Channel>) {
    && (forall i :: 0 <= i < |list| ==> list[i].id in channels && channels[list[i].id] == list[i])
    && (forall i, j :: 0 <= i < j < |list| ==> list[i] != list[j])
    && (forall id :: id in channels ==> channels[id] in list)
  }

  /** A map's channels as a list, in the arbitrary order a map is walked in. */
  method ListOf(channels: map<UInt32, Channel>) returns (list: seq<Channel>)
    requires forall id :: id in channels ==> channels[id].id == id
    ensures Lists(list, channels)
  {
    list := [];
    var rest := channels;
    while rest != map[]
      invariant forall id :: id in rest ==> id in channels && rest[id] == channels[id]
      invariant forall i :: 0 <= i < |list| ==>
        list[i].id in channels && list[i].id !in rest && channels[list[i].id] == list[i]
      invariant forall i, j :: 0 <= i < j < |list| ==> list[i] != list[j]
      invariant forall id :: id in channels ==> id in rest || channels[id] in list
      decreases |rest|
    {
      var id :| id in rest;
      ghost var before := list;
      list := list + [rest[id]];
      assert list[|before|] == channels[id] && forall c :: c in before ==> c in list;
      rest := rest - {id};
    }
  }

  class Manager {
    const rpc: Rpc
    var channels: map<UInt32, Channel>

    /** Every channel in the map is under its own id and belongs to this manager. */
    ghost predicate Valid()
      reads this, channels.Values
    {
      forall id :: id in channels ==>
        channels[id] in channels.Values && channels[id].id == id && channels[id].transport == this && channels[id].Valid()
    }

    constructor (rpc: Rpc)
      ensures Valid() && this.rpc == rpc && channels == map[]
    {
      this.rpc, channels := rpc, map[];
    }

    /** OpenExec, given the host's answer to channel.open: an id it allocated, or a failure to report. */
    method OpenExec(reply: Option<UInt32>) returns (ch: Option<Channel>)
      requires Valid()
      modifies this
      ensures Valid()
      ensures ch.Some? <==> reply.Some?
      ensures reply.None? ==> channels == old(channels)
      ensures reply.Some? ==>
        && fresh(ch.value) && ch.value.id == reply.value && ch.value.State() == NewChan(INITIAL_CREDIT)
        && channels == old(channels)[reply.value := ch.value]
    {
      if reply.None? {
        return None;
      }
      var c := new Channel(reply.value, this, INITIAL_CREDIT);
      channels := channels[reply.value := c];
      return Some(c);
    }

    /** Deliver: a data frame reaches the channel it names and no other; one for an unknown id is dropped. */
    method Deliver(id: UInt32, payload: seq<Byte>)
      requires Valid()
      modifies channels.Values
      ensures Valid()
      ensures forall other :: other in channels ==>
        channels[other].State() ==
        if other == id then Delivered(old(channels[other].State()), payload) else old(channels[other].State())
      ensures forall other :: other in channels ==>
        channels[other].accepted ==
        if other == id && !old(channels[other].closed) then old(channels[other].accepted) + payload
        else old(channels[other].accepted)
    {
      if id in channels {
        channels[id].Deliver(payload);
      }
    }

    /** Credit: the same, for a credit frame. */
    method Credit(id: UInt32, credit: UInt32)
      requires Valid()
      modifies channels.Values
      ensures Valid()
      ensures forall other :: other in channels ==>
        channels[other].State() ==
        if other == id then Credited(old(channels[other].State()), credit) else old(channels[other].State())
      ensures forall other :: other in channels ==> channels[other].accepted == old(channels[other].accepted)
    {
      if id in channels {
        channels[id].AddCredit(credit);
      }
    }

    /** HostClosed, for a note that decoded: the channel is forgotten, then closed with the best reason given. */
    method HostClosed(id: UInt32, reason: string, message: string)
      requires Valid()
      modifies this, channels.Values
      ensures Valid() && channels == old(channels) - {id}
      ensures id in old(channels) ==>
        old(channels)[id].State() ==
        RemotelyClosed(old(channels[id].State()), if message == "" then reason else message)
      ensures forall other :: other in old(channels) && other != id ==>
        old(channels)[other].State() == old(channels[other].State())
    {
      if id !in channels {
        channels := channels - {id};
        return;
      }
      var ch := channels[id];
      channels := channels - {id};
      ch.CloseRemote(if message == "" then reason else message);
    }

    /**
     CloseAll: the map is emptied first, then every channel that was in it is closed; the host is told
     once of each that was still open, and of no other.
     */
    method CloseAll() returns (ghost order: seq<Channel>)
      requires Valid()
      modifies this, rpc, channels.Values
      ensures Valid() && channels == map[] && Lists(order, old(channels))
      ensures forall i :: 0 <= i < |order| ==> order[i].State() == LocallyClosed(old(order[i].State()))
      ensures Requests(rpc.calls) == old(Requests(rpc.calls)) + old(CloseRequests(order))
    {
      var list := ListOf(channels);
      channels := map[];
      CloseEach(list);
      order := list;
    }

    /** The loop of CloseAll. */
    method CloseEach(list: seq<Channel>)
      requires channels == map[]
      requires forall i :: 0 <= i < |list| ==> list[i].Valid() && list[i].transport == this
      requires forall i, j :: 0 <= i < j < |list| ==> list[i] != list[j]
      modifies this, rpc, list
      ensures channels == map[]
      ensures forall i :: 0 <= i < |list| ==> list[i].State() == LocallyClosed(old(list[i].State()))
      ensures Requests(rpc.calls) == old(Requests(rpc.calls)) + old(CloseRequests(list))
    {
      hide LocallyClosed, Channel.Valid;
      for n := 0 to |list|
        invariant channels == map[]
        invariant forall i :: n <= i < |list| ==> unchanged(list[i])
        invariant forall i :: 0 <= i < n ==> list[i].State() == LocallyClosed(old(list[i].State()))
        invariant Requests(rpc.calls) == old(Requests(rpc.calls)) + old(CloseRequests(list[..n]))
      {
        assert list[..n + 1][..n] == list[..n];
        assert old(CloseRequests(list[..n + 1])) ==
               old(CloseRequests(list[..n])) + (if list[n].closed then [] else [NotifyClose(list[n].id, "done")]);
        ghost var calls := rpc.calls;
        list[n].Close();
        assert Requests(rpc.calls) == Requests(calls) + Requests(rpc.calls[|calls|..]);
      }
      assert list[..|list|] == list;
    }

    method WriteChannel(id: UInt32, data: seq<Byte>) returns (ok: bool)
      modifies rpc
      ensures rpc.calls == old(rpc.calls) + [RpcCall(SendData(id, data), ok)]
    {
      ok := rpc.Do(SendData(id, data));
    }

    method GrantCredit(id: UInt32, credit: UInt32) returns (ok: bool)
      modifies rpc
      ensures rpc.calls == old(rpc.calls) + [RpcCall(Request.GrantCredit(id, credit), ok)]
    {
      ok := rpc.Do(Request.GrantCredit(id, credit));
    }

    /** CloseChannel: forget the channel, then tell the host; the notification's error is ignored. */
    method CloseChannel(id: UInt32, reason: string)
      modifies this, rpc
      ensures channels == old(channels) - {id}
      ensures exists ok :: rpc.calls == old(rpc.calls) + [RpcCall(NotifyClose(id, reason), ok)]
    {
      channels := channels - {id};
      var ok := rpc.Do(NotifyClose(id, reason));
    }
  }
}
