/**
 The client and the bus together: what a whole input stream brings to every open channel. The read
 loop calls the data and credit handlers itself, one frame after the other, so what they are handed
 is what Serve records, in that order.
 */
module Routing {
  import opened Bytes
  import opened ChannelCore
  import opened RpcClient
  import ChannelBus
  import Codec

  /** The payloads that some events bring to a channel, in order. */
  function PayloadsFor(events: seq<Event>, id: UInt32): seq<seq<Byte>> {
    if events == [] then []
    else if events[0].DataFor? && events[0].channelId == id then [events[0].payload] + PayloadsFor(events[1..], id)
    else PayloadsFor(events[1..], id)
  }

  /** The credit that some events bring to a channel, all together. */
  function CreditFrom(event: Event, id: UInt32): nat {
    if event.CreditFor? && event.channelId == id then event.credit else 0
  }

  function CreditsFor(events: seq<Event>, id: UInt32): nat {
    if events == [] then 0 else CreditFrom(events[0], id) + CreditsFor(events[1..], id)
  }

  /** A channel as the bus sees it from outside: its shared state, and the bytes it has accepted. */
  datatype View = View(chan: Chan, accepted: seq<Byte>)

  function RoutedOne(v: View, event: Event, id: UInt32): View {
    match event
    case DataFor(channelId, payload) =>
      if channelId != id || v.chan.closed then v
      else View(Delivered(v.chan, payload), v.accepted + payload)
    case CreditFor(channelId, credit) => if channelId == id then v.(chan := Credited(v.chan, credit)) else v
    case Answer(_) => v
    case Request(_) => v
  }

  function Routed(v: View, events: seq<Event>, id: UInt32): View
    decreases |events|
  {
    if events == [] then v else Routed(RoutedOne(v, events[0], id), events[1..], id)
  }

  /** A channel that is open accepts its own payloads, in order, and one that is closed nothing. */
  lemma {:induction false} RoutedAccepts(v: View, events: seq<Event>, id: UInt32)
    ensures var r := Routed(v, events, id);
      && r.chan.closed == v.chan.closed
      && r.accepted == v.accepted + (if v.chan.closed then [] else Flatten(PayloadsFor(events, id)))
    decreases |events|
  {
    if events != [] {
      RoutedAccepts(RoutedOne(v, events[0], id), events[1..], id);
      PayloadsStep(events, id);
      OneAccepts(v, events[0], id);
      hide RoutedOne, PayloadsFor, Flatten;
    }
  }

  lemma OneAccepts(v: View, event: Event, id: UInt32)
    ensures var r := RoutedOne(v, event, id);
      && r.chan.closed == v.chan.closed
      && r.accepted ==
        v.accepted + (if !v.chan.closed && event.DataFor? && event.channelId == id then event.payload else [])
  {
  }

  /** The window grows by all of its credit, to 32 bits, open or closed. */
  lemma {:induction false} RoutedGrants(v: View, events: seq<Event>, id: UInt32)
    ensures Routed(v, events, id).chan.credit == (v.chan.credit + CreditsFor(events, id)) % WORD_RANGE
    decreases |events|
  {
    if events != [] {
      RoutedGrants(RoutedOne(v, events[0], id), events[1..], id);
      OneGrants(v, events[0], id);
      SumWraps(v.chan.credit, CreditFrom(events[0], id), CreditsFor(events[1..], id));
      hide RoutedOne, CreditFrom;
    }
  }

  lemma SumWraps(a: nat, b: nat, c: nat)
    ensures ((a + b) % WORD_RANGE + c) % WORD_RANGE == (a + (b + c)) % WORD_RANGE
  {
  }

  lemma OneGrants(v: View, event: Event, id: UInt32)
    ensures RoutedOne(v, event, id).chan.credit == (v.chan.credit + CreditFrom(event, id)) % WORD_RANGE
  {
  }

  lemma PayloadsStep(events: seq<Event>, id: UInt32)
    requires events != []
    ensures Flatten(PayloadsFor(events, id)) ==
      (if events[0].DataFor? && events[0].channelId == id then events[0].payload else []) +
      Flatten(PayloadsFor(events[1..], id))
  {
    var later := PayloadsFor(events[1..], id);
    if events[0].DataFor? && events[0].channelId == id {
      assert ([events[0].payload] + later)[1..] == later;
    }
  }

  ghost function Views(manager: ChannelBus.Manager): map<UInt32, View>
    reads manager, manager.channels.Values
  {
    map id | id in manager.channels :: View(manager.channels[id].State(), manager.channels[id].accepted)
  }

  /** One event reaches the bus. */
  method RouteOne(manager: ChannelBus.Manager, event: Event)
    requires manager.Valid()
    modifies manager.channels.Values
    ensures manager.Valid()
    ensures Views(manager) == map id | id in old(Views(manager)) :: RoutedOne(old(Views(manager))[id], event, id)
  {
    if event.DataFor? {
      manager.Deliver(event.channelId, event.payload);
    } else if event.CreditFor? {
      manager.Credit(event.channelId, event.credit);
    }
  }

  /** All events reach the bus, one after the other. */
  method Route(manager: ChannelBus.Manager, events: seq<Event>)
    requires manager.Valid()
    modifies manager.channels.Values
    ensures manager.Valid()
    ensures Views(manager) == map id | id in old(Views(manager)) :: Routed(old(Views(manager))[id], events, id)
  {
    hide ChannelBus.Manager.Valid, RoutedOne, Views;
    assert events[0..] == events && events[|events|..] == [];
    for i := 0 to |events|
      invariant manager.Valid() && Views(manager).Keys == old(Views(manager)).Keys
      invariant forall id :: id in old(Views(manager)) ==>
        Routed(Views(manager)[id], events[i..], id) == Routed(old(Views(manager))[id], events, id)
    {
      assert events[i..][0] == events[i] && events[i..][1..] == events[i + 1..];
      RouteOne(manager, events[i]);
    }
  }

  // --- from frames ----------------------------------------------------------------------

  /** The payloads of the data frames for a channel, in wire order. */
  function FramePayloads(fs: seq<Codec.Frame>, id: UInt32): seq<seq<Byte>> {
    if fs == [] then []
    else if fs[0].kind == Codec.KIND_CHANNEL_DATA && fs[0].channelId == id then
      [fs[0].payload] + FramePayloads(fs[1..], id)
    else FramePayloads(fs[1..], id)
  }

  lemma OneFrame(f: Codec.Frame, later: seq<Event>, decode: seq<Byte> -> Option<Message>, id: UInt32)
    ensures PayloadsFor(DispatchOne(f, decode).events + later, id) ==
      (if f.kind == Codec.KIND_CHANNEL_DATA && f.channelId == id then [f.payload] else []) + PayloadsFor(later, id)
  {
    var events := DispatchOne(f, decode).events;
    if events == [] {
      assert events + later == later;
    } else {
      assert |events| == 1 && (events + later)[1..] == later;
    }
  }

  /** What the frames bring to a channel is its own data frames' payloads, in wire order, and no other's. */
  lemma {:induction false} PayloadsOfFrames(fs: seq<Codec.Frame>, decode: seq<Byte> -> Option<Message>, id: UInt32)
    ensures PayloadsFor(DispatchAll(fs, decode).events, id) == FramePayloads(fs[..Handled(fs, decode)], id)
  {
    hide DispatchOne;
    if fs != [] {
      if DispatchOne(fs[0], decode).refused.Some? {
        RefusedBringsNothing(fs[0], decode);
      } else {
        var n := Handled(fs[1..], decode);
        PayloadsOfFrames(fs[1..], decode, id);
        OneFrame(fs[0], DispatchAll(fs[1..], decode).events, decode, id);
        assert fs[..n + 1][1..] == fs[1..][..n];
      }
    }
  }

  /** The credit in a credit frame for a channel: the second word of its payload. */
  function FrameCredit(f: Codec.Frame, id: UInt32): int {
    if f.kind == Codec.KIND_CREDIT && f.channelId == id && |f.payload| == 8 then
      PlaceValue(f.payload[4], f.payload[5], f.payload[6], f.payload[7])
    else 0
  }

  function FrameCredits(fs: seq<Codec.Frame>, id: UInt32): int {
    if fs == [] then 0 else FrameCredit(fs[0], id) + FrameCredits(fs[1..], id)
  }

  lemma OneCredit(f: Codec.Frame, later: seq<Event>, decode: seq<Byte> -> Option<Message>, id: UInt32)
    requires DispatchOne(f, decode).refused.None?
    ensures CreditsFor(DispatchOne(f, decode).events + later, id) == FrameCredit(f, id) + CreditsFor(later, id)
  {
    var events := DispatchOne(f, decode).events;
    if events == [] {
      assert events + later == later;
    } else {
      assert |events| == 1 && (events + later)[1..] == later;
      if f.kind == Codec.KIND_CREDIT {
        var word := f.payload[4..8];
        assert word[0] == f.payload[4] && word[1] == f.payload[5] && word[2] == f.payload[6] && word[3] == f.payload[7];
      }
    }
  }

  lemma {:induction false} CreditsOfFrames(fs: seq<Codec.Frame>, decode: seq<Byte> -> Option<Message>, id: UInt32)
    ensures CreditsFor(DispatchAll(fs, decode).events, id) == FrameCredits(fs[..Handled(fs, decode)], id)
  {
    hide DispatchOne;
    if fs != [] {
      if DispatchOne(fs[0], decode).refused.Some? {
        RefusedBringsNothing(fs[0], decode);
      } else {
        var n := Handled(fs[1..], decode);
        CreditsOfFrames(fs[1..], decode, id);
        OneCredit(fs[0], DispatchAll(fs[1..], decode).events, decode, id);
        assert fs[..n + 1][1..] == fs[1..][..n];
      }
    }
  }

  lemma RefusedBringsNothing(f: Codec.Frame, decode: seq<Byte> -> Option<Message>)
    ensures DispatchOne(f, decode).refused.Some? ==> DispatchOne(f, decode).events == []
  {
  }

  /** The read loop, and then what it handed on, in order. */
  method Pump(client: Client, manager: ChannelBus.Manager) returns (err: Option<Codec.Error>)
    requires client.Valid() && manager.Valid() && client.events == []
    modifies client`events, client`closed, client`done, client.input, client.pending.Values, manager.channels.Values
    ensures manager.Valid() && client.closed
    ensures var fs := Codec.ParseAll(old(client.input.Rest()), client.input.end).frames;
      Views(manager) == map id | id in old(Views(manager)) ::
        Routed(old(Views(manager))[id], DispatchAll(fs, client.decode).events, id)
  {
    hide ChannelBus.Manager.Valid, Codec.ParseAll, DispatchAll, Routed, Flatten, Views, ServeError;
    ghost var d := DispatchAll(Codec.ParseAll(client.input.Rest(), client.input.end).frames, client.decode);
    err := client.Serve();
    assert client.events == [] + d.events == d.events;
    Route(manager, client.events);
  }

  /**
   What some frames bring to a channel: if it is open, exactly the payloads of its own data frames, in
   wire order, and open or closed the credits sent to it.
   */
  ghost predicate Arrives(v: View, v': View, fs: seq<Codec.Frame>, id: UInt32) {
    && (!v.chan.closed ==> v'.accepted == v.accepted + Flatten(FramePayloads(fs, id)))
    && v'.chan.credit == (v.chan.credit + FrameCredits(fs, id)) % WORD_RANGE
  }

  /**
   A whole input stream, cut anyhow, over any number of open channels: each accepts exactly the payloads
   of its own data frames, in wire order, up to the first frame that cannot be read or acted on; and
   every window, open or closed, grows by the credits sent to it.
   */
  method ServeBus(client: Client, manager: ChannelBus.Manager) returns (err: Option<Codec.Error>)
    requires client.Valid() && manager.Valid() && client.events == []
    modifies client`events, client`closed, client`done, client.input, client.pending.Values, manager.channels.Values
    ensures manager.Valid() && client.closed
    ensures var fs := Codec.ParseAll(old(client.input.Rest()), client.input.end).frames;
      && Views(manager).Keys == old(Views(manager)).Keys
      && forall id :: id in old(Views(manager)) ==>
        Arrives(old(Views(manager))[id], Views(manager)[id], fs[..Handled(fs, client.decode)], id)
  {
    hide ChannelBus.Manager.Valid, Codec.ParseAll, DispatchAll, Handled, Routed, Arrives, Views;
    ghost var fs := Codec.ParseAll(client.input.Rest(), client.input.end).frames;
    ghost var before := Views(manager);
    err := Pump(client, manager);
    forall id | id in before ensures Arrives(before[id], Views(manager)[id], fs[..Handled(fs, client.decode)], id) {
      StreamArrives(before[id], fs, client.decode, id);
    }
  }

  lemma StreamArrives(v: View, fs: seq<Codec.Frame>, decode: seq<Byte> -> Option<Message>, id: UInt32)
    ensures Arrives(v, Routed(v, DispatchAll(fs, decode).events, id), fs[..Handled(fs, decode)], id)
  {
    var events := DispatchAll(fs, decode).events;
    RoutedAccepts(v, events, id);
    RoutedGrants(v, events, id);
    PayloadsOfFrames(fs, decode, id);
    CreditsOfFrames(fs, decode, id);
    hide DispatchAll, Handled, Routed, Flatten, FramePayloads, PayloadsFor, CreditsFor, FrameCredits;
  }
}
