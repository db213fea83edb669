/**
 The multiplexing client (internal/infra/ipc/client.go): its lock sections, its one writer, and the
 read loop that takes every inbound frame to where it belongs. How concurrent calls use them is the
 subject of rpc_steps.dfy and wire_writers.dfy.
 */
module RpcClient {
  import opened Bytes
  import opened ByteStreams
  import opened Codec
  import RpcSteps

  /** A message's id: absent, a JSON string, or some other JSON value. */
  datatype MsgId = NoId | TextId(text: string) | OtherId

  datatype Message = Message(id: MsgId, method_: string, body: seq<Byte>)

  predicate IsResponse(m: Message) {
    m.method_ == "" && m.id != NoId
  }

  /** Where an inbound frame went. */
  datatype Event =
    | DataFor(channelId: UInt32, payload: seq<Byte>)
    | CreditFor(channelId: UInt32, credit: UInt32)
    | Answer(msg: Message)       // a response, given to resume
    | Request(msg: Message)      // a request or notification, given to the handler on a goroutine

  /** What the read loop makes of the frames before it stops, and why it stops early if it does. */
  datatype Dispatch = Dispatch(events: seq<Event>, refused: Option<Error>)

  function DispatchOne(f: Frame, decode: seq<Byte> -> Option<Message>): Dispatch {
    if f.kind == KIND_JSONRPC then
      match decode(f.payload)
      case None => Dispatch([], None)
      case Some(msg) => Dispatch([if IsResponse(msg) then Answer(msg) else Request(msg)], None)
    else if f.kind == KIND_CHANNEL_DATA then Dispatch([DataFor(f.channelId, f.payload)], None)
    else if f.kind == KIND_CREDIT then
      match DecodeCredit(f.channelId, f.payload)
      case Ok(credit) => Dispatch([CreditFor(f.channelId, credit)], None)
      case Err(error) => Dispatch([], Some(error))
    else Dispatch([], None)
  }

  function DispatchAll(fs: seq<Frame>, decode: seq<Byte> -> Option<Message>): Dispatch {
    if fs == [] then Dispatch([], None)
    else
      var first := DispatchOne(fs[0], decode);
      if first.refused.Some? then first
      else
        var later := DispatchAll(fs[1..], decode);
        later.(events := first.events + later.events)
  }

  /** What Serve reports: a frame it could not act on, or how the stream stopped, unless it just ended. */
  function ServeError(d: Dispatch, stopped: Error): Option<Error> {
    if d.refused.Some? then d.refused else if stopped == Stream(EOF) then None else Some(stopped)
  }

  /** One turn of the read loop, for a loop that has already seen some events. */
  lemma DispatchTurn(f: Frame, fs: seq<Frame>, decode: seq<Byte> -> Option<Message>, seen: seq<Event>)
    ensures var first, all := DispatchOne(f, decode), DispatchAll([f] + fs, decode);
            if first.refused.Some? then all == first
            else
              var later := DispatchAll(fs, decode);
              all.(events := seen + all.events) == later.(events := (seen + first.events) + later.events)
  {
    assert ([f] + fs)[1..] == fs;
    hide DispatchOne;
  }

  /** How many frames are acted on: all of them, or those before the first that is refused. */
  function Handled(fs: seq<Frame>, decode: seq<Byte> -> Option<Message>): (n: nat)
    ensures n <= |fs| && (n == |fs| <==> DispatchAll(fs, decode).refused.None?)
  {
    if fs == [] || DispatchOne(fs[0], decode).refused.Some? then 0 else 1 + Handled(fs[1..], decode)
  }

  // --- which messages are answers --------------------------------------------------------

  /** The control message a frame carries, if it is one that decodes. */
  function MessageIn(f: Frame, decode: seq<Byte> -> Option<Message>): seq<Message> {
    if f.kind == KIND_JSONRPC && decode(f.payload).Some? then [decode(f.payload).value] else []
  }

  /** Those that some frames carry, in wire order. */
  function Messages(fs: seq<Frame>, decode: seq<Byte> -> Option<Message>): seq<Message> {
    if fs == [] then [] else MessageIn(fs[0], decode) + Messages(fs[1..], decode)
  }

  /** Those given to waiting calls, and those given to the handler. */
  function Answered(events: seq<Event>): seq<Message> {
    if events == [] then []
    else if events[0].Answer? then [events[0].msg] + Answered(events[1..])
    else Answered(events[1..])
  }

  function Asked(events: seq<Event>): seq<Message> {
    if events == [] then []
    else if events[0].Request? then [events[0].msg] + Asked(events[1..])
    else Asked(events[1..])
  }

  /** The messages that name a method. */
  function WithMethod(msgs: seq<Message>): seq<Message> {
    if msgs == [] then []
    else if |msgs[0].method_| > 0 then [msgs[0]] + WithMethod(msgs[1..])
    else WithMethod(msgs[1..])
  }

  /** The messages that name no method and do carry an id. */
  function Replies(msgs: seq<Message>): seq<Message> {
    if msgs == [] then []
    else if |msgs[0].method_| == 0 && !msgs[0].id.NoId? then [msgs[0]] + Replies(msgs[1..])
    else Replies(msgs[1..])
  }

  lemma OneDispatched(f: Frame, later: seq<Event>, decode: seq<Byte> -> Option<Message>)
    ensures var events, msgs := DispatchOne(f, decode).events + later, MessageIn(f, decode);
      && WithMethod(Asked(events)) == WithMethod(msgs) + WithMethod(Asked(later))
      && Answered(events) == Replies(msgs) + Answered(later)
  {
    var events := DispatchOne(f, decode).events;
    if events == [] {
      assert events + later == later;
    } else {
      assert (events + later)[1..] == later;
    }
  }

  lemma {:induction false} Selected(msg: seq<Message>, later: seq<Message>)
    requires |msg| <= 1
    ensures WithMethod(msg + later) == WithMethod(msg) + WithMethod(later)
    ensures Replies(msg + later) == Replies(msg) + Replies(later)
  {
    if msg == [] {
      assert msg + later == later;
    } else {
      assert (msg + later)[1..] == later && msg[1..] == [];
    }
  }

  /**
   The messages that name a method all go to the handler, in wire order, whatever id they carry; and
   what waiting calls are given is exactly the messages that name none and carry an id.
   */
  lemma {:induction false} RequestsReachTheHandler(fs: seq<Frame>, decode: seq<Byte> -> Option<Message>)
    ensures var events, msgs := DispatchAll(fs, decode).events, Messages(fs[..Handled(fs, decode)], decode);
      WithMethod(Asked(events)) == WithMethod(msgs) && Answered(events) == Replies(msgs)
  {
    hide DispatchOne;
    if fs != [] {
      if DispatchOne(fs[0], decode).refused.Some? {
        RefusedIsSilent(fs[0], decode);
      } else {
        var n, d := Handled(fs[1..], decode), DispatchAll(fs[1..], decode);
        var front := fs[..n + 1];
        RequestsReachTheHandler(fs[1..], decode);
        OneDispatched(fs[0], d.events, decode);
        assert front[1..] == fs[1..][..n] && front[0] == fs[0];
        Selected(MessageIn(fs[0], decode), Messages(front[1..], decode));
      }
    }
  }

  lemma RefusedIsSilent(f: Frame, decode: seq<Byte> -> Option<Message>)
    ensures DispatchOne(f, decode).refused.Some? ==> DispatchOne(f, decode).events == []
  {
  }

  /** Serve's error: none exactly when every frame could be acted on and the stream ended between two of them. */
  lemma ServeErrorExact(d: Dispatch, stopped: Error)
    ensures ServeError(d, stopped) == None <==> d.refused == None && stopped == Stream(EOF)
    ensures d.refused.Some? ==> ServeError(d, stopped) == d.refused
    ensures d.refused.None? && stopped != Stream(EOF) ==> ServeError(d, stopped) == Some(stopped)
  {
  }

  /** A frame ends the connection exactly when it is a credit frame for another channel, of no credit, or of the wrong length. */
  lemma RefusedExactly(f: Frame, decode: seq<Byte> -> Option<Message>)
    ensures DispatchOne(f, decode).refused.Some? <==>
      f.kind == 3 && (|f.payload| != 8 || Word(f.payload[..4]) != f.channelId || Word(f.payload[4..8]) == 0)
  {
  }

  /** The first answer to an id among some events. */
  function FirstAnswer(events: seq<Event>, id: string): Option<Message> {
    if events == [] then None
    else if events[0].Answer? && events[0].msg.id == TextId(id) then Some(events[0].msg)
    else FirstAnswer(events[1..], id)
  }

  lemma {:induction false} FirstAnswerAppend(a: seq<Event>, b: seq<Event>, id: string)
    ensures FirstAnswer(a + b, id) == if FirstAnswer(a, id).Some? then FirstAnswer(a, id) else FirstAnswer(b, id)
  {
    if a == [] {
      assert a + b == b;
    } else {
      assert (a + b)[1..] == a[1..] + b;
      FirstAnswerAppend(a[1..], b, id);
    }
  }

  /** Each waiting call holds what it held before, or else the first answer to its id. */
  function Filled(before: map<string, Option<Message>>, seen: seq<Event>): map<string, Option<Message>> {
    map id | id in before :: if before[id].Some? then before[id] else FirstAnswer(seen, id)
  }

  predicate FirstAt(msgs: seq<Message>, m: nat, id: string)
    requires m < |msgs|
  {
    msgs[m].id == TextId(id) && forall n :: 0 <= n < m ==> msgs[n].id != TextId(id)
  }

  /** The first of some messages that carries the id, or none if none does. */
  ghost predicate IsFirstAnswer(box: Option<Message>, msgs: seq<Message>, id: string) {
    match box
    case None => forall m :: m in msgs ==> m.id != TextId(id)
    case Some(msg) => exists m :: 0 <= m < |msgs| && msgs[m] == msg && FirstAt(msgs, m, id)
  }

  lemma {:induction false} FirstAnswerIsFirst(events: seq<Event>, id: string)
    ensures IsFirstAnswer(FirstAnswer(events, id), Answered(events), id)
  {
    if events != [] {
      var later, msgs := Answered(events[1..]), Answered(events);
      var box := FirstAnswer(events[1..], id);
      FirstAnswerIsFirst(events[1..], id);
      if events[0].Answer? {
        assert msgs == [events[0].msg] + later;
        if events[0].msg.id == TextId(id) {
          assert FirstAt(msgs, 0, id);
        } else if box.Some? {
          var m :| 0 <= m < |later| && later[m] == box.value && FirstAt(later, m, id);
          assert forall n :: 0 < n < m + 1 ==> msgs[n] == later[n - 1];
          assert msgs[m + 1] == later[m] && FirstAt(msgs, m + 1, id);
        }
      }
    }
  }

  lemma RepliesNameNoMethod(msgs: seq<Message>)
    ensures forall m :: m in Replies(msgs) ==> m.method_ == ""
  {
  }

  /**
   A call that waits with an empty channel is given the first of the stream's replies that carries its
   id, and so never a message that names a method; one that has its answer keeps it.
   */
  lemma CallsAreFilledWithReplies(before: map<string, Option<Message>>, fs: seq<Frame>,
      decode: seq<Byte> -> Option<Message>, id: string)
    requires id in before
    ensures var after := Filled(before, DispatchAll(fs, decode).events);
      && id in after && (before[id].Some? ==> after[id] == before[id])
      && (before[id].None? ==> IsFirstAnswer(after[id], Replies(Messages(fs[..Handled(fs, decode)], decode)), id))
      && (before[id].None? && after[id].Some? ==> after[id].value.method_ == "")
  {
    RequestsReachTheHandler(fs, decode);
    var replies := Replies(Messages(fs[..Handled(fs, decode)], decode));
    RepliesNameNoMethod(Messages(fs[..Handled(fs, decode)], decode));
    FirstAnswerIsFirst(DispatchAll(fs, decode).events, id);
    hide DispatchAll, Replies, Messages, Answered, FirstAnswer, Handled;
  }

  lemma OneAnswer(msg: Message)
    ensures forall id :: FirstAnswer([Answer(msg)], id) == if msg.id == TextId(id) then Some(msg) else None
  {
    assert [Answer(msg)][1..] == [];
  }

  /** Events without an answer fill no one's channel. */
  lemma NoAnswers(before: map<string, Option<Message>>)
    ensures Filled(before, []) == before
    ensures forall e: Event :: !e.Answer? ==> Filled(before, [e]) == before
  {
    forall e: Event, id | !e.Answer? ensures FirstAnswer([e], id) == None {
      assert [e][1..] == [];
    }
  }

  lemma FilledAppend(before: map<string, Option<Message>>, a: seq<Event>, b: seq<Event>)
    ensures Filled(Filled(before, a), b) == Filled(before, a + b)
  {
    forall id | id in before {
      FirstAnswerAppend(a, b, id);
    }
  }

  datatype SendResult = SendOk | SendClosed | SendError(error: Error)

  /** A call's response channel: a buffer of one, so that a send never waits. */
  class Slot {
    var box: Option<Message>

    constructor ()
      ensures box == None
    {
      box := None;
    }

    /** The select with a default branch. */
    method TrySend(msg: Message)
      modifies this
      ensures box == if old(box).Some? then old(box) else Some(msg)
    {
      if box.None? {
        box := Some(msg);
      }
    }
  }

  class Client {
    const input: Source
    const output: Sink
    const decode: seq<Byte> -> Option<Message>

    var nextID: nat
    var pending: map<string, Slot>
    var closed: bool
    var done: bool
    var events: seq<Event>   // what has been handed on, in order

    ghost predicate Valid()
      reads this
    {
      && nextID < RpcSteps.ID_RANGE
      && (done ==> closed)
      && forall id, other :: id in pending && other in pending && id != other ==> pending[id] != pending[other]
    }

    constructor (input: Source, output: Sink, decode: seq<Byte> -> Option<Message>)
      ensures Valid() && this.input == input && this.output == output && this.decode == decode
      ensures nextID == 0 && pending == map[] && !closed && !done && events == []
    {
      this.input, this.output, this.decode := input, output, decode;
      nextID, pending, closed, done, events := 0, map[], false, false, [];
    }

    /** registerPending: a new id and an empty channel under it, unless the client is closed. */
    method RegisterPending() returns (r: Option<(string, Slot)>)
      requires Valid()
      modifies this
      ensures Valid() && closed == old(closed) && done == old(done) && events == old(events)
      ensures r.None? <==> old(closed)
      ensures r.None? ==> nextID == old(nextID) && pending == old(pending)
      ensures r.Some? ==>
        && nextID == (old(nextID) + 1) % RpcSteps.ID_RANGE
        && r.value.0 == RpcSteps.IdText(old(nextID) + 1)
        && fresh(r.value.1) && r.value.1.box == None && pending == old(pending)[r.value.0 := r.value.1]
    {
      if closed {
        return None;
      }
      nextID := (nextID + 1) % RpcSteps.ID_RANGE;
      var id := RpcSteps.IdText(nextID);
      var ch := new Slot();
      pending := pending[id := ch];
      return Some((id, ch));
    }

    method ForgetPending(id: string)
      requires Valid()
      modifies this`pending
      ensures Valid() && pending == old(pending) - {id}
    {
      pending := pending - {id};
    }

    /** What each waiting call's channel holds. */
    ghost function Boxes(): map<string, Option<Message>>
      reads this, pending.Values
    {
      map id | id in pending :: pending[id].box
    }

    /** resume: the response goes to the call that waits for its id, if there is one and it has none yet. */
    method Resume(msg: Message)
      requires Valid()
      modifies pending.Values
      ensures Boxes() == Filled(old(Boxes()), [Answer(msg)])
    {
      OneAnswer(msg);
      if !msg.id.TextId? || msg.id.text !in pending {
        return;
      }
      pending[msg.id.text].TrySend(msg);
    }

    method Close()
      requires Valid()
      modifies this`closed, this`done
      ensures Valid() && closed && done
    {
      if !done {
        closed := true;
        done := true;
      }
    }

    /** writeFrame: one frame, whole, unless the connection is gone or the codec refuses it. */
    method WriteFrame(f: Frame) returns (r: SendResult)
      modifies output
      ensures r == SendClosed <==> done
      ensures !done && Codec.Valid(f) ==> r == if old(output.room) > 0 then SendOk else SendError(WriteFailed)
      ensures !done && !Codec.Valid(f) ==> r.SendError? && Some(r.error) == Refusal(f)
      ensures output.writes == old(output.writes) + (if r == SendOk then [Encode(f)] else [])
    {
      if done {
        return SendClosed;
      }
      var err := Codec.WriteFrame(output, f);
      return if err == None then SendOk else SendError(err.value);
    }

    method WriteChannel(channelId: UInt32, data: seq<Byte>) returns (r: SendResult)
      modifies output
      ensures r.SendError? && r.error != WriteFailed <==> !done && |data| > MAX_FRAME_LENGTH
      ensures r == SendOk ==> |data| <= MAX_FRAME_LENGTH
      ensures output.writes == old(output.writes) +
                (if r == SendOk then [Encode(Frame(KIND_CHANNEL_DATA, channelId, data))] else [])
    {
      r := WriteFrame(Frame(KIND_CHANNEL_DATA, channelId, data));
    }

    /** GrantCredit: a non-zero grant is one the other side's DecodeCredit takes. */
    method GrantCredit(channelId: UInt32, credit: UInt32) returns (r: SendResult)
      modifies output
      ensures r.SendError? ==> r.error == WriteFailed
      ensures var payload := CreditPayload(channelId, credit);
              && (credit != 0 ==> DecodeCredit(channelId, payload) == Ok(credit))
              && output.writes == old(output.writes) +
                   (if r == SendOk then [Encode(Frame(KIND_CREDIT, channelId, payload))] else [])
    {
      var payload := EncodeCredit(channelId, credit);
      DecodeCreditExact(channelId, payload[..], credit);
      r := WriteFrame(Frame(KIND_CREDIT, channelId, payload[..]));
    }

    /** One frame handled by the read loop; an error ends the connection. */
    method Handle(f: Frame) returns (refused: Option<Error>)
      requires Valid()
      modifies this`events, pending.Values
      ensures Valid() && pending == old(pending)
      ensures var d := DispatchOne(f, decode); refused == d.refused && events == old(events) + d.events
      ensures Boxes() == Filled(old(Boxes()), DispatchOne(f, decode).events)
    {
      NoAnswers(Boxes());
      if f.kind == KIND_JSONRPC {
        var msg := decode(f.payload);
        if msg.Some? {
          if IsResponse(msg.value) {
            events := events + [Answer(msg.value)];
            Resume(msg.value);
          } else {
            events := events + [Request(msg.value)];
          }
        }
      } else if f.kind == KIND_CHANNEL_DATA {
        events := events + [DataFor(f.channelId, f.payload)];
      } else if f.kind == KIND_CREDIT {
        var credit := DecodeCredit(f.channelId, f.payload);
        if credit.Err? {
          return Some(credit.error);
        }
        events := events + [CreditFor(f.channelId, credit.value)];
      }
      return None;
    }

    /** What the read loop has left to do, and what it has done, make up the whole stream's dispatch. */
    ghost predicate Serving(d: Dispatch, error: Error, seen: seq<Event>)
      reads this, input
    {
      var left := ParseAll(input.Rest(), input.end);
      var later := DispatchAll(left.frames, decode);
      left.error == error && d == later.(events := seen + later.events)
    }

    /** One turn of the read loop. */
    method ServeOne(ghost d: Dispatch, ghost error: Error, ghost seen: seq<Event>)
      returns (stop: bool, err: Option<Error>, ghost one: seq<Event>)
      requires Valid() && Serving(d, error, seen)
      modifies this`events, input, pending.Values
      ensures Valid() && pending == old(pending) && events == old(events) + one && Boxes() == Filled(old(Boxes()), one)
      ensures !stop ==> Serving(d, error, seen + one) && |input.Rest()| < |old(input.Rest())|
      ensures stop ==> d.events == seen + one && err == ServeError(d, error)
    {
      assert DispatchAll([], decode) == Dispatch([], None);
      hide Parse, DispatchOne, DispatchAll, FirstAnswer, Flatten;
      one := [];
      var frame := ReadFrame(input);
      if frame.Err? {
        assert seen + [] == seen;
        return true, if frame.error == Stream(EOF) then None else Some(frame.error), [];
      }
      DispatchTurn(frame.value, ParseAll(input.Rest(), input.end).frames, decode, seen);
      one := DispatchOne(frame.value, decode).events;
      err := Handle(frame.value);
      stop := err.Some?;
    }

    /** The loop of Serve, up to its deferred close. */
    method ServeLoop(ghost d: Dispatch, ghost error: Error) returns (err: Option<Error>)
      requires Valid() && Serving(d, error, [])
      modifies this`events, input, pending.Values
      ensures Valid() && pending == old(pending) && events == old(events) + d.events
      ensures err == ServeError(d, error) && Boxes() == Filled(old(Boxes()), d.events)
    {
      ghost var seen: seq<Event> := [];
      NoAnswers(Boxes());
      hide Serving, Boxes, Filled, Valid, ServeError;
      err := None;
      var stop := false;
      while !stop
        invariant Valid() && pending == old(pending) && events == old(events) + seen
        invariant Boxes() == Filled(old(Boxes()), seen)
        invariant if stop then d.events == seen && err == ServeError(d, error) else Serving(d, error, seen)
        decreases !stop, |input.Rest()|
      {
        ghost var one;
        stop, err, one := ServeOne(d, error, seen);
        FilledAppend(old(Boxes()), seen, one);
        seen := seen + one;
      }
    }

    /**
     Serve: every frame up to the first that cannot be read or acted on goes to its place, in wire
     order; a clean end of the stream is no error, anything else is reported, and either way the
     client is closed. A waiting call is given the first response that carries its id.
     */
    method Serve() returns (err: Option<Error>)
      requires Valid()
      modifies this`events, this`closed, this`done, input, pending.Values
      ensures Valid() && closed && done && pending == old(pending)
      ensures var reading := ParseAll(old(input.Rest()), input.end);
              var d := DispatchAll(reading.frames, decode);
              && events == old(events) + d.events
              && err == ServeError(d, reading.error)
              && Boxes() == Filled(old(Boxes()), d.events)
    {
      ghost var all := ParseAll(input.Rest(), input.end);
      ghost var d := DispatchAll(all.frames, decode);
      assert Serving(d, all.error, []);
      err := ServeLoop(d, all.error);
      Close();
    }
  }
}
