/**
 Request and response correlation (internal/infra/ipc/client.go) as a transition system: any number
 of calls, one frame reader, and a host that answers what it likes, when it likes, as often as it
 likes. Each lock section, each channel operation and each write is a step of its own.
 */
module RpcSteps {
  import opened Bytes
  import Decimals
  import Runs
  import Totals

  const ID_RANGE := 0x1_0000_0000_0000_0000

  /** The id of the n-th call: the counter is a 64-bit word. */
  function IdText(n: nat): string {
    "d" + Decimals.Decimal(n % ID_RANGE)
  }

  /** A response as it was read: the id it carries, and its place among all responses read. */
  datatype Response = Response(id: string, serial: nat)

  datatype Outcome = Answered(msg: Response) | Cancelled | ConnectionClosed | NotSent

  /** One Call, and how far it is. `n` is the counter value it drew. */
  datatype Call =
    | Entering
    | Refused                              // registerPending found the client closed
    | Registered(n: nat)                   // in the pending map, request not yet written
    | Waiting(n: nat)                      // in the select
    | Leaving(n: nat, outcome: Outcome)    // deferred forgetPending still to run
    | Returned(n: nat, outcome: Outcome)

  datatype FrameReader =
    | Idle
    | Read(msg: Response)                          // resume, before the lookup
    | Found(msg: Response, call: Option<nat>)      // resume, before the send
    | Closing                                      // close, between `closed` and `done`
    | Ended

  datatype Client = Client(
    drawn: nat,                    // calls that were given an id
    pending: map<string, nat>,     // id to call
    calls: seq<Call>,
    slots: seq<Option<Response>>,  // each call's channel, of capacity one
    reader: FrameReader,
    closed: bool,
    done: bool,
    // histories
    wire: seq<string>,             // the ids of all responses read
    firsts: seq<Option<Response>>) // for each call, the first response handled under its id while it was registered

  ghost predicate Init(s: Client) {
    s == Client(0, map[], [], [], Idle, false, false, [], [])
  }

  datatype Action =
    | Start                              // a goroutine calls Call
    | Register(i: nat)
    | Send(i: nat, ok: bool)
    | Cancel(i: nat) | SeeDone(i: nat) | Take(i: nat)
    | Forget(i: nat)
    | Arrive(id: string) | Lookup | PutSend | PutDefault
    | SetClosed | CloseDone

  predicate HasId(c: Call) {
    c.Registered? || c.Waiting? || c.Leaving? || c.Returned?
  }

  predicate HasRoom(s: Client, i: nat) {
    i < |s.slots| && s.slots[i].None?
  }

  predicate Enabled(s: Client, a: Action) {
    match a
    case Start => true
    case Register(i) => i < |s.calls| && s.calls[i].Entering?
    case Send(i, ok) => i < |s.calls| && s.calls[i].Registered? && (s.done ==> !ok)
    case Cancel(i) => i < |s.calls| && s.calls[i].Waiting?
    case SeeDone(i) => i < |s.calls| && s.calls[i].Waiting? && s.done
    case Take(i) => i < |s.calls| && i < |s.slots| && s.calls[i].Waiting? && s.slots[i].Some?
    case Forget(i) => i < |s.calls| && s.calls[i].Leaving?
    case Arrive(_) => s.reader == Idle
    case Lookup => s.reader.Read?
    // the select of resume: the send where the channel has room, the default branch where it has not
    case PutSend => s.reader.Found? && s.reader.call.Some? && HasRoom(s, s.reader.call.value)
    case PutDefault => s.reader.Found? && !(s.reader.call.Some? && HasRoom(s, s.reader.call.value))
    case SetClosed => s.reader == Idle
    case CloseDone => s.reader == Closing
  }

  function Move(s: Client, i: nat, c: Call): Client
    requires i < |s.calls|
  {
    s.(calls := s.calls[i := c])
  }

  /** The history, once a response is handled: kept for the calls themselves, whatever the pending map says. */
  function Firsts(s: Client, msg: Response): (firsts: seq<Option<Response>>)
    ensures |firsts| == |s.firsts|
  {
    seq(|s.firsts|, i requires 0 <= i < |s.firsts| =>
      if s.firsts[i].None? && i < |s.calls| && InTable(s.calls[i]) && IdText(s.calls[i].n) == msg.id then Some(msg)
      else s.firsts[i])
  }

  /** A call's entry is in the map from registerPending to forgetPending. */
  predicate InTable(c: Call) {
    c.Registered? || c.Waiting? || c.Leaving?
  }

  function Do(s: Client, a: Action): Client
    requires Enabled(s, a)
  {
    match a
    case Start => s.(calls := s.calls + [Entering], slots := s.slots + [None], firsts := s.firsts + [None])
    case Register(i) =>
      if s.closed then Move(s, i, Refused)
      else
        var n := s.drawn + 1;
        Move(s, i, Registered(n)).(drawn := n, pending := s.pending[IdText(n) := i])
    case Send(i, ok) =>
      Move(s, i, if ok then Waiting(s.calls[i].n) else Leaving(s.calls[i].n, NotSent))
    case Cancel(i) => Move(s, i, Leaving(s.calls[i].n, Cancelled))
    case SeeDone(i) => Move(s, i, Leaving(s.calls[i].n, ConnectionClosed))
    case Take(i) => Move(s, i, Leaving(s.calls[i].n, Answered(s.slots[i].value))).(slots := s.slots[i := None])
    case Forget(i) =>
      Move(s, i, Returned(s.calls[i].n, s.calls[i].outcome)).(pending := s.pending - {IdText(s.calls[i].n)})
    case Arrive(id) => s.(reader := Read(Response(id, |s.wire|)), wire := s.wire + [id])
    case Lookup =>
      var msg := s.reader.msg;
      s.(reader := Found(msg, if msg.id in s.pending then Some(s.pending[msg.id]) else None), firsts := Firsts(s, msg))
    case PutSend => s.(reader := Idle, slots := s.slots[s.reader.call.value := Some(s.reader.msg)])
    case PutDefault => s.(reader := Idle)
    case SetClosed => s.(reader := Closing, closed := true)
    case CloseDone => s.(reader := Ended, done := true)
  }

  ghost predicate Next(s: Client, s': Client) {
    exists a :: Enabled(s, a) && s' == Do(s, a)
  }

  // --- correlation ---------------------------------------------------------------

  /** Two calls get the same id exactly when the counter has gone all the way round between them. */
  lemma IdTextExact(m: nat, n: nat)
    ensures IdText(m) == IdText(n) <==> m % ID_RANGE == n % ID_RANGE
  {
    hide Decimals.Decimal, Decimals.Digits;
    if IdText(m) == IdText(n) {
      assert IdText(m)[1..] == Decimals.Decimal(m % ID_RANGE) && IdText(n)[1..] == Decimals.Decimal(n % ID_RANGE);
      Decimals.DecimalInjective(m % ID_RANGE, n % ID_RANGE);
    }
  }

  lemma IdTextInjective(m: nat, n: nat)
    requires m < ID_RANGE && n < ID_RANGE && IdText(m) == IdText(n)
    ensures m == n
  {
    hide IdText;
    IdTextExact(m, n);
  }

  /** A response that was read, and that call i may be given. */
  predicate MeantFor(s: Client, msg: Response, i: nat) {
    && msg.serial < |s.wire| && s.wire[msg.serial] == msg.id
    && i < |s.calls| && HasId(s.calls[i]) && msg.id == IdText(s.calls[i].n)
  }

  /** Ids are counter values drawn so far, and no two calls drew the same. */
  ghost predicate Numbered(s: Client) {
    && |s.slots| == |s.calls|
    && (forall i :: 0 <= i < |s.calls| && HasId(s.calls[i]) ==> 1 <= s.calls[i].n <= s.drawn)
    && (forall i, j :: 0 <= i < j < |s.calls| && HasId(s.calls[i]) && HasId(s.calls[j]) ==> s.calls[i].n != s.calls[j].n)
  }

  /** The pending map holds exactly the calls between register and forget. */
  ghost predicate TableExact(s: Client) {
    && (forall i :: 0 <= i < |s.calls| && InTable(s.calls[i]) ==>
        IdText(s.calls[i].n) in s.pending && s.pending[IdText(s.calls[i].n)] == i)
    && (forall id :: id in s.pending ==>
        s.pending[id] < |s.calls| && InTable(s.calls[s.pending[id]]) && IdText(s.calls[s.pending[id]].n) == id)
  }

  /** Responses sit only where they belong, whoever holds them. */
  ghost predicate Correlated(s: Client) {
    && (forall i :: 0 <= i < |s.slots| && s.slots[i].Some? ==> MeantFor(s, s.slots[i].value, i))
    && (forall i :: 0 <= i < |s.calls| && (s.calls[i].Leaving? || s.calls[i].Returned?) && s.calls[i].outcome.Answered? ==>
        MeantFor(s, s.calls[i].outcome.msg, i))
    && (s.reader.Read? || s.reader.Found? ==>
        s.reader.msg.serial < |s.wire| && s.wire[s.reader.msg.serial] == s.reader.msg.id)
    && (s.reader.Found? && s.reader.call.Some? ==> MeantFor(s, s.reader.msg, s.reader.call.value))
  }

  /** A call that could still be answered: it is registered, and has not left the select. */
  predicate Open(c: Call) {
    c.Registered? || c.Waiting?
  }

  /** The reader is about to give call i the first response to its id. */
  predicate OnItsWay(s: Client, i: nat) {
    s.reader.Found? && s.reader.call == Some(i) && HasRoom(s, i) && i < |s.firsts| && s.firsts[i] == Some(s.reader.msg)
  }

  /** The response a call ends with, if it ends with one. */
  predicate Got(c: Call, msg: Response) {
    (c.Leaving? || c.Returned?) && c.outcome == Answered(msg)
  }

  /** What an open call's channel holds is the first response to its id, and what it ends with was that. */
  ghost predicate FirstKept(s: Client) {
    && |s.firsts| == |s.calls|
    && (forall i :: 0 <= i < |s.calls| && !HasId(s.calls[i]) ==> s.firsts[i] == None)
    && (s.reader.Found? && s.reader.call.Some? && s.reader.call.value < |s.firsts| ==> s.firsts[s.reader.call.value].Some?)
    && (forall i :: 0 <= i < |s.calls| && i < |s.slots| && Open(s.calls[i]) ==>
        s.slots[i] == s.firsts[i] || OnItsWay(s, i))
    && (forall i :: 0 <= i < |s.calls| && (s.calls[i].Leaving? || s.calls[i].Returned?) && s.calls[i].outcome.Answered? ==>
        s.firsts[i] == Some(s.calls[i].outcome.msg))
  }

  ghost predicate Inv(s: Client) {
    && (s.done || s.reader.Closing? ==> s.closed)
    && (s.reader.Ended? ==> s.done)
    && (s.drawn < ID_RANGE ==> Numbered(s) && TableExact(s) && Correlated(s) && FirstKept(s))
  }

  lemma RegisterNumbered(s: Client, i: nat)
    requires Numbered(s) && Enabled(s, Register(i))
    ensures Numbered(Do(s, Register(i)))
  {
  }

  /** Every other step keeps each call's number. */
  lemma QuietNumbered(s: Client, s': Client)
    requires Numbered(s) && s'.drawn == s.drawn && |s'.slots| == |s'.calls| >= |s.calls|
    requires forall i :: 0 <= i < |s'.calls| && HasId(s'.calls[i]) ==>
      i < |s.calls| && HasId(s.calls[i]) && s'.calls[i].n == s.calls[i].n
    ensures Numbered(s')
  {
  }

  lemma StepNumbered(s: Client, a: Action)
    requires Numbered(s) && Enabled(s, a)
    ensures Numbered(Do(s, a))
  {
    hide IdText;
    if a.Register? { RegisterNumbered(s, a.i); } else { QuietNumbered(s, Do(s, a)); }
  }

  lemma RegisterTable(s: Client, i: nat)
    requires Numbered(s) && TableExact(s) && Enabled(s, Register(i)) && s.drawn + 1 < ID_RANGE
    ensures TableExact(Do(s, Register(i)))
  {
    hide IdText;
    var n := s.drawn + 1;
    forall m: nat | m < n ensures IdText(m) != IdText(n) {
      if IdText(m) == IdText(n) {
        IdTextInjective(m, n);
      }
    }
  }

  lemma ForgetTable(s: Client, i: nat)
    requires Numbered(s) && TableExact(s) && Enabled(s, Forget(i)) && s.drawn < ID_RANGE
    ensures TableExact(Do(s, Forget(i)))
  {
    hide IdText;
    var n := s.calls[i].n;
    forall m: nat | m < ID_RANGE && m != n ensures IdText(m) != IdText(n) {
      if IdText(m) == IdText(n) {
        IdTextInjective(m, n);
      }
    }
  }

  /** Every other step keeps each call in the table, or out of it, under its number. */
  lemma QuietTable(s: Client, s': Client)
    requires TableExact(s) && s'.pending == s.pending && |s'.calls| >= |s.calls|
    requires forall i :: 0 <= i < |s.calls| && InTable(s.calls[i]) ==>
      InTable(s'.calls[i]) && s'.calls[i].n == s.calls[i].n
    requires forall i :: 0 <= i < |s'.calls| && InTable(s'.calls[i]) ==> i < |s.calls| && InTable(s.calls[i])
    ensures TableExact(s')
  {
    hide IdText;
  }

  lemma StepTable(s: Client, a: Action)
    requires Numbered(s) && TableExact(s) && Enabled(s, a) && Do(s, a).drawn < ID_RANGE
    ensures TableExact(Do(s, a))
  {
    hide Numbered, TableExact, IdText;
    if a.Register? && !s.closed { RegisterTable(s, a.i); }
    else if a.Forget? { ForgetTable(s, a.i); }
    else { QuietTable(s, Do(s, a)); }
  }

  /** What is meant for a call stays meant for it. */
  lemma MeantStays(s: Client, a: Action)
    requires Enabled(s, a)
    ensures forall msg, i :: MeantFor(s, msg, i) ==> MeantFor(Do(s, a), msg, i)
  {
    hide IdText;
  }

  lemma CallCorrelated(s: Client, a: Action)
    requires Correlated(s) && Enabled(s, a) && |s.slots| == |s.calls|
    requires a.Start? || a.Register? || a.Send? || a.Cancel? || a.SeeDone? || a.Take? || a.Forget?
    ensures Correlated(Do(s, a))
  {
    MeantStays(s, a);
    hide MeantFor, IdText;
  }

  lemma LookupCorrelated(s: Client)
    requires Correlated(s) && TableExact(s) && s.reader.Read?
    ensures Correlated(Do(s, Lookup))
  {
    hide IdText;
  }

  lemma ReaderCorrelated(s: Client, a: Action)
    requires Correlated(s) && Enabled(s, a) && |s.slots| == |s.calls|
    requires a.Arrive? || a.PutSend? || a.PutDefault? || a.SetClosed? || a.CloseDone?
    ensures Correlated(Do(s, a))
  {
    MeantStays(s, a);
    hide MeantFor, IdText;
  }

  lemma StepCorrelated(s: Client, a: Action)
    requires Numbered(s) && TableExact(s) && Correlated(s) && Enabled(s, a)
    ensures Correlated(Do(s, a))
  {
    if a.Lookup? {
      LookupCorrelated(s);
    } else if a.Arrive? || a.PutSend? || a.PutDefault? || a.SetClosed? || a.CloseDone? {
      ReaderCorrelated(s, a);
    } else {
      CallCorrelated(s, a);
    }
  }

  predicate EndsWithAnswer(c: Call) {
    (c.Leaving? || c.Returned?) && c.outcome.Answered?
  }

  /** One call moves, and neither the reader, a channel nor the history does. */
  lemma MoveKeepsFirst(s: Client, i: nat, c: Call)
    requires FirstKept(s) && |s.slots| == |s.calls| && i < |s.calls|
    requires HasId(s.calls[i]) ==> HasId(c)
    requires Open(c) && !Open(s.calls[i]) ==> s.slots[i] == s.firsts[i]
    requires EndsWithAnswer(c) ==> s.firsts[i] == Some(c.outcome.msg)
    ensures FirstKept(Move(s, i, c))
  {
  }

  lemma TakeKeepsFirst(s: Client, i: nat)
    requires FirstKept(s) && Enabled(s, Take(i)) && |s.slots| == |s.calls|
    ensures FirstKept(Do(s, Take(i)))
  {
  }

  lemma CallKeepsFirst(s: Client, a: Action)
    requires FirstKept(s) && Correlated(s) && Enabled(s, a) && |s.slots| == |s.calls|
    requires a.Start? || a.Register? || a.Send? || a.Cancel? || a.SeeDone? || a.Take? || a.Forget?
    ensures FirstKept(Do(s, a))
  {
    hide IdText;
    if a.Take? {
      TakeKeepsFirst(s, a.i);
    } else if !a.Start? {
      var moved := Move(s, a.i, Do(s, a).calls[a.i]);
      MoveKeepsFirst(s, a.i, moved.calls[a.i]);
      SameFirst(moved, Do(s, a));
    }
  }

  /** The counter and the pending map have no part in it. */
  lemma SameFirst(s: Client, s': Client)
    requires FirstKept(s) && s'.calls == s.calls && s'.slots == s.slots && s'.firsts == s.firsts && s'.reader == s.reader
    ensures FirstKept(s')
  {
  }

  lemma LookupKeepsFirst(s: Client)
    requires FirstKept(s) && Correlated(s) && Numbered(s) && TableExact(s) && s.reader.Read? && s.drawn < ID_RANGE
    ensures FirstKept(Do(s, Lookup))
  {
    hide IdText;
    var msg, s' := s.reader.msg, Do(s, Lookup);
    forall i | 0 <= i < |s.calls| && s'.firsts[i] != s.firsts[i]
      ensures s'.reader.call == Some(i) && s'.firsts[i] == Some(msg) && s.firsts[i] == None
    {
      assert s.pending[IdText(s.calls[i].n)] == i;
    }
  }

  lemma ReaderKeepsFirst(s: Client, a: Action)
    requires FirstKept(s) && Enabled(s, a) && |s.slots| == |s.calls|
    requires a.Arrive? || a.PutSend? || a.PutDefault? || a.SetClosed? || a.CloseDone?
    ensures FirstKept(Do(s, a))
  {
  }

  lemma StepKeepsFirst(s: Client, a: Action)
    requires Numbered(s) && TableExact(s) && Correlated(s) && FirstKept(s) && Enabled(s, a) && s.drawn < ID_RANGE
    ensures FirstKept(Do(s, a))
  {
    hide TableExact, Correlated, FirstKept, IdText;
    if a.Lookup? {
      LookupKeepsFirst(s);
    } else if a.Arrive? || a.PutSend? || a.PutDefault? || a.SetClosed? || a.CloseDone? {
      ReaderKeepsFirst(s, a);
    } else {
      CallKeepsFirst(s, a);
    }
  }

  lemma NextInv(s: Client, s': Client)
    requires Inv(s) && Next(s, s')
    ensures Inv(s')
  {
    hide Numbered, TableExact, Correlated, FirstKept;
    var a :| Enabled(s, a) && s' == Do(s, a);
    if s'.drawn < ID_RANGE {
      StepNumbered(s, a);
      StepTable(s, a);
      StepCorrelated(s, a);
      StepKeepsFirst(s, a);
    }
  }

  lemma {:induction false} Reachable(run: seq<Client>, k: nat)
    requires Runs.IsRun(Init, Next, run) && k < |run|
    ensures Inv(run[k])
  {
    if k > 0 {
      Reachable(run, k - 1);
      NextInv(run[k - 1], run[k - 1 + 1]);
    }
  }

  /**
   A call that ends with a response ends with one carrying its own id, exactly as the reader read it;
   and no response ever ends two calls, however many duplicates and strangers the host sends.
   */
  lemma CallsGetTheirOwn(run: seq<Client>, k: nat, i: nat, j: nat, mi: Response, mj: Response)
    requires Runs.IsRun(Init, Next, run) && k < |run| && run[k].drawn < ID_RANGE
    requires i < |run[k].calls| && Got(run[k].calls[i], mi)
    requires j < |run[k].calls| && Got(run[k].calls[j], mj)
    ensures mi.id == IdText(run[k].calls[i].n) && mi.serial < |run[k].wire| && run[k].wire[mi.serial] == mi.id
    ensures mi.serial == mj.serial ==> i == j
  {
    Reachable(run, k);
    if mi.serial == mj.serial {
      IdTextInjective(run[k].calls[i].n, run[k].calls[j].n);
    }
  }

  /**
   Ids are never reused, and the pending map holds exactly the calls between register and forget: each
   of those is under its id, every key is the id of one of them, and no other call's id is a key.
   */
  lemma PendingIsExact(run: seq<Client>, k: nat)
    requires Runs.IsRun(Init, Next, run) && k < |run| && run[k].drawn < ID_RANGE
    ensures TableExact(run[k])
    ensures forall i, j :: 0 <= i < j < |run[k].calls| && HasId(run[k].calls[i]) && HasId(run[k].calls[j]) ==>
      IdText(run[k].calls[i].n) != IdText(run[k].calls[j].n)
    ensures forall i :: 0 <= i < |run[k].calls| && HasId(run[k].calls[i]) ==>
      (IdText(run[k].calls[i].n) in run[k].pending <==> InTable(run[k].calls[i]))
  {
    Reachable(run, k);
    var s := run[k];
    forall i, j | 0 <= i < j < |s.calls| && HasId(s.calls[i]) && HasId(s.calls[j])
      ensures IdText(s.calls[i].n) != IdText(s.calls[j].n)
    {
      if IdText(s.calls[i].n) == IdText(s.calls[j].n) {
        IdTextInjective(s.calls[i].n, s.calls[j].n);
      }
    }
    forall i | 0 <= i < |s.calls| && HasId(s.calls[i])
      ensures IdText(s.calls[i].n) in s.pending <==> InTable(s.calls[i])
    {
      var id := IdText(s.calls[i].n);
      if id in s.pending {
        IdTextInjective(s.calls[s.pending[id]].n, s.calls[i].n);
        assert s.pending[id] == i;
      }
    }
  }

  /**
   The first response handled under a call's id while the call is registered is the one it ends with,
   if it ends with any; and until it leaves, its channel holds that response, or the reader is about
   to put it there. Duplicates and late answers neither displace it nor stand in for it.
   */
  lemma FirstAnswerWins(run: seq<Client>, k: nat, i: nat)
    requires Runs.IsRun(Init, Next, run) && k < |run| && run[k].drawn < ID_RANGE && i < |run[k].calls|
    ensures |run[k].slots| == |run[k].firsts| == |run[k].calls|
    ensures Open(run[k].calls[i]) ==> run[k].slots[i] == run[k].firsts[i] || OnItsWay(run[k], i)
    ensures forall msg :: Got(run[k].calls[i], msg) ==> run[k].firsts[i] == Some(msg)
  {
    Reachable(run, k);
  }

  /** The branch of resume's select that can be taken now. */
  function Resuming(s: Client): Action
    requires s.reader.Found?
  {
    if s.reader.call.Some? && HasRoom(s, s.reader.call.value) then PutSend else PutDefault
  }

  /** The two steps resume takes with the response in the reader's hands. */
  function Resumed(s: Client): Client
    requires s.reader.Read?
  {
    var s' := Do(s, Lookup);
    Do(s', Resuming(s'))
  }

  lemma ResumeSteps(s: Client)
    requires s.reader.Read?
    ensures Enabled(s, Lookup) && Enabled(Do(s, Lookup), Resuming(Do(s, Lookup)))
    ensures var s' := Resumed(s);
      && s'.reader == Idle && s'.calls == s.calls
      && s'.slots == (
        if s.reader.msg.id in s.pending && HasRoom(s, s.pending[s.reader.msg.id]) then
          s.slots[s.pending[s.reader.msg.id] := Some(s.reader.msg)]
        else s.slots)
  {
    hide IdText;
  }

  /**
   Whatever the calls have done with their channels, resume runs to its end without any of them taking
   a step: then the reader is free again, the open call with the response's id has a full channel, and
   every other open call's channel is as it was.
   */
  lemma ResumeDelivers(run: seq<Client>, k: nat, i: nat)
    requires Runs.IsRun(Init, Next, run) && k < |run| && run[k].drawn < ID_RANGE
    requires run[k].reader.Read? && i < |run[k].calls| && Open(run[k].calls[i])
    ensures Enabled(run[k], Lookup) && Enabled(Do(run[k], Lookup), Resuming(Do(run[k], Lookup)))
    ensures var s, s' := run[k], Resumed(run[k]);
      && s'.reader == Idle && s'.calls == s.calls && |s'.slots| == |s.slots| == |s.calls|
      && s'.slots[i] == (
        if s.reader.msg.id != IdText(s.calls[i].n) || s.slots[i].Some? then s.slots[i]
        else Some(s.reader.msg))
  {
    ResumeSteps(run[k]);
    Reachable(run, k);
    AddressedIsPending(run[k], i);
    hide IdText, Do, Resumed, Inv;
  }

  lemma AddressedIsPending(s: Client, i: nat)
    requires Inv(s) && s.drawn < ID_RANGE && s.reader.Read? && i < |s.calls| && Open(s.calls[i])
    ensures |s.slots| == |s.calls|
    ensures s.reader.msg.id == IdText(s.calls[i].n) <==> s.reader.msg.id in s.pending && s.pending[s.reader.msg.id] == i
  {
    hide IdText;
    assert s.pending[IdText(s.calls[i].n)] == i;
  }

  /** A closed client gives out no more ids. */
  lemma {:induction false} NoCallsAfterClose(run: seq<Client>, i: nat, j: nat)
    requires Runs.IsRun(Init, Next, run) && i <= j < |run| && run[i].closed
    ensures run[j].closed && run[j].drawn == run[i].drawn
    decreases j
  {
    if i < j {
      NoCallsAfterClose(run, i, j - 1);
      NextKeepsClosed(run[j - 1], run[j - 1 + 1]);
    }
  }

  lemma NextKeepsClosed(s: Client, s': Client)
    requires Next(s, s') && s.closed
    ensures s'.closed && s'.drawn == s.drawn
  {
  }

  /** How far a call is from its end; nothing a call does takes it further away. */
  function Left(c: Call): nat {
    match c
    case Entering => 4
    case Registered(_) => 3
    case Waiting(_) => 2
    case Leaving(_, _) => 1
    case Returned(_, _) => 0
    case Refused => 0
  }

  predicate Over(c: Call) {
    c.Returned? || c.Refused?
  }

  lemma CallCanStep(s: Client, i: nat) returns (a: Action)
    requires s.done && s.closed && i < |s.calls| && !Over(s.calls[i])
    ensures Enabled(s, a) && !a.Start? && Left(Do(s, a).calls[i]) < Left(s.calls[i])
  {
    match s.calls[i]
    case Entering => a := Register(i);
    case Registered(_) => a := Send(i, false);
    case Waiting(_) => a := SeeDone(i);
    case Leaving(_, _) => a := Forget(i);
  }

  lemma StepShrinks(s: Client, a: Action)
    requires s.reader.Ended? && Enabled(s, a) && !a.Start?
    ensures Totals.Total(Left, Do(s, a).calls) < Totals.Total(Left, s.calls)
  {
    Totals.TotalUpdate(Left, s.calls, a.i, Do(s, a).calls[a.i]);
  }

  /**
   Once the connection is gone, every call ends: one that has not can take a step, answered or not;
   each step but a new call's start brings all of them together closer to the end; and when they are
   there, nothing is left in the pending map.
   */
  lemma CallsEndAfterClose(run: seq<Client>, k: nat)
    requires Runs.IsRun(Init, Next, run) && k < |run| && run[k].reader.Ended?
    ensures forall i :: 0 <= i < |run[k].calls| && !Over(run[k].calls[i]) ==>
      exists a :: Enabled(run[k], a) && !a.Start? && a.i == i
    ensures forall a :: Enabled(run[k], a) && !a.Start? ==>
      Totals.Total(Left, Do(run[k], a).calls) < Totals.Total(Left, run[k].calls)
    ensures run[k].drawn < ID_RANGE && (forall i :: 0 <= i < |run[k].calls| ==> Over(run[k].calls[i])) ==>
      run[k].pending == map[]
  {
    Reachable(run, k);
    var s := run[k];
    forall i | 0 <= i < |s.calls| && !Over(s.calls[i]) ensures exists a :: Enabled(s, a) && !a.Start? && a.i == i {
      var a := CallCanStep(s, i);
    }
    forall a | Enabled(s, a) && !a.Start? ensures Totals.Total(Left, Do(s, a).calls) < Totals.Total(Left, s.calls) {
      StepShrinks(s, a);
    }
  }

  // --- why calls fail, and that they need not ----------------------------------------------

  /** A call is refused only by a closed client, and given up as closed only when the connection is gone. */
  ghost predicate FailsWithReason(s: Client) {
    && (forall i :: 0 <= i < |s.calls| && s.calls[i].Refused? ==> s.closed)
    && (forall i :: 0 <= i < |s.calls| && (s.calls[i].Leaving? || s.calls[i].Returned?) && s.calls[i].outcome == ConnectionClosed ==>
        s.done)
  }

  lemma CallFailsWithReason(s: Client, a: Action)
    requires FailsWithReason(s) && Enabled(s, a)
    requires a.Register? || a.Send? || a.Cancel? || a.SeeDone? || a.Take? || a.Forget?
    ensures FailsWithReason(Do(s, a))
  {
    hide IdText, Firsts;
  }

  lemma OtherFailsWithReason(s: Client, a: Action)
    requires FailsWithReason(s) && Enabled(s, a)
    requires !(a.Register? || a.Send? || a.Cancel? || a.SeeDone? || a.Take? || a.Forget?)
    ensures FailsWithReason(Do(s, a))
  {
    hide IdText, Firsts;
  }

  lemma NextFailsWithReason(s: Client, s': Client)
    requires FailsWithReason(s) && Next(s, s')
    ensures FailsWithReason(s')
  {
    hide FailsWithReason, Do;
    var a :| Enabled(s, a) && s' == Do(s, a);
    if a.Register? || a.Send? || a.Cancel? || a.SeeDone? || a.Take? || a.Forget? {
      CallFailsWithReason(s, a);
    } else {
      OtherFailsWithReason(s, a);
    }
  }

  lemma {:induction false} FailuresHaveReasons(run: seq<Client>, k: nat)
    requires Runs.IsRun(Init, Next, run) && k < |run|
    ensures FailsWithReason(run[k])
  {
    if k > 0 {
      FailuresHaveReasons(run, k - 1);
      NextFailsWithReason(run[k - 1], run[k - 1 + 1]);
    }
  }

  ghost predicate Reached(s: Client) {
    Runs.Reaches(Init, Next, s)
  }

  lemma ReachedInv(s: Client)
    requires Reached(s)
    ensures Inv(s)
  {
    var run :| Runs.IsRun(Init, Next, run) && run[|run| - 1] == s;
    Reachable(run, |run| - 1);
  }

  lemma Step(s: Client, a: Action) returns (s': Client)
    requires Reached(s) && Enabled(s, a)
    ensures s' == Do(s, a) && Reached(s')
  {
    s' := Do(s, a);
    Runs.OneMore(Init, Next, s, s');
  }

  /** A call enters, sends, and waits. */
  lemma Ask(s: Client, i: nat) returns (s': Client)
    requires Reached(s) && i < |s.calls| && s.calls[i].Entering? && !s.closed && !s.done
    ensures Reached(s')
    ensures var n := s.drawn + 1;
      s' == s.(drawn := n, calls := s.calls[i := Waiting(n)], pending := s.pending[IdText(n) := i])
  {
    hide Reached, IdText;
    s' := Step(s, Register(i));
    s' := Step(s', Send(i, true));
  }

  /** Its response arrives, and the reader gives it the response. */
  lemma Hear(s: Client, i: nat) returns (s': Client)
    requires Reached(s) && i < |s.calls| == |s.slots| && s.calls[i].Waiting? && s.slots[i] == None && s.reader == Idle
    requires IdText(s.calls[i].n) in s.pending && s.pending[IdText(s.calls[i].n)] == i
    ensures Reached(s') && s'.reader == Idle && s'.calls == s.calls && s'.pending == s.pending
    ensures s'.slots == s.slots[i := Some(Response(IdText(s.calls[i].n), |s.wire|))]
  {
    hide Reached, IdText, Firsts;
    s' := Step(s, Arrive(IdText(s.calls[i].n)));
    s' := Step(s', Lookup);
    s' := Step(s', PutSend);
  }

  lemma Leave(s: Client, i: nat) returns (s': Client)
    requires Reached(s) && i < |s.calls| == |s.slots| && s.calls[i].Waiting? && s.slots[i].Some?
    ensures Reached(s') && s'.reader == s.reader
    ensures s'.calls == s.calls[i := Returned(s.calls[i].n, Answered(s.slots[i].value))]
    ensures s'.pending == s.pending - {IdText(s.calls[i].n)}
  {
    hide Reached, IdText;
    s' := Step(s, Take(i));
    s' := Step(s', Forget(i));
  }

  lemma Fresh(s: Client, i: nat)
    requires Reached(s) && i < |s.calls| && s.calls[i].Entering? && !s.closed && s.drawn + 1 < ID_RANGE
    ensures |s.slots| == |s.calls| && s.slots[i] == None && !s.done
  {
    hide IdText, TableExact, FirstKept;
    ReachedInv(s);
  }

  /** A call on an open client can succeed: it registers, sends, is answered, and returns that answer. */
  lemma CallSucceeds(s: Client, i: nat) returns (s': Client)
    requires Reached(s) && i < |s.calls| && s.calls[i].Entering? && !s.closed && s.reader == Idle
    requires s.drawn + 1 < ID_RANGE
    ensures var n := s.drawn + 1;
      && Reached(s') && s'.reader == Idle
      && s'.calls == s.calls[i := Returned(n, Answered(Response(IdText(n), |s.wire|)))]
      && IdText(n) !in s'.pending
  {
    hide Reached, IdText, Inv;
    Fresh(s, i);
    s' := Ask(s, i);
    s' := Hear(s', i);
    s' := Leave(s', i);
  }
}
