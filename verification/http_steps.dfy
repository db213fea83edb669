/**
 HTTP exchanges on one keep-alive connection (internal/infra/dockerapi/client.go), under any number
 of concurrent callers. The connection carries no request ids, so what pairs a response with its
 request is the lock, held from before the request is written until the body is closed.

 The daemon answers requests in the order it got them, each with a self-delimiting response (RFC
 9112, section 9.2), as slowly as it likes. The stream under the connection is a channel, and it
 goes down at most once, at any moment and for good (BusCredit.CloseIsFinal): from then on every
 send fails, and reads fail once what had already arrived has been read. A read may also give up on
 a stream that is up: the buffered reader does so after a hundred empty pieces. The code then
 releases the lock like after any failure, with the rest of the response still to come.
 */
module HttpSteps {
  import opened Bytes
  import Runs

  /** A piece of the k-th response on the wire. */
  datatype Item = Head(k: nat, status: nat) | Chunk(k: nat, data: Byte) | End(k: nat)

  /**
   One caller of `do`. A plain request first reads the version under the lock; Negotiate does not,
   but sets it under the lock once its body is closed.
   */
  datatype Caller =
    | Preparing                           // request: before Version()
    | Wanting(negotiates: bool)           // do: before the lock
    | Locked(negotiates: bool)            // before the request is built and written
    | Awaiting(negotiates: bool, k: nat)  // the k-th request is written, its response not begun
    | Body(negotiates: bool, k: nat, ended: bool)   // the caller has the body; ended: read to its end
    | Draining(negotiates: bool, k: nat, refused: bool)  // Close, or an error status, discarding the rest
    | Failed
    | Closed(negotiates: bool)            // the body is closed; it may be closed again
    | Settled                             // Negotiate has set the version

  /** A piece taken off the stream: by which caller, for which of the requests, and what it was. */
  datatype Take = Take(caller: nat, request: nat, item: Item)

  datatype Http = Http(
    lock: Option<nat>,
    callers: seq<Caller>,
    unlocked: seq<bool>,     // the variable each caller's exchange and its body share
    unlocks: seq<nat>,       // how often each caller's exchange released the lock
    sent: seq<nat>,          // the caller of each request written
    answered: nat,           // responses the daemon has finished
    answering: bool,         // it is part way through the next
    stream: seq<Item>,       // written by the daemon and not yet read
    written: seq<Item>,      // all the daemon ever wrote
    taken: seq<Take>,        // what was taken off the stream
    lost: Option<nat>,       // the first request whose exchange gave up
    down: bool)

  ghost predicate Init(s: Http) {
    s == Http(None, [], [], [], [], 0, false, [], [], [], None, false)
  }

  datatype Action =
    | Call(negotiates: bool)
    | ReadVersion(i: nat) | Lock(i: nat) | BuildFails(i: nat) | Send(i: nat) | SendFails(i: nat)
    | ReadHead(i: nat) | ReadGarbage(i: nat) | ReadFails(i: nat) | GiveUp(i: nat)
    | ReadBody(i: nat) | Close(i: nat) | Drain(i: nat) | DrainFails(i: nat) | CloseAgain(i: nat) | SetVersion(i: nat)
    | DaemonHead(status: nat) | DaemonChunk(data: Byte) | DaemonEnd | GoDown

  predicate Enabled(s: Http, a: Action) {
    match a
    case Call(_) => true
    case ReadVersion(i) => i < |s.callers| && s.callers[i].Preparing? && s.lock == None
    case Lock(i) => i < |s.callers| && s.callers[i].Wanting? && s.lock == None
    case BuildFails(i) => i < |s.callers| && s.callers[i].Locked?
    case Send(i) => i < |s.callers| && s.callers[i].Locked? && !s.down
    case SendFails(i) => i < |s.callers| && s.callers[i].Locked? && s.down
    case ReadHead(i) => i < |s.callers| && s.callers[i].Awaiting? && s.stream != [] && s.stream[0].Head?
    // what comes next is no head, and cannot be parsed as one
    case ReadGarbage(i) => i < |s.callers| && s.callers[i].Awaiting? && s.stream != [] && !s.stream[0].Head?
    // a body that gives up is still open: its caller closes it, and then it may give up on draining
    case GiveUp(i) => i < |s.callers| && (s.callers[i].Awaiting? || s.callers[i].Draining?)
    case ReadFails(i) => i < |s.callers| && s.callers[i].Awaiting? && s.down && s.stream == []
    case ReadBody(i) => i < |s.callers| && s.callers[i].Body? && !s.callers[i].ended && s.stream != []
    case Close(i) => i < |s.callers| && s.callers[i].Body?
    case Drain(i) => i < |s.callers| && s.callers[i].Draining? && s.stream != []
    case DrainFails(i) => i < |s.callers| && s.callers[i].Draining? && s.down && s.stream == []
    case CloseAgain(i) => i < |s.callers| && (s.callers[i].Closed? || s.callers[i].Settled?)
    case SetVersion(i) => i < |s.callers| && s.callers[i] == Closed(true) && s.lock == None
    case DaemonHead(_) => !s.down && !s.answering && s.answered < |s.sent|
    case DaemonChunk(_) => !s.down && s.answering
    case DaemonEnd => !s.down && s.answering
    case GoDown => true
  }

  function Move(s: Http, i: nat, c: Caller): Http
    requires i < |s.callers|
  {
    s.(callers := s.callers[i := c])
  }

  /** The exchange's unlock closure: the mutex is released if the variable says that it was not yet. */
  function Release(s: Http, i: nat): Http {
    if i >= |s.unlocked| || i >= |s.unlocks| || s.unlocked[i] then s
    else s.(lock := None, unlocked := s.unlocked[i := true], unlocks := s.unlocks[i := s.unlocks[i] + 1])
  }

  predicate HasRequest(c: Caller) {
    c.Awaiting? || c.Body? || c.Draining?
  }

  /** Caller i, whose request is written, takes the next piece off the stream. */
  function Pop(s: Http, i: nat): Http
    requires s.stream != [] && i < |s.callers| && HasRequest(s.callers[i])
  {
    s.(stream := s.stream[1..], taken := s.taken + [Take(i, s.callers[i].k, s.stream[0])])
  }

  function Put(s: Http, item: Item): Http {
    s.(stream := s.stream + [item], written := s.written + [item])
  }

  function AfterDrain(c: Caller): Caller
    requires c.Draining?
  {
    if c.refused then Failed else Closed(c.negotiates)
  }

  function Do(s: Http, a: Action): Http
    requires Enabled(s, a)
  {
    match a
    case Call(negotiates) =>
      s.(callers := s.callers + [if negotiates then Wanting(true) else Preparing], unlocked := s.unlocked + [false],
        unlocks := s.unlocks + [0])
    case ReadVersion(i) => Move(s, i, Wanting(false))
    case Lock(i) => Move(s, i, Locked(s.callers[i].negotiates)).(lock := Some(i))
    case BuildFails(i) => Release(Move(s, i, Failed), i)
    case Send(i) => Move(s, i, Awaiting(s.callers[i].negotiates, |s.sent|)).(sent := s.sent + [i])
    case SendFails(i) => Release(Move(s, i, Failed), i)
    case ReadHead(i) =>
      var c := s.callers[i];
      Move(Pop(s, i), i,
        if s.stream[0].status >= 400 then Draining(c.negotiates, c.k, true) else Body(c.negotiates, c.k, false))
    case ReadGarbage(i) => Release(Move(Pop(s, i), i, Failed), i)
    case ReadFails(i) => Release(Move(s, i, Failed), i)
    case GiveUp(i) =>
      var c := s.callers[i];
      Release(Move(s, i, if c.Awaiting? then Failed else AfterDrain(c)), i)
        .(lost := if s.lost.None? then Some(c.k) else s.lost)
    case ReadBody(i) =>
      var c := s.callers[i];
      Move(Pop(s, i), i, Body(c.negotiates, c.k, s.stream[0].End?))
    case Close(i) =>
      var c := s.callers[i];
      if c.ended then Release(Move(s, i, Closed(c.negotiates)), i)
      else Move(s, i, Draining(c.negotiates, c.k, false))
    case Drain(i) =>
      var c := s.callers[i];
      if s.stream[0].End? then Release(Move(Pop(s, i), i, AfterDrain(c)), i) else Pop(s, i)
    case DrainFails(i) => Release(Move(s, i, AfterDrain(s.callers[i])), i)
    case CloseAgain(i) => Release(s, i)
    case SetVersion(i) => Move(s, i, Settled)
    case DaemonHead(status) => Put(s, Head(s.answered, status)).(answering := true)
    case DaemonChunk(data) => Put(s, Chunk(s.answered, data))
    case DaemonEnd => Put(s, End(s.answered)).(answered := s.answered + 1, answering := false)
    case GoDown => s.(down := true)
  }

  ghost predicate Next(s: Http, s': Http) {
    exists a :: Enabled(s, a) && s' == Do(s, a)
  }

  // --- the lock -------------------------------------------------------------------

  predicate InExchange(c: Caller) {
    c.Locked? || c.Awaiting? || c.Body? || c.Draining?
  }

  /** The exchange is over, however it went. */
  predicate Through(c: Caller) {
    c.Failed? || c.Closed? || c.Settled?
  }

  predicate WaitsForLock(c: Caller) {
    c.Preparing? || c.Wanting? || c == Closed(true)
  }

  /** One holder at most; and an exchange that is over has released the lock once, one that is not, never. */
  ghost predicate LockKept(s: Http) {
    && |s.unlocks| == |s.unlocked| == |s.callers|
    && (s.lock.Some? ==> s.lock.value < |s.callers|)
    && (forall i :: 0 <= i < |s.callers| ==>
        && (InExchange(s.callers[i]) <==> s.lock == Some(i))
        && (s.unlocked[i] <==> Through(s.callers[i]))
        && s.unlocks[i] == if s.unlocked[i] then 1 else 0)
  }

  /** Steps that neither take the lock nor give it up. */
  predicate Keeps(a: Action) {
    a.Call? || a.ReadVersion? || a.Send? || a.ReadHead? || a.ReadBody? || a.CloseAgain? || a.SetVersion?
  }

  predicate Daemonic(a: Action) {
    a.DaemonHead? || a.DaemonChunk? || a.DaemonEnd? || a.GoDown?
  }

  /** It is about the callers, the lock and the two records of it. */
  lemma SameLock(s: Http, s': Http)
    requires LockKept(s) && s'.callers == s.callers && s'.lock == s.lock
    requires s'.unlocked == s.unlocked && s'.unlocks == s.unlocks
    ensures LockKept(s')
  {
  }

  /** An exchange moves on, or a caller that is in none does. */
  lemma MoveLock(s: Http, i: nat, c: Caller)
    requires LockKept(s) && i < |s.callers|
    requires InExchange(c) == InExchange(s.callers[i]) && Through(c) == Through(s.callers[i])
    ensures LockKept(Move(s, i, c))
  {
  }

  /** An exchange ends, on whatever path. */
  lemma ReleaseLock(s: Http, i: nat, c: Caller)
    requires LockKept(s) && i < |s.callers| && InExchange(s.callers[i]) && Through(c)
    ensures LockKept(Release(Move(s, i, c), i))
  {
  }

  lemma TakeLock(s: Http, i: nat)
    requires LockKept(s) && Enabled(s, Lock(i))
    ensures LockKept(Do(s, Lock(i)))
  {
  }

  lemma CallLock(s: Http, negotiates: bool)
    requires LockKept(s)
    ensures LockKept(Do(s, Call(negotiates)))
  {
  }

  lemma KeepsLock(s: Http, a: Action)
    requires LockKept(s) && Enabled(s, a) && Keeps(a)
    ensures LockKept(Do(s, a))
  {
    if a.Call? {
      CallLock(s, a.negotiates);
    } else if !a.CloseAgain? {
      MoveLock(s, a.i, Do(s, a).callers[a.i]);
      hide LockKept;
      SameLock(Move(s, a.i, Do(s, a).callers[a.i]), Do(s, a));
    }
  }

  lemma FailsLock(s: Http, a: Action)
    requires LockKept(s) && Enabled(s, a) && (a.BuildFails? || a.SendFails? || a.ReadFails? || a.DrainFails?)
    ensures LockKept(Do(s, a))
  {
    hide LockKept;
    var c := if a.DrainFails? then AfterDrain(s.callers[a.i]) else Failed;
    ReleaseLock(s, a.i, c);
    SameLock(Release(Move(s, a.i, c), a.i), Do(s, a));
  }

  lemma GiveUpLock(s: Http, i: nat)
    requires LockKept(s) && Enabled(s, GiveUp(i))
    ensures LockKept(Do(s, GiveUp(i)))
  {
    hide LockKept;
    var c := if s.callers[i].Awaiting? then Failed else AfterDrain(s.callers[i]);
    ReleaseLock(s, i, c);
    SameLock(Release(Move(s, i, c), i), Do(s, GiveUp(i)));
  }

  lemma GarbageLock(s: Http, i: nat)
    requires LockKept(s) && Enabled(s, ReadGarbage(i))
    ensures LockKept(Do(s, ReadGarbage(i)))
  {
    hide LockKept;
    ReleaseLock(s, i, Failed);
    SameLock(Release(Move(s, i, Failed), i), Do(s, ReadGarbage(i)));
  }

  lemma CloseLock(s: Http, i: nat)
    requires LockKept(s) && Enabled(s, Close(i))
    ensures LockKept(Do(s, Close(i)))
  {
    hide LockKept, Release;
    var c := s.callers[i];
    if c.ended {
      ReleaseLock(s, i, Closed(c.negotiates));
    } else {
      MoveLock(s, i, Draining(c.negotiates, c.k, false));
    }
  }

  lemma DrainLock(s: Http, i: nat)
    requires LockKept(s) && Enabled(s, Drain(i))
    ensures LockKept(Do(s, Drain(i)))
  {
    hide LockKept, AfterDrain;
    if s.stream[0].End? {
      var c := AfterDrain(s.callers[i]);
      DrainEnds(s.callers[i]);
      ReleaseLock(s, i, c);
      SameLock(Release(Move(s, i, c), i), Do(s, Drain(i)));
    } else {
      SameLock(s, Do(s, Drain(i)));
    }
  }

  lemma DrainEnds(c: Caller)
    requires c.Draining?
    ensures Through(AfterDrain(c))
  {
  }

  lemma StepLock(s: Http, a: Action)
    requires LockKept(s) && Enabled(s, a)
    ensures LockKept(Do(s, a))
  {
    hide LockKept;
    if Keeps(a) { KeepsLock(s, a); }
    else if Daemonic(a) { SameLock(s, Do(s, a)); }
    else if a.Lock? { TakeLock(s, a.i); }
    else if a.Close? { CloseLock(s, a.i); }
    else if a.Drain? { DrainLock(s, a.i); }
    else if a.GiveUp? { GiveUpLock(s, a.i); }
    else if a.ReadGarbage? { GarbageLock(s, a.i); }
    else { FailsLock(s, a); }
  }

  // --- counting responses ---------------------------------------------------------------

  function Items(taken: seq<Take>): (items: seq<Item>)
    ensures |items| == |taken|
  {
    seq(|taken|, m requires 0 <= m < |taken| => taken[m].item)
  }

  /** How many responses end in some pieces. */
  function Ends(items: seq<Item>): nat {
    if items == [] then 0
    else Ends(items[..|items| - 1]) + (if items[|items| - 1].End? then 1 else 0)
  }

  /** The pieces stop between two responses. */
  predicate Boundary(items: seq<Item>) {
    items == [] || items[|items| - 1].End?
  }

  lemma EndsSnoc(items: seq<Item>, item: Item)
    ensures Ends(items + [item]) == Ends(items) + (if item.End? then 1 else 0)
    ensures Boundary(items + [item]) <==> item.End?
  {
    assert (items + [item])[..|items|] == items;
  }

  lemma {:induction false} EndsMonotone(items: seq<Item>, n: nat)
    requires n <= |items|
    ensures Ends(items[..n]) <= Ends(items)
  {
    if n == |items| {
      assert items[..n] == items;
    } else {
      assert items[..|items| - 1][..n] == items[..n];
      EndsMonotone(items[..|items| - 1], n);
    }
  }

  /** A piece belongs to the response that its place says, and is a head exactly where one has to stand. */
  predicate Placed(items: seq<Item>, m: nat)
    requires m < |items|
  {
    items[m].k == Ends(items[..m]) && (items[m].Head? <==> Boundary(items[..m]))
  }

  lemma {:induction false} EndIsThere(items: seq<Item>, k: nat)
    requires (forall m :: 0 <= m < |items| ==> Placed(items, m)) && k < Ends(items)
    ensures End(k) in items
  {
    var front := items[..|items| - 1];
    var last := items[|items| - 1];
    assert Placed(items, |items| - 1);
    if k < Ends(front) {
      forall m | 0 <= m < |front| ensures Placed(front, m) {
        assert Placed(items, m) && front[..m] == items[..m];
      }
      EndIsThere(front, k);
      assert forall item :: item in front ==> item in items;
    } else {
      assert last == End(k) && last in items;
    }
  }

  /** The pieces of one response. */
  function Of(items: seq<Item>, k: nat): seq<Item> {
    if items == [] then []
    else if items[0].k == k then [items[0]] + Of(items[1..], k)
    else Of(items[1..], k)
  }

  lemma {:induction false} OfAppend(a: seq<Item>, b: seq<Item>, k: nat)
    ensures Of(a + b, k) == Of(a, k) + Of(b, k)
  {
    if a == [] {
      assert a + b == b;
    } else {
      assert (a + b)[1..] == a[1..] + b;
      OfAppend(a[1..], b, k);
    }
  }

  lemma {:induction false} NoneOf(items: seq<Item>, k: nat)
    requires forall m :: 0 <= m < |items| ==> items[m].k != k
    ensures Of(items, k) == []
  {
    if items != [] {
      NoneOf(items[1..], k);
    }
  }

  // --- what the daemon wrote --------------------------------------------------------------

  ghost predicate WellWritten(s: Http) {
    && Ends(s.written) == s.answered
    && s.answered + (if s.answering then 1 else 0) <= |s.sent|
    && (s.answering <==> !Boundary(s.written))
    && (forall m :: 0 <= m < |s.written| ==> Placed(s.written, m))
  }

  lemma DaemonWrites(s: Http, a: Action)
    requires WellWritten(s) && Enabled(s, a) && Daemonic(a) && !a.GoDown?
    ensures WellWritten(Do(s, a))
  {
    var s' := Do(s, a);
    var item := s'.written[|s.written|];
    EndsSnoc(s.written, item);
    assert s'.written == s.written + [item];
    forall m | 0 <= m < |s'.written| ensures Placed(s'.written, m) {
      assert s'.written[..m] == s.written[..m];
      if m < |s.written| {
        assert Placed(s.written, m);
      } else {
        assert s.written[..m] == s.written;
      }
    }
  }

  // --- what was read, and by whom ---------------------------------------------------------

  /** The exchange whose response is not yet read to its end, if there is one. */
  predicate Outstanding(c: Caller) {
    c.Awaiting? || c.Draining? || (c.Body? && !c.ended)
  }

  predicate Reading(s: Http) {
    s.lock.Some? && s.lock.value < |s.callers| && Outstanding(s.callers[s.lock.value])
  }

  /** The response the next piece belongs to. */
  function NextK(s: Http): nat {
    Ends(Items(s.taken))
  }

  predicate GaveUpBefore(s: Http, request: nat) {
    s.lost.Some? && s.lost.value < request
  }

  /** A piece is its taker's own exactly when no exchange before the taker's gave up. */
  predicate Rightful(s: Http, t: Take) {
    && t.request < |s.sent| && s.sent[t.request] == t.caller
    && (t.item.k == t.request <==> !GaveUpBefore(s, t.request))
    && (GaveUpBefore(s, t.request) ==> t.item.k >= s.lost.value)
  }

  ghost predicate Delivered(s: Http) {
    && s.written == Items(s.taken) + s.stream
    && (forall m :: 0 <= m < |s.taken| ==> Rightful(s, s.taken[m]))
  }

  /**
   How far reading has got. Until an exchange gives up, it is exactly at the response of the last
   request; from then on it is behind, because no exchange reads more than one response to its end.
   */
  ghost predicate InStep(s: Http) {
    && (s.lost.Some? ==> s.lost.value < |s.sent| && s.lost.value <= NextK(s))
    && if Reading(s) then
         var i, c := s.lock.value, s.callers[s.lock.value];
         && |s.sent| > 0 && c.k == |s.sent| - 1 && s.sent[c.k] == i
         && (!c.Awaiting? ==> !Boundary(Items(s.taken)))
         && (s.lost.None? ==> NextK(s) == c.k && (c.Awaiting? <==> Boundary(Items(s.taken))))
         && (s.lost.Some? ==> s.lost.value < c.k && NextK(s) < c.k)
       else
         && (s.lost.None? ==>
             || (NextK(s) == |s.sent| && Boundary(Items(s.taken)))
             || (s.down && s.stream == [] && NextK(s) + 1 == |s.sent|))
         && (s.lost.Some? ==> NextK(s) < |s.sent|)
  }

  predicate Pops(a: Action) {
    a.ReadHead? || a.ReadGarbage? || a.ReadBody? || a.Drain?
  }

  /** The next piece is the next one the daemon wrote. */
  lemma FrontPiece(s: Http)
    requires WellWritten(s) && s.written == Items(s.taken) + s.stream && s.stream != []
    ensures s.stream[0].k == NextK(s) && (s.stream[0].Head? <==> Boundary(Items(s.taken)))
  {
    var n := |s.taken|;
    assert Placed(s.written, n);
    assert s.written[..n] == Items(s.taken) && s.written[n] == s.stream[0];
  }

  lemma PopCounts(s: Http, s': Http, t: Take)
    requires s.stream != [] && s'.taken == s.taken + [t] && t.item == s.stream[0]
    ensures Items(s'.taken) == Items(s.taken) + [t.item]
    ensures NextK(s') == NextK(s) + (if t.item.End? then 1 else 0)
    ensures Boundary(Items(s'.taken)) <==> t.item.End?
  {
    assert Items(s'.taken) == Items(s.taken) + [t.item];
    EndsSnoc(Items(s.taken), t.item);
  }

  /** What the holder of the lock finds, if it takes a piece now. */
  lemma FindsNext(s: Http, a: Action)
    requires LockKept(s) && InStep(s) && WellWritten(s) && s.written == Items(s.taken) + s.stream
    requires Enabled(s, a) && Pops(a)
    ensures s.lock == Some(a.i) && Reading(s) && s.callers[a.i].k == |s.sent| - 1 && s.sent[s.callers[a.i].k] == a.i
    ensures Rightful(s, Take(a.i, s.callers[a.i].k, s.stream[0]))
    ensures s.lost.None? ==> (s.stream[0].Head? <==> a.ReadHead?) && !a.ReadGarbage?
    ensures s.stream[0].Head? ==> a.ReadHead?
  {
    FrontPiece(s);
  }

  lemma PopInStep(s: Http, a: Action)
    requires LockKept(s) && InStep(s) && WellWritten(s) && s.written == Items(s.taken) + s.stream
    requires Enabled(s, a) && Pops(a) && LockKept(Do(s, a))
    ensures InStep(Do(s, a))
  {
    hide Items, Ends, Boundary, Placed, WellWritten;
    FindsNext(s, a);
    PopCounts(s, Do(s, a), Take(a.i, s.callers[a.i].k, s.stream[0]));
  }

  predicate SameReading(c: Caller, c': Caller) {
    HasRequest(c) && HasRequest(c') && c'.k == c.k && (c'.Awaiting? <==> c.Awaiting?)
  }

  /** Steps that take nothing off the stream, and leave what is being read, and for whom, alone. */
  lemma QuietInStep(s: Http, s': Http)
    requires InStep(s) && s'.taken == s.taken && s'.sent == s.sent && s'.lost == s.lost
    requires Reading(s') <==> Reading(s)
    requires Reading(s) ==> s'.lock == s.lock && SameReading(s.callers[s.lock.value], s'.callers[s.lock.value])
    requires s.down ==> s'.down && (s.stream == [] ==> s'.stream == [])
    ensures InStep(s')
  {
    hide Items, Ends, Boundary;
  }

  lemma ChangeInStep(s: Http, a: Action)
    requires LockKept(s) && InStep(s) && Enabled(s, a) && LockKept(Do(s, a))
    requires a.Send? || a.ReadFails? || a.DrainFails? || a.GiveUp?
    ensures InStep(Do(s, a))
  {
    hide Items, Ends, Boundary;
  }

  lemma CloseInStep(s: Http, i: nat)
    requires LockKept(s) && InStep(s) && Enabled(s, Close(i)) && LockKept(Do(s, Close(i)))
    ensures InStep(Do(s, Close(i)))
  {
    hide InStep;
    QuietInStep(s, Do(s, Close(i)));
  }

  lemma OtherInStep(s: Http, a: Action)
    requires LockKept(s) && InStep(s) && Enabled(s, a) && LockKept(Do(s, a))
    requires a.Call? || a.ReadVersion? || a.Lock? || a.BuildFails? || a.SendFails? || a.CloseAgain? || a.SetVersion?
    ensures InStep(Do(s, a))
  {
    hide InStep;
    QuietInStep(s, Do(s, a));
  }

  lemma DaemonInStep(s: Http, a: Action)
    requires InStep(s) && Enabled(s, a) && Daemonic(a)
    ensures InStep(Do(s, a))
  {
    hide InStep;
    QuietInStep(s, Do(s, a));
  }

  lemma StepInStep(s: Http, a: Action)
    requires LockKept(s) && InStep(s) && WellWritten(s) && s.written == Items(s.taken) + s.stream
    requires Enabled(s, a) && LockKept(Do(s, a))
    ensures InStep(Do(s, a))
  {
    hide InStep, LockKept, WellWritten, Do;
    if Pops(a) { PopInStep(s, a); }
    else if Daemonic(a) { DaemonInStep(s, a); }
    else if a.Send? || a.ReadFails? || a.DrainFails? || a.GiveUp? { ChangeInStep(s, a); }
    else if a.Close? { CloseInStep(s, a.i); }
    else { OtherInStep(s, a); }
  }

  lemma PopStream(s: Http, a: Action)
    requires Enabled(s, a) && Pops(a)
    ensures s.stream != [] && Do(s, a).taken == s.taken + [Take(a.i, s.callers[a.i].k, s.stream[0])]
    ensures Do(s, a).stream == s.stream[1..]
    ensures Do(s, a).written == s.written && Do(s, a).answered == s.answered && Do(s, a).answering == s.answering
    ensures Do(s, a).sent == s.sent && Do(s, a).lost == s.lost
  {
  }

  /** What the steps that take nothing off the stream do to it, and to what is said about it. */
  lemma StepStream(s: Http, a: Action)
    requires Enabled(s, a) && !Pops(a)
    ensures Do(s, a).taken == s.taken
    ensures !Daemonic(a) || a.GoDown? ==>
      && Do(s, a).stream == s.stream && Do(s, a).written == s.written
      && Do(s, a).answered == s.answered && Do(s, a).answering == s.answering
    ensures s.sent <= Do(s, a).sent
    ensures Do(s, a).lost == if a.GiveUp? && s.lost.None? then Some(s.callers[a.i].k) else s.lost
  {
  }

  lemma PopDelivers(s: Http, s': Http, t: Take)
    requires Delivered(s) && s.stream != [] && t.item == s.stream[0] && Rightful(s, t)
    requires s'.taken == s.taken + [t] && s'.stream == s.stream[1..] && s'.written == s.written
    requires s.sent <= s'.sent && s'.lost == s.lost
    ensures Delivered(s')
  {
    PopCounts(s, s', t);
    assert s.stream == [s.stream[0]] + s'.stream;
  }

  /** A first exchange that gives up is the last so far, so what was taken before it stays rightful. */
  lemma QuietDelivers(s: Http, s': Http, written: seq<Item>)
    requires Delivered(s) && s'.taken == s.taken && s'.written == s.written + written && s'.stream == s.stream + written
    requires s.sent <= s'.sent
    requires s'.lost == s.lost || (s.lost.None? && s'.lost.Some? && |s.sent| <= s'.lost.value + 1)
    ensures Delivered(s')
  {
  }

  lemma StepDelivered(s: Http, a: Action)
    requires Inv(s) && Enabled(s, a)
    ensures Delivered(Do(s, a))
  {
    hide Delivered, Do, Items;
    DeliveredSplits(s);
    if Pops(a) {
      PopStream(s, a);
      FindsNext(s, a);
      PopDelivers(s, Do(s, a), Take(a.i, s.callers[a.i].k, s.stream[0]));
    } else if Daemonic(a) && !a.GoDown? {
      DaemonAppends(s, a);
      QuietDelivers(s, Do(s, a), [Do(s, a).written[|s.written|]]);
    } else {
      StepStream(s, a);
      QuietDelivers(s, Do(s, a), []);
    }
  }

  lemma DeliveredSplits(s: Http)
    requires Delivered(s)
    ensures s.written == Items(s.taken) + s.stream
  {
  }

  lemma DaemonAppends(s: Http, a: Action)
    requires Enabled(s, a) && Daemonic(a) && !a.GoDown?
    ensures |Do(s, a).written| == |s.written| + 1
    ensures var item := Do(s, a).written[|s.written|];
      && Do(s, a).written == s.written + [item] && Do(s, a).stream == s.stream + [item]
      && Do(s, a).sent == s.sent && Do(s, a).lost == s.lost && Do(s, a).taken == s.taken
  {
  }

  ghost predicate Inv(s: Http) {
    LockKept(s) && WellWritten(s) && Delivered(s) && InStep(s)
  }

  lemma StepWritten(s: Http, a: Action)
    requires WellWritten(s) && Enabled(s, a)
    ensures WellWritten(Do(s, a))
  {
    hide Placed, Ends, Boundary;
    if Daemonic(a) && !a.GoDown? {
      DaemonWrites(s, a);
    } else if Pops(a) {
      PopStream(s, a);
    } else {
      StepStream(s, a);
    }
  }

  lemma NextInv(s: Http, s': Http)
    requires Inv(s) && Next(s, s')
    ensures Inv(s')
  {
    hide LockKept, WellWritten, Delivered, InStep, Do;
    var a :| Enabled(s, a) && s' == Do(s, a);
    StepLock(s, a);
    StepWritten(s, a);
    StepDelivered(s, a);
    DeliveredSplits(s);
    StepInStep(s, a);
  }

  lemma {:induction false} Reachable(run: seq<Http>, t: nat)
    requires Runs.IsRun(Init, Next, run) && t < |run|
    ensures Inv(run[t])
  {
    if t > 0 {
      Reachable(run, t - 1);
      NextInv(run[t - 1], run[t - 1 + 1]);
    }
  }

  // --- what the status decides ------------------------------------------------------------

  /** The caller was given a body. */
  predicate Accepted(c: Caller) {
    c.Body? || (c.Draining? && !c.refused) || c.Closed? || c.Settled?
  }

  /** The caller is given an error. */
  predicate Rejected(c: Caller) {
    (c.Draining? && c.refused) || c.Failed?
  }

  /** The piece is a head, and caller i took it. */
  predicate HeadOf(t: Take, i: nat) {
    t.caller == i && t.item.Head?
  }

  ghost predicate TookHead(s: Http, i: nat, error: bool) {
    exists m :: 0 <= m < |s.taken| && HeadOf(s.taken[m], i) && (s.taken[m].item.status >= 400 <==> error)
  }

  ghost predicate Judged(s: Http) {
    && (forall m :: 0 <= m < |s.taken| && s.taken[m].item.Head? ==>
        && s.taken[m].caller < |s.callers|
        && (if s.taken[m].item.status >= 400 then Rejected(s.callers[s.taken[m].caller])
            else Accepted(s.callers[s.taken[m].caller])))
    && (forall i :: 0 <= i < |s.callers| && Accepted(s.callers[i]) ==> TookHead(s, i, false))
    && (forall i :: 0 <= i < |s.callers| && Rejected(s.callers[i]) && s.callers[i].Draining? ==> TookHead(s, i, true))
  }

  /** Steps that take no head, and leave each caller's judgement as it is. */
  lemma QuietJudged(s: Http, s': Http)
    requires Judged(s) && |s.callers| <= |s'.callers| && s.taken <= s'.taken
    requires forall m :: |s.taken| <= m < |s'.taken| ==> !s'.taken[m].item.Head?
    requires forall i :: 0 <= i < |s.callers| ==>
      (Accepted(s.callers[i]) <==> Accepted(s'.callers[i])) && (Rejected(s.callers[i]) ==> Rejected(s'.callers[i]))
    requires forall i :: 0 <= i < |s.callers| && s'.callers[i].Draining? && s'.callers[i].refused ==>
      s.callers[i].Draining? && s.callers[i].refused
    requires forall i :: |s.callers| <= i < |s'.callers| ==> !Accepted(s'.callers[i]) && !Rejected(s'.callers[i])
    ensures Judged(s')
  {
    forall i, error | 0 <= i < |s.callers| && TookHead(s, i, error) ensures TookHead(s', i, error) {
      var m :| 0 <= m < |s.taken| && HeadOf(s.taken[m], i) && (s.taken[m].item.status >= 400 <==> error);
      assert HeadOf(s'.taken[m], i);
    }
  }

  lemma HeadJudged(s: Http, i: nat)
    requires Judged(s) && Enabled(s, ReadHead(i))
    ensures Judged(Do(s, ReadHead(i)))
  {
    var s' := Do(s, ReadHead(i));
    var n := |s.taken|;
    assert HeadOf(s'.taken[n], i);
    forall j, error | TookHead(s, j, error) ensures TookHead(s', j, error) {
      var m :| 0 <= m < |s.taken| && HeadOf(s.taken[m], j) && (s.taken[m].item.status >= 400 <==> error);
      assert HeadOf(s'.taken[m], j);
    }
    // nobody who still waits for a head has taken one
    assert forall m :: 0 <= m < n && s.taken[m].item.Head? ==> s.taken[m].caller != i;
  }

  lemma PopJudged(s: Http, a: Action)
    requires Judged(s) && Enabled(s, a) && Pops(a) && !a.ReadHead? && !s.stream[0].Head?
    ensures Judged(Do(s, a))
  {
    hide Judged;
    PopStream(s, a);
    var s' := s.(taken := Do(s, a).taken);
    QuietJudged(s, s');
    MoveJudged(s', Do(s, a), a.i);
  }

  /** One caller moves, and keeps its judgement. */
  lemma MoveJudged(s: Http, s': Http, i: nat)
    requires Judged(s) && i < |s.callers| == |s'.callers| && s'.taken == s.taken
    requires s'.callers == s.callers[i := s'.callers[i]]
    requires Accepted(s.callers[i]) <==> Accepted(s'.callers[i])
    requires Rejected(s.callers[i]) ==> Rejected(s'.callers[i])
    requires s'.callers[i].Draining? && s'.callers[i].refused ==> s.callers[i].Draining? && s.callers[i].refused
    ensures Judged(s')
  {
    hide Judged;
    QuietJudged(s, s');
  }

  lemma StartJudged(s: Http, a: Action)
    requires Judged(s) && Enabled(s, a)
    requires a.ReadVersion? || a.Lock? || a.BuildFails? || a.Send? || a.SendFails? || a.SetVersion?
    ensures Judged(Do(s, a))
  {
    hide Judged;
    MoveJudged(s, Do(s, a), a.i);
  }

  lemma EndJudged(s: Http, a: Action)
    requires Judged(s) && Enabled(s, a) && (a.ReadFails? || a.GiveUp? || a.Close? || a.DrainFails?)
    ensures Judged(Do(s, a))
  {
    hide Judged;
    MoveJudged(s, Do(s, a), a.i);
  }

  lemma OtherJudged(s: Http, a: Action)
    requires Judged(s) && Enabled(s, a) && (Daemonic(a) || a.Call? || a.CloseAgain?)
    ensures Judged(Do(s, a))
  {
    hide Judged;
    QuietJudged(s, Do(s, a));
  }

  lemma NextJudged(s: Http, s': Http)
    requires Inv(s) && Judged(s) && Next(s, s')
    ensures Judged(s')
  {
    hide LockKept, WellWritten, Delivered, InStep, Judged, Do;
    var a :| Enabled(s, a) && s' == Do(s, a);
    if a.ReadHead? {
      HeadJudged(s, a.i);
    } else if Pops(a) {
      DeliveredSplits(s);
      FindsNext(s, a);
      PopJudged(s, a);
    } else if a.ReadFails? || a.GiveUp? || a.Close? || a.DrainFails? {
      EndJudged(s, a);
    } else if Daemonic(a) || a.Call? || a.CloseAgain? {
      OtherJudged(s, a);
    } else {
      StartJudged(s, a);
    }
  }

  lemma {:induction false} AllJudged(run: seq<Http>, t: nat)
    requires Runs.IsRun(Init, Next, run) && t < |run|
    ensures Judged(run[t])
  {
    if t > 0 {
      AllJudged(run, t - 1);
      Reachable(run, t - 1);
      NextJudged(run[t - 1], run[t - 1 + 1]);
    }
  }

  /**
   The status of the head a caller took decides what it gets: a body below 400, an error from 400 up;
   and nobody gets a body, or an error of the daemon's, without such a head.
   */
  lemma StatusDecides(run: seq<Http>, t: nat, i: nat)
    requires Runs.IsRun(Init, Next, run) && t < |run| && i < |run[t].callers|
    ensures Accepted(run[t].callers[i]) ==> TookHead(run[t], i, false)
    ensures run[t].callers[i].Draining? && run[t].callers[i].refused ==> TookHead(run[t], i, true)
    ensures TookHead(run[t], i, false) ==> Accepted(run[t].callers[i])
    ensures TookHead(run[t], i, true) ==> Rejected(run[t].callers[i])
  {
    AllJudged(run, t);
  }

  // --- the theorems -----------------------------------------------------------------------

  /**
   For any interleaving of callers, whether or not the stream goes down and whoever gives up: a piece
   goes to the caller of the request it answers exactly when no exchange before that caller's gave up.
   One that gave up leaves the others reading behind for good.
   */
  lemma PairedUntilOneGivesUp(run: seq<Http>, t: nat, m: nat)
    requires Runs.IsRun(Init, Next, run) && t < |run| && m < |run[t].taken|
    ensures var s, piece := run[t], run[t].taken[m];
      && piece.request < |s.sent| && s.sent[piece.request] == piece.caller
      && (piece.item.k == piece.request <==> !GaveUpBefore(s, piece.request))
  {
    Reachable(run, t);
    assert Rightful(run[t], run[t].taken[m]);
  }

  /** The k-th exchange is not the one still being read. */
  predicate ReadOut(s: Http, k: nat) {
    k < |s.sent| && (Reading(s) ==> k < |s.sent| - 1)
  }

  /** Neither the k-th exchange nor any before it gave up. */
  predicate Steadfast(s: Http, k: nat) {
    s.lost.Some? ==> k < s.lost.value
  }

  /**
   As long as no exchange up to the k-th has given up, the k-th takes the pieces of its own response,
   all of them are taken by it, and when it is over they are, in order, all that was written of that
   response; which is the whole of it, unless the stream went down and this was the last request.
   */
  lemma ResponsesArePaired(run: seq<Http>, t: nat, k: nat)
    requires Runs.IsRun(Init, Next, run) && t < |run| && k < |run[t].sent| && Steadfast(run[t], k)
    ensures forall m :: 0 <= m < |run[t].taken| && (run[t].taken[m].request == k || run[t].taken[m].item.k == k) ==>
      run[t].taken[m].request == run[t].taken[m].item.k == k && run[t].taken[m].caller == run[t].sent[k]
    ensures ReadOut(run[t], k) ==> Of(Items(run[t].taken), k) == Of(run[t].written, k)
    ensures ReadOut(run[t], k) && (!run[t].down || k + 1 < |run[t].sent|) ==> End(k) in run[t].written
  {
    Reachable(run, t);
    var s := run[t];
    forall m | 0 <= m < |s.taken| ensures Rightful(s, s.taken[m]) {
    }
    if ReadOut(s, k) {
      LeftBehind(s, k);
      OfAppend(Items(s.taken), s.stream, k);
      assert Of(Items(s.taken), k) + [] == Of(Items(s.taken), k);
    }
  }

  /** Nothing of a response that was read out is left on the stream. */
  lemma LeftBehind(s: Http, k: nat)
    requires Inv(s) && ReadOut(s, k) && Steadfast(s, k)
    ensures Of(s.stream, k) == []
    ensures !s.down || k + 1 < |s.sent| ==> End(k) in s.written
  {
    var n := |s.taken|;
    assert s.written[..n] == Items(s.taken);
    assert s.stream != [] ==> k < NextK(s);
    forall m | 0 <= m < |s.stream| ensures s.stream[m].k != k {
      assert Placed(s.written, n + m);
      EndsMonotone(s.written[..n + m], n);
      assert s.written[..n + m][..n] == s.written[..n];
    }
    NoneOf(s.stream, k);
    EndsMonotone(s.written, n);
    if !s.down || k + 1 < |s.sent| {
      EndIsThere(s.written, k);
    }
  }

  /**
   A caller that is about to read a response finds its own, at its head, exactly when no exchange has
   given up before it.
   */
  lemma HeadsAreMet(run: seq<Http>, t: nat, i: nat)
    requires Runs.IsRun(Init, Next, run) && t < |run| && i < |run[t].callers| && run[t].callers[i].Awaiting?
    ensures run[t].callers[i].k < |run[t].sent| && run[t].sent[run[t].callers[i].k] == i
    ensures run[t].stream != [] ==> (run[t].stream[0].k == run[t].callers[i].k <==> run[t].lost.None?)
    ensures run[t].stream != [] && run[t].lost.None? ==> Enabled(run[t], ReadHead(i)) && !Enabled(run[t], ReadGarbage(i))
  {
    Reachable(run, t);
    var s := run[t];
    assert InExchange(s.callers[i]);
    if s.stream != [] {
      FrontPiece(s);
    }
  }

  ghost predicate Reached(s: Http) {
    Runs.Reaches(Init, Next, s)
  }

  lemma Start() returns (s: Http)
    ensures s == Http(None, [], [], [], [], 0, false, [], [], [], None, false) && Reached(s)
  {
    s := Http(None, [], [], [], [], 0, false, [], [], [], None, false);
    Runs.StartReaches(Init, Next, s);
  }

  /** And it happens: one caller gives up on a live stream, and the next is about to read that one's response. */
  lemma ForeignHead() returns (s: Http)
    ensures Reached(s) && !s.down
    ensures Enabled(s, ReadHead(1)) && s.callers[1].k == 1 && s.stream[0] == Head(0, 200)
  {
    hide Reached;
    s := Start();
    s := Step(s, Call(true));
    s := Step(s, Call(true));
    s := Step(s, Lock(0));
    s := Step(s, Send(0));
    s := Step(s, GiveUp(0));
    assert s == Http(None, [Failed, Wanting(true)], [true, false], [1, 0], [0], 0, false, [], [], [], Some(0), false);
    s := Step(s, Lock(1));
    s := Step(s, Send(1));
    s := Step(s, DaemonHead(200));
  }

  lemma Step(s: Http, a: Action) returns (s': Http)
    requires Reached(s) && Enabled(s, a)
    ensures s' == Do(s, a) && Reached(s')
  {
    s' := Do(s, a);
    Runs.OneMore(Init, Next, s, s');
  }

  lemma EndsGrow(items: seq<Item>, n: nat)
    requires n < |items| && Boundary(items)
    ensures Ends(items[..n]) < Ends(items)
  {
    EndsMonotone(items[..|items| - 1], n);
    assert items[..|items| - 1][..n] == items[..n];
  }

  /** With nothing outstanding on a stream that is up and in step, nothing is on it and the daemon is idle. */
  lemma IdleStream(s: Http)
    requires Inv(s) && !Reading(s) && !s.down && s.lost.None?
    ensures s.stream == [] && !s.answering && s.answered == |s.sent|
  {
    var n := |s.taken|;
    assert s.written[..n] == Items(s.taken);
    EndsMonotone(s.written, n);
    assert s.stream == [] ==> s.written == Items(s.taken);
    if s.stream != [] {
      EndsGrow(s.written, n);
    }
  }

  lemma AskAndHear(s: Http, i: nat, status: nat) returns (s': Http)
    requires Reached(s) && s.lock.None? && !s.down && s.stream == [] && !s.answering && s.answered == |s.sent|
    requires i < |s.callers| && s.callers[i].Wanting? && status < 400
    ensures Reached(s')
    ensures var k, n := |s.sent|, s.callers[i].negotiates;
      && s'.lock == Some(i) && s'.callers == s.callers[i := Body(n, k, false)] && s'.sent == s.sent + [i]
      && s'.unlocks == s.unlocks && s'.unlocked == s.unlocked
      && s'.answered == k && s'.answering && !s'.down && s'.stream == []
      && s'.taken == s.taken + [Take(i, k, Head(k, status))]
  {
    hide Reached;
    s' := Step(s, Lock(i));
    s' := Step(s', Send(i));
    s' := Step(s', DaemonHead(status));
    s' := Step(s', ReadHead(i));
  }

  lemma ReadAndClose(s: Http, i: nat) returns (s': Http)
    requires Reached(s) && s.lock == Some(i) && i < |s.callers| == |s.unlocks| == |s.unlocked| && !s.unlocked[i]
    requires s.callers[i].Body? && !s.callers[i].ended && s.answering && !s.down && s.stream == []
    ensures Reached(s') && s'.lock.None? && s'.sent == s.sent
    ensures s'.callers == s.callers[i := Closed(s.callers[i].negotiates)]
    ensures s'.taken == s.taken + [Take(i, s.callers[i].k, End(s.answered))]
  {
    hide Reached;
    s' := Step(s, DaemonEnd);
    s' := Step(s', ReadBody(i));
    s' := Step(s', Close(i));
  }

  /**
   An exchange can go through: a caller that finds the lock free on a stream that is up and in step can
   lock, send, be answered, read, and close, and then has its body closed and the lock free again.
   */
  lemma ExchangeSucceeds(s: Http, i: nat, status: nat) returns (s': Http)
    requires Reached(s) && s.lock.None? && !s.down && s.lost.None? && status < 400
    requires i < |s.callers| && s.callers[i].Wanting?
    ensures Reached(s') && s'.lock.None? && s'.sent == s.sent + [i]
    ensures s'.callers == s.callers[i := Closed(s.callers[i].negotiates)]
    ensures s'.taken == s.taken + [Take(i, |s.sent|, Head(|s.sent|, status)), Take(i, |s.sent|, End(|s.sent|))]
  {
    ReachedInv(s);
    IdleStream(s);
    hide Reached;
    s' := AskAndHear(s, i, status);
    s' := ReadAndClose(s', i);
  }

  lemma ReachedInv(s: Http)
    requires Reached(s)
    ensures Inv(s)
  {
    var run :| Runs.IsRun(Init, Next, run) && run[|run| - 1] == s;
    Reachable(run, |run| - 1);
  }

  /**
   The lock: one exchange at a time, so at most one body is open; released exactly once by every
   exchange that is over, on every path; and nobody waits for it while holding it, Negotiate included.
   */
  lemma LockDiscipline(run: seq<Http>, t: nat, i: nat, j: nat)
    requires Runs.IsRun(Init, Next, run) && t < |run| && i < |run[t].callers| && j < |run[t].callers|
    ensures InExchange(run[t].callers[i]) && InExchange(run[t].callers[j]) ==> i == j
    ensures |run[t].unlocks| == |run[t].unlocked| == |run[t].callers|
    ensures run[t].unlocked[i] <==> Through(run[t].callers[i])
    ensures run[t].unlocks[i] == if Through(run[t].callers[i]) then 1 else 0
    ensures WaitsForLock(run[t].callers[i]) ==> run[t].lock != Some(i)
  {
    Reachable(run, t);
  }
}
