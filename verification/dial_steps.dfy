/**
 The dial race of one connection (internal/usecase/connection.go) as a transition system: any number
 of Control, OpenStream and Close calls, each lock section a step of its own, with the host free to
 refuse, to fail, or to serve a dial, and the daemon free to fail the negotiation.
 */
module DialSteps {
  import opened Bytes
  import Runs

  /** The identity of a dockerapi.Client: the order in which the clients were dialled. */
  type ClientId = nat

  /** The two fields the race is about; one mutex guards them. */
  datatype Shared = Shared(control: Option<ClientId>, closed: bool)

  datatype Error = NoDocker | SessionGone | OtherError

  datatype Outcome = Served(client: ClientId) | Failed(error: Error) | Returned

  /** Control's first lock section: an answer, or None when the caller must dial. */
  function FirstSection(m: Shared): Option<Outcome> {
    if m.closed then Some(Failed(NoDocker))
    else if m.control.Some? then Some(Served(m.control.value))
    else None
  }

  /** Control's second lock section. Whoever is not installed is closed under the lock. */
  function SecondSection(m: Shared, mine: ClientId): (r: (Shared, Outcome)) {
    if m.closed then (m, Failed(NoDocker))
    else if m.control.Some? then (m, Served(m.control.value))
    else (m.(control := Some(mine)), Served(mine))
  }

  /** The one lock section of markGone and of Close; the client taken is closed outside the lock. */
  function GoneSection(m: Shared): (Shared, Option<ClientId>) {
    (Shared(None, true), m.control)
  }

  datatype Kind = ControlCall | StreamCall | CloseCall

  datatype Place =
    | Start
    | Dialling                             // in OpenExec, outside the lock
    | Denied                               // the host refused: markGone is next
    | Negotiating(client: ClientId)
    | Negotiated(client: ClientId)         // back in Control with a client, before its second section
    | Taken(theirs: Option<ClientId>)      // past the section of markGone or Close
    | Done(outcome: Outcome)

  datatype Call = Call(kind: Kind, place: Place)

  /** A client: the call that dialled it, how often it has been closed here, and how often by its owner. */
  datatype Dialled = Dialled(call: nat, closes: nat, own: nat)

  datatype State = State(
    shared: Shared,
    calls: seq<Call>,
    clients: seq<Dialled>,
    // histories
    installed: seq<ClientId>,              // the clients ever put in the control field
    asked: set<nat>,                       // the calls whose dial the host has answered
    denied: set<nat>)                      // those it refused for good

  ghost predicate Init(s: State) {
    s == State(Shared(None, false), [], [], [], {}, {})
  }

  datatype Action =
    | Begin(kind: Kind)
    | First(k: nat)
    | OpenDenied(k: nat) | OpenFails(k: nat) | Opens(k: nat)
    | NegotiateFails(k: nat) | Negotiates(k: nat)
    | Second(k: nat)
    | MarkGone(k: nat) | CloseTaken(k: nat)
    | CloseOwn(k: nat)                     // the owner of a stream of its own ends it

  predicate At(s: State, k: nat) {
    k < |s.calls|
  }

  predicate Enabled(s: State, a: Action) {
    match a
    case Begin(_) => true
    case First(k) => At(s, k) && s.calls[k].place == Start && s.calls[k].kind != CloseCall
    case OpenDenied(k) => At(s, k) && s.calls[k].place == Dialling
    case OpenFails(k) => At(s, k) && s.calls[k].place == Dialling
    case Opens(k) => At(s, k) && s.calls[k].place == Dialling
    case NegotiateFails(k) => At(s, k) && s.calls[k].place.Negotiating?
    case Negotiates(k) => At(s, k) && s.calls[k].place.Negotiating?
    case Second(k) => At(s, k) && s.calls[k].place.Negotiated?
    case MarkGone(k) =>
      At(s, k) && (s.calls[k].place == Denied || s.calls[k] == Call(CloseCall, Start))
    case CloseTaken(k) => At(s, k) && s.calls[k].place.Taken?
    case CloseOwn(k) =>
      && At(s, k) && s.calls[k].kind == StreamCall && s.calls[k].place.Done?
      && s.calls[k].place.outcome.Served? && s.calls[k].place.outcome.client < |s.clients|
  }

  function Move(s: State, k: nat, place: Place): State
    requires At(s, k)
  {
    s.(calls := s.calls[k := s.calls[k].(place := place)])
  }

  /** client.Close() on a client this connection dialled. */
  function CloseClient(s: State, c: ClientId): State {
    if c < |s.clients| then s.(clients := s.clients[c := s.clients[c].(closes := s.clients[c].closes + 1)]) else s
  }

  function DoFirst(s: State, k: nat): State
    requires Enabled(s, First(k))
  {
    var answer := if s.calls[k].kind == StreamCall then None else FirstSection(s.shared);
    Move(s, k, if answer.Some? then Done(answer.value) else Dialling)
  }

  function DoSecond(s: State, k: nat): State
    requires Enabled(s, Second(k))
  {
    var mine := s.calls[k].place.client;
    var (shared, outcome) := SecondSection(s.shared, mine);
    var s' := Move(s, k, Done(outcome)).(shared := shared);
    if shared == s.shared then CloseClient(s', mine) else s'.(installed := s.installed + [mine])
  }

  function DoMarkGone(s: State, k: nat): State
    requires Enabled(s, MarkGone(k))
  {
    var (shared, taken) := GoneSection(s.shared);
    Move(s, k, Taken(taken)).(shared := shared)
  }

  function DoCloseTaken(s: State, k: nat): State
    requires Enabled(s, CloseTaken(k))
  {
    var taken := s.calls[k].place.theirs;
    var s' := Move(s, k, Done(if s.calls[k].kind == CloseCall then Returned else Failed(SessionGone)));
    if taken.Some? then CloseClient(s', taken.value) else s'
  }

  function Do(s: State, a: Action): State
    requires Enabled(s, a)
  {
    match a
    case Begin(kind) => s.(calls := s.calls + [Call(kind, Start)])
    case First(k) => DoFirst(s, k)
    case OpenDenied(k) => Move(s, k, Denied).(asked := s.asked + {k}, denied := s.denied + {k})
    case OpenFails(k) => Move(s, k, Done(Failed(OtherError))).(asked := s.asked + {k})
    case Opens(k) =>
      Move(s, k, Negotiating(|s.clients|)).(clients := s.clients + [Dialled(k, 0, 0)], asked := s.asked + {k})
    case NegotiateFails(k) => CloseClient(Move(s, k, Done(Failed(OtherError))), s.calls[k].place.client)
    case Negotiates(k) =>
      var c := s.calls[k].place.client;
      Move(s, k, if s.calls[k].kind == StreamCall then Done(Served(c)) else Negotiated(c))
    case Second(k) => DoSecond(s, k)
    case MarkGone(k) => DoMarkGone(s, k)
    case CloseTaken(k) => DoCloseTaken(s, k)
    case CloseOwn(k) =>
      var c := s.calls[k].place.outcome.client;
      s.(clients := s.clients[c := s.clients[c].(own := s.clients[c].own + 1)])
  }

  ghost predicate Next(s: State, s': State) {
    exists a :: Enabled(s, a) && s' == Do(s, a)
  }

  // ----- the invariant -----

  /** A call that has a client of its own in hand. */
  predicate Holds(call: Call, c: ClientId) {
    && (call.place == Negotiating(c) || call.place == Negotiated(c))
    && (call.place == Negotiated(c) ==> call.kind == ControlCall)
  }

  /** A client that its call has in hand, or has returned to the owner of a stream. */
  predicate Mine(call: Call, c: ClientId) {
    Holds(call, c) || call == Call(StreamCall, Done(Served(c)))
  }

  /** Past the section that took the control client out, with its Close still to come. */
  predicate Ending(call: Call, c: ClientId) {
    call.place == Taken(Some(c))
  }

  predicate HasTheirs(call: Call) {
    call.place.Taken? && call.place.theirs.Some?
  }

  ghost predicate SomeoneEnding(s: State, c: ClientId) {
    exists k :: 0 <= k < |s.calls| && Ending(s.calls[k], c)
  }

  ghost predicate DialledForControl(s: State, c: ClientId) {
    c < |s.clients| && s.clients[c].call < |s.calls| && s.calls[s.clients[c].call].kind == ControlCall
  }

  /** At most one client is ever installed, and it leaves the field only when the connection closes. */
  ghost predicate OneInstalled(s: State) {
    && (s.installed == [] || (|s.installed| == 1 && DialledForControl(s, s.installed[0])))
    && (s.shared.control.Some? ==> !s.shared.closed && s.installed == [s.shared.control.value])
    && (s.installed != [] && !s.shared.closed ==> s.shared.control.Some?)
  }

  /** What each call's place says about the rest of the state. */
  ghost predicate CallFits(s: State, k: nat)
    requires k < |s.calls|
  {
    var call := s.calls[k];
    && (call.place.Negotiating? || call.place.Negotiated? ==>
      && Holds(call, call.place.client) && call.place.client < |s.clients|
      && s.clients[call.place.client].call == k && s.clients[call.place.client].closes == 0 && s.installed != [call.place.client])
    && (call.place.Taken? ==>
      && s.shared.closed
      && (call.place.theirs.Some? ==>
        && call.place.theirs.value < |s.clients| && s.installed == [call.place.theirs.value]
        && s.clients[call.place.theirs.value].closes == 0))
    && (call.place.Done? && call.place.outcome.Served? ==>
      if call.kind == ControlCall then s.installed == [call.place.outcome.client]
      else call.place.outcome.client < |s.clients| && s.clients[call.place.outcome.client].call == k)
    && (call.place.Done? && call.place.outcome == Failed(SessionGone) ==> s.shared.closed)
    && (call.kind == CloseCall ==> call.place == Start || call.place.Taken? || call.place == Done(Returned))
  }

  /** What becomes of a client. */
  ghost predicate ClientFits(s: State, c: ClientId)
    requires c < |s.clients|
  {
    var d := s.clients[c];
    && d.call < |s.calls|
    && s.calls[d.call].kind != CloseCall
    && (if s.installed == [c] then
          d.closes == (if s.shared.control == Some(c) || SomeoneEnding(s, c) then 0 else 1)
        else
          d.closes == (if Mine(s.calls[d.call], c) then 0 else 1))
  }

  ghost predicate Inv(s: State) {
    && OneInstalled(s)
    && (forall k :: 0 <= k < |s.calls| ==> CallFits(s, k))
    && (forall c :: 0 <= c < |s.clients| ==> ClientFits(s, c))
    // the control client is taken out once, so at most one call has it to close
    && (forall j, k :: 0 <= j < k < |s.calls| && HasTheirs(s.calls[j]) ==> !HasTheirs(s.calls[k]))
  }

  // ----- every step keeps it -----

  /** Steps that move one call and touch neither the field nor any client. */
  lemma MoveInv(s: State, k: nat, place: Place)
    requires Inv(s) && At(s, k)
    requires !s.calls[k].place.Taken? && !place.Taken?
    requires forall c :: Mine(s.calls[k], c) <==> Mine(s.calls[k].(place := place), c)
    requires CallFits(Move(s, k, place), k)
    ensures Inv(Move(s, k, place))
  {
    var s' := Move(s, k, place);
    forall j | 0 <= j < |s'.calls| ensures CallFits(s', j) {
      assert CallFits(s, j);
    }
    forall c | 0 <= c < |s'.clients| ensures ClientFits(s', c) {
      assert ClientFits(s, c);
      SameEnding(s, s', c);
    }
  }

  /** What was asked of the host has no part in it. */
  lemma SameInv(s: State, s': State)
    requires Inv(s) && s'.shared == s.shared && s'.calls == s.calls && s'.clients == s.clients && s'.installed == s.installed
    ensures Inv(s')
  {
    forall j | 0 <= j < |s'.calls| ensures CallFits(s', j) {
      assert CallFits(s, j);
    }
    forall c | 0 <= c < |s'.clients| ensures ClientFits(s', c) {
      assert ClientFits(s, c);
      SameEnding(s, s', c);
    }
  }

  /** Nobody took or gave up a control client. */
  lemma SameEnding(s: State, s': State, c: ClientId)
    requires |s.calls| <= |s'.calls|
    requires forall k :: 0 <= k < |s.calls| ==> (HasTheirs(s.calls[k]) || HasTheirs(s'.calls[k]) ==> s'.calls[k] == s.calls[k])
    requires forall k :: |s.calls| <= k < |s'.calls| ==> !HasTheirs(s'.calls[k])
    ensures SomeoneEnding(s', c) <==> SomeoneEnding(s, c)
  {
    if k :| 0 <= k < |s.calls| && Ending(s.calls[k], c) {
      assert Ending(s'.calls[k], c);
    }
    if k :| 0 <= k < |s'.calls| && Ending(s'.calls[k], c) {
      assert Ending(s.calls[k], c);
    }
  }

  lemma BeginInv(s: State, kind: Kind)
    requires Inv(s)
    ensures Inv(Do(s, Begin(kind)))
  {
    var s' := Do(s, Begin(kind));
    forall j | 0 <= j < |s'.calls| ensures CallFits(s', j) {
      if j < |s.calls| { assert CallFits(s, j); }
    }
    forall c | 0 <= c < |s'.clients| ensures ClientFits(s', c) {
      assert ClientFits(s, c);
      SameEnding(s, s', c);
    }
  }

  lemma OpensInv(s: State, k: nat)
    requires Inv(s) && Enabled(s, Opens(k))
    ensures Inv(Do(s, Opens(k)))
  {
    var s' := Do(s, Opens(k));
    assert CallFits(s, k);
    forall j | 0 <= j < |s'.calls| ensures CallFits(s', j) {
      assert CallFits(s, j);
    }
    forall c | 0 <= c < |s'.clients| ensures ClientFits(s', c) {
      if c < |s.clients| { assert ClientFits(s, c); }
      SameEnding(s, s', c);
    }
  }

  lemma NegotiateFailsInv(s: State, k: nat)
    requires Inv(s) && Enabled(s, NegotiateFails(k))
    ensures Inv(Do(s, NegotiateFails(k)))
  {
    var s' := Do(s, NegotiateFails(k));
    assert CallFits(s, k);
    forall j | 0 <= j < |s'.calls| ensures CallFits(s', j) {
      assert CallFits(s, j);
    }
    forall c | 0 <= c < |s'.clients| ensures ClientFits(s', c) {
      assert ClientFits(s, c);
      SameEnding(s, s', c);
    }
  }

  lemma SecondInv(s: State, k: nat)
    requires Inv(s) && Enabled(s, Second(k))
    ensures Inv(Do(s, Second(k)))
  {
    var s' := Do(s, Second(k));
    assert CallFits(s, k);
    assert s'.installed == s.installed || (s.installed == [] && s'.installed == [s.calls[k].place.client]);
    forall j | 0 <= j < |s'.calls| ensures CallFits(s', j) {
      assert CallFits(s, j);
    }
    forall c | 0 <= c < |s'.clients| ensures ClientFits(s', c) {
      assert ClientFits(s, c);
      SameEnding(s, s', c);
    }
  }

  lemma MarkGoneInv(s: State, k: nat)
    requires Inv(s) && Enabled(s, MarkGone(k))
    ensures Inv(Do(s, MarkGone(k)))
  {
    var s' := Do(s, MarkGone(k));
    assert CallFits(s, k);
    forall j | 0 <= j < |s'.calls| ensures CallFits(s', j) {
      assert CallFits(s, j);
      if s.shared.control.Some? { assert ClientFits(s, s.shared.control.value); }
    }
    forall c | 0 <= c < |s'.clients| ensures ClientFits(s', c) {
      assert ClientFits(s, c);
      if s.shared.control == Some(c) {
        assert Ending(s'.calls[k], c);
      } else if i :| 0 <= i < |s.calls| && Ending(s.calls[i], c) {
        assert Ending(s'.calls[i], c);
      } else if i :| 0 <= i < |s'.calls| && Ending(s'.calls[i], c) {
        assert i == k || Ending(s.calls[i], c);
      }
    }
    forall i, j | 0 <= i < j < |s'.calls| && HasTheirs(s'.calls[i]) ensures !HasTheirs(s'.calls[j]) {
      assert CallFits(s, i) && CallFits(s, j);
    }
  }

  lemma CloseTakenInv(s: State, k: nat)
    requires Inv(s) && Enabled(s, CloseTaken(k))
    ensures Inv(Do(s, CloseTaken(k)))
  {
    var s' := Do(s, CloseTaken(k));
    assert CallFits(s, k);
    forall j | 0 <= j < |s'.calls| ensures CallFits(s', j) {
      assert CallFits(s, j);
      if HasTheirs(s.calls[k]) { assert HasTheirs(s.calls[j]) ==> j == k; }
    }
    forall c | 0 <= c < |s'.clients| ensures ClientFits(s', c) {
      assert ClientFits(s, c);
      if s.calls[k].place.theirs == Some(c) {
        assert Ending(s.calls[k], c);
        assert forall i :: 0 <= i < |s'.calls| ==> !Ending(s'.calls[i], c);
      } else {
        if i :| 0 <= i < |s.calls| && Ending(s.calls[i], c) {
          assert Ending(s'.calls[i], c);
        }
        if i :| 0 <= i < |s'.calls| && Ending(s'.calls[i], c) {
          assert Ending(s.calls[i], c);
        }
      }
    }
  }

  lemma CloseOwnInv(s: State, k: nat)
    requires Inv(s) && Enabled(s, CloseOwn(k))
    ensures Inv(Do(s, CloseOwn(k)))
  {
    var s' := Do(s, CloseOwn(k));
    assert CallFits(s, k);
    forall j | 0 <= j < |s'.calls| ensures CallFits(s', j) {
      assert CallFits(s, j);
    }
    forall c | 0 <= c < |s'.clients| ensures ClientFits(s', c) {
      assert ClientFits(s, c);
      SameEnding(s, s', c);
    }
  }

  lemma NextInv(s: State, s': State)
    requires Inv(s) && Next(s, s')
    ensures Inv(s')
  {
    var a :| Enabled(s, a) && s' == Do(s, a);
    match a
    case Begin(kind) => BeginInv(s, kind);
    case Opens(k) => OpensInv(s, k);
    case NegotiateFails(k) => NegotiateFailsInv(s, k);
    case Second(k) => SecondInv(s, k);
    case MarkGone(k) => MarkGoneInv(s, k);
    case CloseTaken(k) => CloseTakenInv(s, k);
    case CloseOwn(k) => CloseOwnInv(s, k);
    case First(k) => assert CallFits(s, k); MoveInv(s, k, s'.calls[k].place);
    case OpenDenied(k) => assert CallFits(s, k); MoveInv(s, k, s'.calls[k].place); SameInv(Move(s, k, s'.calls[k].place), s');
    case OpenFails(k) => assert CallFits(s, k); MoveInv(s, k, s'.calls[k].place); SameInv(Move(s, k, s'.calls[k].place), s');
    case Negotiates(k) => assert CallFits(s, k); MoveInv(s, k, s'.calls[k].place);
  }

  lemma {:induction false} Reachable(run: seq<State>, k: nat)
    requires Runs.IsRun(Init, Next, run) && k < |run|
    ensures Inv(run[k])
  {
    if k > 0 {
      Reachable(run, k - 1);
      NextInv(run[k - 1], run[k - 1 + 1]);
    }
  }

  // ----- the theorems -----

  /**
   A closed connection has no control client; at most one client is ever installed, it stays until
   the connection closes, and it is the one every successful Control call returns. A caller told
   that the session is gone finds the connection closed.
   */
  lemma OneControlClient(run: seq<State>, k: nat)
    requires Runs.IsRun(Init, Next, run) && k < |run|
    ensures var s := run[k];
      && (s.shared.closed ==> s.shared.control == None)
      && |s.installed| <= 1
      && (!s.shared.closed && s.installed != [] ==> s.shared.control == Some(s.installed[0]))
      && (forall j :: 0 <= j < |s.calls| ==> AnswerFits(s, s.calls[j]))
  {
    Reachable(run, k);
    var s := run[k];
    forall j | 0 <= j < |s.calls| ensures AnswerFits(s, s.calls[j]) {
      assert CallFits(s, j);
    }
  }

  /** A Control call that succeeded has the installed client; one whose session is gone, a closed connection. */
  predicate AnswerFits(s: State, call: Call) {
    && (call.kind == ControlCall && call.place.Done? && call.place.outcome.Served? ==>
      s.installed == [call.place.outcome.client])
    && (call.place == Done(Failed(SessionGone)) ==> s.shared.closed)
  }

  /**
   A client that was dialled and not installed is closed exactly once, unless its call still has it in
   hand, or gave it to the owner of a stream, who alone closes that one.
   */
  lemma LosersAreClosedOnce(run: seq<State>, k: nat, c: ClientId)
    requires Runs.IsRun(Init, Next, run) && k < |run|
    requires c < |run[k].clients| && run[k].installed != [c]
    ensures run[k].clients[c].call < |run[k].calls|
    ensures run[k].clients[c].closes == (if Mine(run[k].calls[run[k].clients[c].call], c) then 0 else 1)
  {
    Reachable(run, k);
    assert ClientFits(run[k], c);
  }

  /**
   The installed client is open for as long as the connection is, and once the connection has closed
   and no markGone or Close is on its way out, it has been closed exactly once.
   */
  lemma WinnerIsClosedWithTheConnection(run: seq<State>, k: nat)
    requires Runs.IsRun(Init, Next, run) && k < |run| && run[k].installed != []
    ensures var s := run[k];
      && s.installed[0] < |s.clients|
      && (!s.shared.closed ==> s.clients[s.installed[0]].closes == 0)
      && (s.shared.closed && (forall j :: 0 <= j < |s.calls| ==> !HasTheirs(s.calls[j])) ==>
        s.clients[s.installed[0]].closes == 1)
      && s.clients[s.installed[0]].closes <= 1
  {
    Reachable(run, k);
    var s := run[k];
    assert ClientFits(s, s.installed[0]);
    if s.shared.closed && forall j :: 0 <= j < |s.calls| ==> !HasTheirs(s.calls[j]) {
      assert !SomeoneEnding(s, s.installed[0]);
    }
  }

  /** A Control call that will not dial: it has not looked yet, or it was refused. */
  predicate Idle(call: Call) {
    call.place == Start || call.place == Done(Failed(NoDocker))
  }

  /** What a closed connection keeps, for all calls begun when there were already `before`. */
  ghost predicate Shut(s: State, before: nat, installed: seq<ClientId>) {
    && s.shared == Shared(None, true)
    && s.installed == installed
    && before <= |s.calls|
    && (forall k :: before <= k < |s.calls| && s.calls[k].kind == ControlCall ==> Idle(s.calls[k]))
    && (forall c :: 0 <= c < |s.clients| ==> s.clients[c].call < |s.calls|)
    && (forall c :: 0 <= c < |s.clients| && s.clients[c].call >= before ==>
      s.calls[s.clients[c].call].kind != ControlCall)
  }

  lemma NextShut(s: State, s': State, before: nat, installed: seq<ClientId>)
    requires Shut(s, before, installed) && Next(s, s')
    ensures Shut(s', before, installed)
  {
    hide Do;
    var a :| Enabled(s, a) && s' == Do(s, a);
    DoKeepsNames(s, a);
    forall k | before <= k < |s'.calls| && s'.calls[k].kind == ControlCall ensures Idle(s'.calls[k]) {
      DoShut(s, a, k);
    }
    DoDials(s, a, before);
    ShutField(s, a);
  }

  /** Calls and clients keep their indices, what they are, and who dialled them. */
  lemma DoKeepsNames(s: State, a: Action)
    requires Enabled(s, a)
    ensures |s.calls| <= |Do(s, a).calls|
    ensures forall k :: 0 <= k < |s.calls| ==> Do(s, a).calls[k].kind == s.calls[k].kind
  {
  }

  lemma ShutField(s: State, a: Action)
    requires Enabled(s, a) && s.shared == Shared(None, true)
    ensures Do(s, a).shared == s.shared && Do(s, a).installed == s.installed
  {
  }

  lemma DoShut(s: State, a: Action, k: nat)
    requires Enabled(s, a) && s.shared == Shared(None, true) && k < |Do(s, a).calls|
    requires k < |s.calls| ==> s.calls[k].kind != ControlCall || Idle(s.calls[k])
    ensures Do(s, a).calls[k].kind != ControlCall || Idle(Do(s, a).calls[k])
  {
  }

  lemma DoDials(s: State, a: Action, before: nat)
    requires Enabled(s, a) && before <= |s.calls|
    requires forall k :: before <= k < |s.calls| && s.calls[k].kind == ControlCall ==> Idle(s.calls[k])
    requires forall c :: 0 <= c < |s.clients| ==> s.clients[c].call < |s.calls|
    requires forall c :: 0 <= c < |s.clients| && s.clients[c].call >= before ==>
      s.calls[s.clients[c].call].kind != ControlCall
    ensures var s' := Do(s, a);
      && (forall c :: 0 <= c < |s'.clients| ==> s'.clients[c].call < |s'.calls|)
      && (forall c :: 0 <= c < |s'.clients| && s'.clients[c].call >= before ==>
        s'.calls[s'.clients[c].call].kind != ControlCall)
  {
    var s' := Do(s, a);
    DoKeepsNames(s, a);
    forall c | 0 <= c < |s'.clients|
      ensures s'.clients[c].call < |s'.calls|
      ensures s'.clients[c].call >= before ==> s'.calls[s'.clients[c].call].kind != ControlCall
    {
      if c < |s.clients| {
        assert s'.clients[c].call == s.clients[c].call;
      }
    }
  }

  /**
   Closed is for good: nothing is installed any more, and no Control call begun after the connection
   closed ever dials; it is refused.
   */
  lemma ClosedIsFinal(run: seq<State>, i: nat, j: nat)
    requires Runs.IsRun(Init, Next, run) && i <= j < |run| && run[i].shared.closed
    ensures run[j].shared == Shared(None, true) && run[j].installed == run[i].installed
    ensures forall k :: |run[i].calls| <= k < |run[j].calls| && run[j].calls[k].kind == ControlCall ==>
      Idle(run[j].calls[k]) && forall c :: 0 <= c < |run[j].clients| ==> run[j].clients[c].call != k
  {
    StaysShut(run, i, j);
  }

  lemma {:induction false} StaysShut(run: seq<State>, i: nat, j: nat)
    requires Runs.IsRun(Init, Next, run) && i <= j < |run| && run[i].shared.closed
    ensures Shut(run[j], |run[i].calls|, run[i].installed)
    decreases j
  {
    Reachable(run, i);
    if j == i {
      forall c | 0 <= c < |run[i].clients| ensures run[i].clients[c].call < |run[i].calls| {
        assert ClientFits(run[i], c);
      }
    } else {
      StaysShut(run, i, j - 1);
      NextShut(run[j - 1], run[j - 1 + 1], |run[i].calls|, run[i].installed);
    }
  }

  // ----- what callers are told, and why -----

  /** The host has refused this call's dial for good. */
  predicate WasDenied(call: Call) {
    || call.place == Denied
    || (call.place.Taken? && call.kind != CloseCall)
    || call.place == Done(Failed(SessionGone))
  }

  ghost predicate ToldTheTruth(s: State, k: nat)
    requires k < |s.calls|
  {
    var call := s.calls[k];
    && (k in s.denied <==> WasDenied(call))
    && (call.place == Done(Failed(NoDocker)) ==> s.shared.closed && call.kind == ControlCall)
    && (call.place == Done(Failed(OtherError)) ==> k in s.asked)
    && (call.place.Negotiating? || call.place.Negotiated? ==> k in s.asked)
    && (call.place.Negotiated? ==> call.kind == ControlCall)
    && (call.kind == CloseCall ==> call.place == Start || call.place.Taken? || call.place == Done(Returned))
  }

  ghost predicate Honest(s: State) {
    && (forall k :: 0 <= k < |s.calls| ==> ToldTheTruth(s, k))
    && (forall k :: k in s.denied ==> k < |s.calls|)
  }

  /** What a step does to one call is all it does to what callers are told. */
  lemma OthersTold(s: State, a: Action, k: nat)
    requires Enabled(s, a) && k < |s.calls| && (a.Begin? || a.k != k) && ToldTheTruth(s, k)
    ensures ToldTheTruth(Do(s, a), k)
  {
  }

  lemma MoverTold(s: State, a: Action)
    requires Enabled(s, a) && !a.Begin? && ToldTheTruth(s, a.k)
    ensures ToldTheTruth(Do(s, a), a.k)
  {
  }

  lemma DeniedAreCalls(s: State, a: Action)
    requires Enabled(s, a) && forall k :: k in s.denied ==> k < |s.calls|
    ensures forall k :: k in Do(s, a).denied ==> k < |Do(s, a).calls|
    ensures a.Begin? ==> Do(s, a).denied == s.denied && Do(s, a).calls == s.calls + [Call(a.kind, Start)]
    ensures !a.Begin? ==> |Do(s, a).calls| == |s.calls|
  {
  }

  lemma NextHonest(s: State, s': State)
    requires Honest(s) && Next(s, s')
    ensures Honest(s')
  {
    hide Do, ToldTheTruth;
    var a :| Enabled(s, a) && s' == Do(s, a);
    DeniedAreCalls(s, a);
    forall k | 0 <= k < |s'.calls| ensures ToldTheTruth(s', k) {
      if k == |s.calls| {
        BeginnerTold(s', k);
      } else if !a.Begin? && a.k == k {
        MoverTold(s, a);
      } else {
        OthersTold(s, a, k);
      }
    }
  }

  lemma BeginnerTold(s: State, k: nat)
    requires k < |s.calls| && s.calls[k].place == Start && k !in s.denied
    ensures ToldTheTruth(s, k)
  {
  }

  lemma {:induction false} AllHonest(run: seq<State>, k: nat)
    requires Runs.IsRun(Init, Next, run) && k < |run|
    ensures Honest(run[k])
  {
    if k > 0 {
      AllHonest(run, k - 1);
      NextHonest(run[k - 1], run[k - 1 + 1]);
    }
  }

  /**
   Why a call failed: no docker, only on a closed connection; a gone session, exactly for the calls the
   host denied, and on a closed connection; any other error, only after the host answered a dial of its
   own, and did not deny it.
   */
  lemma FailuresHaveReasons(run: seq<State>, t: nat, k: nat)
    requires Runs.IsRun(Init, Next, run) && t < |run| && k < |run[t].calls|
    ensures run[t].calls[k].place == Done(Failed(NoDocker)) ==> run[t].shared.closed && run[t].calls[k].kind == ControlCall
    ensures run[t].calls[k].place == Done(Failed(SessionGone)) ==> k in run[t].denied && run[t].shared.closed
    ensures run[t].calls[k].place.Done? && k in run[t].denied ==> run[t].calls[k].place == Done(Failed(SessionGone))
    ensures run[t].calls[k].place == Done(Failed(OtherError)) ==> k in run[t].asked && k !in run[t].denied
  {
    AllHonest(run, t);
    Reachable(run, t);
    assert ToldTheTruth(run[t], k) && CallFits(run[t], k);
  }

  ghost predicate Reached(s: State) {
    Runs.Reaches(Init, Next, s)
  }

  lemma Step(s: State, a: Action) returns (s': State)
    requires Reached(s) && Enabled(s, a)
    ensures s' == Do(s, a) && Reached(s')
  {
    s' := Do(s, a);
    Runs.OneMore(Init, Next, s, s');
  }

  /**
   A Control call on an open connection can be served: with the client that is installed, or else by
   dialling one, which is then in the field.
   */
  lemma ControlServes(s: State, k: nat) returns (s': State)
    requires Reached(s) && k < |s.calls| && s.calls[k] == Call(ControlCall, Start) && !s.shared.closed
    ensures Reached(s') && s'.shared.control.Some? && !s'.shared.closed
    ensures s'.shared.control == if s.shared.control.Some? then s.shared.control else Some(|s.clients|)
    ensures s'.calls == s.calls[k := Call(ControlCall, Done(Served(s'.shared.control.value)))]
    ensures s'.clients == if s.shared.control.Some? then s.clients else s.clients + [Dialled(k, 0, 0)]
  {
    hide Reached;
    s' := Step(s, First(k));
    if s.shared.control.None? {
      s' := Step(s', Opens(k));
      s' := Step(s', Negotiates(k));
      s' := Step(s', Second(k));
    }
  }
}
