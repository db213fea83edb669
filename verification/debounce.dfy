/**
 The event debounce (internal/usecase/events.go) as a transition system: the decoding loop of
 followEvents, and the timer callbacks it arms, each of which clears the timer, takes the pending
 set, and refreshes. A timer may fire at any time after it is set, callbacks run concurrently, and
 the event stream may end at any point.
 */
module Debounce {
  import NodeIds
  import Runs
  import Totals

  /** branchForEventType: the branch an event touches, or "" for what the tree does not draw. */
  function BranchForEventType(eventType: string): string {
    if eventType == "container" then NodeIds.NODE_CONTAINERS
    else if eventType == "image" then NodeIds.NODE_IMAGES
    else if eventType == "volume" then NodeIds.NODE_VOLUMES
    else if eventType == "network" then NodeIds.NODE_NETWORKS
    else ""
  }

  /** Each kind of object the tree draws has its own branch, and nothing else has one. */
  lemma BranchesOfEvents(eventType: string)
    ensures BranchForEventType("container") == "docker/containers" && BranchForEventType("image") == "docker/images"
    ensures BranchForEventType("volume") == "docker/volumes" && BranchForEventType("network") == "docker/networks"
    ensures BranchForEventType(eventType) != "" <==> NodeIds.KnownKind(eventType)
    ensures NodeIds.KnownKind(eventType) ==> BranchForEventType(eventType) == NodeIds.GroupForKind(eventType)
  {
  }

  /** A timer's callback. `at` is how many events had been recorded when it took the set. */
  datatype Callback =
    | Armed
    | Cleared
    | Refreshing(taken: set<string>, at: nat, todo: set<string>)
    | Finished(taken: set<string>, at: nat)

  /** A refresh begun: by which callback, of what, and after how many recorded events. */
  datatype Refresh = Refresh(callback: nat, branch: string, after: nat)

  datatype State = State(
    pending: set<string>,
    timerSet: bool,
    callbacks: seq<Callback>,
    ended: bool,
    recorded: seq<string>,                 // the branches recorded, one for each event
    refreshed: seq<Refresh>)               // the refreshes begun

  ghost predicate Init(s: State) {
    s == State({}, false, [], false, [], [])
  }

  datatype Action =
    | Event(eventType: string) | EndStream
    | Fire(i: nat) | TakeSet(i: nat) | RefreshBranch(i: nat, branch: string) | RefreshRoot(i: nat)

  predicate Enabled(s: State, a: Action) {
    match a
    case Event(_) => !s.ended
    case EndStream => true
    case Fire(i) => i < |s.callbacks| && s.callbacks[i] == Armed
    case TakeSet(i) => i < |s.callbacks| && s.callbacks[i] == Cleared
    case RefreshBranch(i, branch) => i < |s.callbacks| && s.callbacks[i].Refreshing? && branch in s.callbacks[i].todo
    case RefreshRoot(i) => i < |s.callbacks| && s.callbacks[i].Refreshing? && s.callbacks[i].todo == {}
  }

  function Move(s: State, i: nat, c: Callback): State
    requires i < |s.callbacks|
  {
    s.(callbacks := s.callbacks[i := c])
  }

  function Do(s: State, a: Action): State
    requires Enabled(s, a)
  {
    match a
    case Event(eventType) =>
      var branch := BranchForEventType(eventType);
      if branch == "" then s
      else
        var s' := s.(pending := s.pending + {branch}, recorded := s.recorded + [branch]);
        if s.timerSet then s' else s'.(timerSet := true, callbacks := s.callbacks + [Armed])
    case EndStream => s.(ended := true)
    case Fire(i) => Move(s, i, Cleared).(timerSet := false)
    case TakeSet(i) => Move(s, i, Refreshing(s.pending, |s.recorded|, s.pending)).(pending := {})
    case RefreshBranch(i, branch) =>
      var c := s.callbacks[i];
      Move(s, i, c.(todo := c.todo - {branch})).(refreshed := s.refreshed + [Refresh(i, branch, |s.recorded|)])
    case RefreshRoot(i) =>
      Move(s, i, Finished(s.callbacks[i].taken, s.callbacks[i].at))
        .(refreshed := s.refreshed + [Refresh(i, NodeIds.NODE_ROOT, |s.recorded|)])
  }

  /** Every event of the four kinds is recorded with its branch, whatever else is going on, and no other event is. */
  lemma EventsAreRecorded(s: State, eventType: string)
    requires !s.ended
    ensures var s' := Do(s, Event(eventType));
      if eventType in ["container", "image", "volume", "network"] then
        && s'.recorded == s.recorded + ["docker/" + eventType + "s"] && "docker/" + eventType + "s" in s'.pending
        && s'.timerSet
      else s' == s
  {
    assert "docker/" + "container" + "s" == "docker/containers" && "docker/" + "image" + "s" == "docker/images";
    assert "docker/" + "volume" + "s" == "docker/volumes" && "docker/" + "network" + "s" == "docker/networks";
  }

  ghost predicate Next(s: State, s': State) {
    exists a :: Enabled(s, a) && s' == Do(s, a)
  }

  predicate HasTaken(c: Callback) {
    c.Refreshing? || c.Finished?
  }

  /** A flush that took the set after the m-th event, with that event's branch in it. */
  predicate Covers(c: Callback, recorded: seq<string>, m: nat) {
    HasTaken(c) && m < |recorded| && m < c.at <= |recorded| && recorded[m] in c.taken
  }

  ghost predicate Covered(s: State, m: nat) {
    exists i :: 0 <= i < |s.callbacks| && Covers(s.callbacks[i], s.recorded, m)
  }

  ghost predicate Inv(s: State) {
    // the timer variable is set exactly while one callback has not fired
    && (forall i, j :: 0 <= i < j < |s.callbacks| && s.callbacks[i] == Armed ==> s.callbacks[j] != Armed)
    && (s.timerSet <==> Armed in s.callbacks)
    // a non-empty set has a callback that will still take it
    && (s.pending != {} ==> s.timerSet || Cleared in s.callbacks)
    // no event is lost
    && (forall m: nat :: m < |s.recorded| ==> s.recorded[m] in s.pending || Covered(s, m))
    && |s.callbacks| <= |s.recorded|
  }

  lemma EventInv(s: State, eventType: string)
    requires Inv(s) && Enabled(s, Event(eventType))
    ensures Inv(Do(s, Event(eventType)))
  {
    var s' := Do(s, Event(eventType));
    if s' != s {
      if !s.timerSet {
        assert s'.callbacks[|s.callbacks|] == Armed;
      }
      if s.timerSet {
        assert s'.callbacks == s.callbacks;
      }
      forall m: nat | m < |s'.recorded| ensures s'.recorded[m] in s'.pending || Covered(s', m) {
        if m < |s.recorded| && s.recorded[m] !in s.pending {
          var i :| 0 <= i < |s.callbacks| && Covers(s.callbacks[i], s.recorded, m);
          assert Covers(s'.callbacks[i], s'.recorded, m);
        }
      }
    }
  }

  lemma FireInv(s: State, i: nat)
    requires Inv(s) && Enabled(s, Fire(i))
    ensures Inv(Do(s, Fire(i)))
  {
    var s' := Do(s, Fire(i));
    assert s'.callbacks[i] == Cleared;
    assert forall j :: 0 <= j < |s'.callbacks| ==> s'.callbacks[j] != Armed;
    forall m: nat | m < |s'.recorded| ensures s'.recorded[m] in s'.pending || Covered(s', m) {
      KeepsCover(s, s', m);
    }
  }

  /** Callbacks that have taken a set keep it. */
  lemma KeepsCover(s: State, s': State, m: nat)
    requires s'.recorded == s.recorded && |s'.callbacks| == |s.callbacks|
    requires forall i :: 0 <= i < |s.callbacks| && HasTaken(s.callbacks[i]) ==>
      HasTaken(s'.callbacks[i]) && s'.callbacks[i].taken == s.callbacks[i].taken && s'.callbacks[i].at == s.callbacks[i].at
    ensures Covered(s, m) ==> Covered(s', m)
  {
    if i :| 0 <= i < |s.callbacks| && Covers(s.callbacks[i], s.recorded, m) {
      assert Covers(s'.callbacks[i], s'.recorded, m);
    }
  }

  lemma TakeSetInv(s: State, i: nat)
    requires Inv(s) && Enabled(s, TakeSet(i))
    ensures Inv(Do(s, TakeSet(i)))
  {
    var s' := Do(s, TakeSet(i));
    SameArmed(s, s', i);
    forall m: nat | m < |s'.recorded| ensures Covered(s', m) {
      if s.recorded[m] in s.pending {
        assert Covers(s'.callbacks[i], s'.recorded, m);
      } else {
        KeepsCover(s, s', m);
      }
    }
  }

  lemma RefreshInv(s: State, a: Action)
    requires Inv(s) && Enabled(s, a) && (a.RefreshBranch? || a.RefreshRoot?)
    ensures Inv(Do(s, a))
  {
    var s' := Do(s, a);
    SameArmed(s, s', a.i);
    if j :| 0 <= j < |s.callbacks| && s.callbacks[j] == Cleared {
      assert s'.callbacks[j] == Cleared;
    }
    forall m: nat | m < |s'.recorded| ensures s'.recorded[m] in s'.pending || Covered(s', m) {
      KeepsCover(s, s', m);
    }
  }

  lemma SameArmed(s: State, s': State, i: nat)
    requires i < |s.callbacks| == |s'.callbacks| && s.callbacks[i] != Armed && s'.callbacks[i] != Armed
    requires s'.callbacks == s.callbacks[i := s'.callbacks[i]]
    ensures Armed in s'.callbacks <==> Armed in s.callbacks
  {
    if j :| 0 <= j < |s.callbacks| && s.callbacks[j] == Armed {
      assert s'.callbacks[j] == Armed;
    }
  }

  /** What a callback has refreshed so far. */
  ghost predicate Began(s: State, i: nat, branch: string, at: nat) {
    exists k :: 0 <= k < |s.refreshed| && s.refreshed[k].callback == i && s.refreshed[k].branch == branch
      && s.refreshed[k].after >= at
  }

  ghost predicate WorkDone(s: State, i: nat)
    requires i < |s.callbacks|
  {
    var c := s.callbacks[i];
    && (c.Refreshing? ==>
      c.todo <= c.taken <= GROUPS && c.at <= |s.recorded| && forall b :: b in c.taken - c.todo ==> Began(s, i, b, c.at))
    && (c.Finished? ==> Began(s, i, NodeIds.NODE_ROOT, c.at) && forall b :: b in c.taken ==> Began(s, i, b, c.at))
  }

  const GROUPS: set<string> :=
    {NodeIds.NODE_CONTAINERS, NodeIds.NODE_IMAGES, NodeIds.NODE_VOLUMES, NodeIds.NODE_NETWORKS}

  ghost predicate Working(s: State) {
    && s.pending <= GROUPS
    && forall i :: 0 <= i < |s.callbacks| ==> WorkDone(s, i)
  }

  lemma BeganStays(s: State, s': State, i: nat, branch: string, at: nat)
    requires s.refreshed <= s'.refreshed && Began(s, i, branch, at)
    ensures Began(s', i, branch, at)
  {
    var k :| 0 <= k < |s.refreshed| && s.refreshed[k].callback == i && s.refreshed[k].branch == branch
      && s.refreshed[k].after >= at;
    assert s'.refreshed[k] == s.refreshed[k];
  }

  lemma WorkStays(s: State, s': State, i: nat)
    requires i < |s.callbacks| && i < |s'.callbacks| && s.callbacks[i] == s'.callbacks[i]
    requires s.refreshed <= s'.refreshed && |s.recorded| <= |s'.recorded| && WorkDone(s, i)
    ensures WorkDone(s', i)
  {
    hide Began;
    var c := s.callbacks[i];
    if HasTaken(c) {
      var done := if c.Refreshing? then c.taken - c.todo else c.taken + {NodeIds.NODE_ROOT};
      forall b | b in done ensures Began(s', i, b, c.at) {
        BeganStays(s, s', i, b, c.at);
      }
    }
  }

  lemma RefreshWorks(s: State, a: Action)
    requires Working(s) && Enabled(s, a) && (a.RefreshBranch? || a.RefreshRoot?)
    ensures WorkDone(Do(s, a), a.i)
  {
    var s' := Do(s, a);
    var c, c' := s.callbacks[a.i], s'.callbacks[a.i];
    var k := |s.refreshed|;
    assert WorkDone(s, a.i);
    assert s'.refreshed[k].callback == a.i && s'.refreshed[k].after >= c.at;
    var before := if a.RefreshBranch? then c.taken - c.todo else c.taken;
    forall b | b in before ensures Began(s', a.i, b, c.at) {
      BeganStays(s, s', a.i, b, c.at);
    }
    assert Began(s', a.i, s'.refreshed[k].branch, c.at);
  }

  lemma FreshWork(s: State, i: nat)
    requires i < |s.callbacks|
    requires (s.callbacks[i].Refreshing? ==>
      s.callbacks[i].todo == s.callbacks[i].taken <= GROUPS && s.callbacks[i].at <= |s.recorded|)
    requires !s.callbacks[i].Finished?
    ensures WorkDone(s, i)
  {
  }

  lemma NextWorks(s: State, s': State)
    requires Working(s) && Next(s, s')
    ensures Working(s')
  {
    hide WorkDone;
    var a :| Enabled(s, a) && s' == Do(s, a);
    forall i | 0 <= i < |s'.callbacks| ensures WorkDone(s', i) {
      if i < |s.callbacks| && s'.callbacks[i] == s.callbacks[i] {
        WorkStays(s, s', i);
      } else if a.RefreshBranch? || a.RefreshRoot? {
        RefreshWorks(s, a);
      } else {
        FreshWork(s', i);
      }
    }
  }

  lemma NextInv(s: State, s': State)
    requires Inv(s) && Next(s, s')
    ensures Inv(s')
  {
    var a :| Enabled(s, a) && s' == Do(s, a);
    match a
    case Event(eventType) => EventInv(s, eventType);
    case EndStream =>
      forall m: nat | m < |s.recorded| ensures s.recorded[m] in s.pending || Covered(s', m) {
        KeepsCover(s, s', m);
      }
    case Fire(i) => FireInv(s, i);
    case TakeSet(i) => TakeSetInv(s, i);
    case RefreshBranch(_, _) => RefreshInv(s, a);
    case RefreshRoot(_) => RefreshInv(s, a);
  }

  lemma {:induction false} Reachable(run: seq<State>, k: nat)
    requires Runs.IsRun(Init, Next, run) && k < |run|
    ensures Inv(run[k]) && Working(run[k])
  {
    if k > 0 {
      Reachable(run, k - 1);
      NextInv(run[k - 1], run[k - 1 + 1]);
      NextWorks(run[k - 1], run[k - 1 + 1]);
    }
  }

  /** How far a callback is from finishing, which bounds the steps it has left. */
  function Left(c: Callback): nat {
    match c
    case Armed => 7
    case Cleared => 6
    case Refreshing(_, _, todo) => 1 + |todo|
    case Finished(_, _) => 0
  }

  /** Every callback in the system, together. */
  function AllLeft(s: State): nat {
    Totals.Total(Left, s.callbacks)
  }

  /**
   In every reachable state: the timer variable is set exactly while one callback has not fired, and
   no second one is armed; a non-empty set has a callback still to take it; and every event's
   branch is waiting in the set, or in a flush that took the set after the event. Flushes never
   outnumber events. None of this assumes the stream is still open.
   */
  lemma NothingIsLost(run: seq<State>, k: nat)
    requires Runs.IsRun(Init, Next, run) && k < |run|
    ensures var s := run[k];
      && (forall i, j :: 0 <= i < j < |s.callbacks| && s.callbacks[i] == Armed ==> s.callbacks[j] != Armed)
      && (s.timerSet <==> Armed in s.callbacks)
      && (s.pending != {} ==> Armed in s.callbacks || Cleared in s.callbacks)
      && (forall m: nat :: m < |s.recorded| ==> s.recorded[m] in s.pending || Covered(s, m))
      && |s.callbacks| <= |s.recorded|
  {
    Reachable(run, k);
  }

  /** Some refresh of the branch began after the m-th event was recorded. */
  ghost predicate RefreshedAfter(s: State, branch: string, m: nat) {
    exists r :: 0 <= r < |s.refreshed| && s.refreshed[r].branch == branch && s.refreshed[r].after > m
  }

  /**
   Once every callback has finished, each event's branch has been refreshed by a refresh that began
   after the event, and so has the root, whose labels carry the counts.
   */
  lemma EveryEventIsRefreshed(run: seq<State>, k: nat, m: nat)
    requires Runs.IsRun(Init, Next, run) && k < |run| && m < |run[k].recorded|
    requires forall i :: 0 <= i < |run[k].callbacks| ==> run[k].callbacks[i].Finished?
    ensures run[k].pending == {}
    ensures RefreshedAfter(run[k], run[k].recorded[m], m) && RefreshedAfter(run[k], NodeIds.NODE_ROOT, m)
  {
    Reachable(run, k);
    var s := run[k];
    assert Covered(s, m);
    var i :| 0 <= i < |s.callbacks| && Covers(s.callbacks[i], s.recorded, m);
    assert WorkDone(s, i);
    assert Began(s, i, s.recorded[m], s.callbacks[i].at);
    assert Began(s, i, NodeIds.NODE_ROOT, s.callbacks[i].at);
  }

  /**
   A callback that has not finished can always take its next step, and every such step brings the
   callbacks closer to the end; so when events stop, all of them finish, stream open or not.
   */
  lemma CallbacksFinish(run: seq<State>, k: nat)
    requires Runs.IsRun(Init, Next, run) && k < |run|
    ensures forall i :: 0 <= i < |run[k].callbacks| && !run[k].callbacks[i].Finished? ==>
      exists a :: Enabled(run[k], a) && !a.Event? && !a.EndStream? && a.i == i
    ensures forall a :: Enabled(run[k], a) && !a.Event? && !a.EndStream? ==>
      AllLeft(Do(run[k], a)) < AllLeft(run[k])
  {
    hide WorkDone;
    Reachable(run, k);
    forall i | 0 <= i < |run[k].callbacks| && !run[k].callbacks[i].Finished?
      ensures exists a :: Enabled(run[k], a) && !a.Event? && !a.EndStream? && a.i == i
    {
      StepOfCallback(run[k], i);
    }
    forall a | Enabled(run[k], a) && !a.Event? && !a.EndStream?
      ensures AllLeft(Do(run[k], a)) < AllLeft(run[k])
    {
      StepShrinks(run[k], a);
    }
  }

  lemma StepOfCallback(s: State, i: nat)
    requires i < |s.callbacks| && !s.callbacks[i].Finished?
    ensures exists a :: Enabled(s, a) && !a.Event? && !a.EndStream? && a.i == i
  {
    var c := s.callbacks[i];
    if c == Armed {
      assert Enabled(s, Fire(i));
    } else if c == Cleared {
      assert Enabled(s, TakeSet(i));
    } else if c.todo == {} {
      assert Enabled(s, RefreshRoot(i));
    } else {
      var branch :| branch in c.todo;
      assert Enabled(s, RefreshBranch(i, branch));
    }
  }

  lemma StepShrinks(s: State, a: Action)
    requires Working(s) && Enabled(s, a) && !a.Event? && !a.EndStream?
    ensures AllLeft(Do(s, a)) < AllLeft(s)
  {
    hide WorkDone;
    var c' := Do(s, a).callbacks[a.i];
    assert Left(c') < Left(s.callbacks[a.i]) by {
      if a.TakeSet? {
        FewGroups(s.pending);
      }
    }
    Totals.TotalUpdate(Left, s.callbacks, a.i, c');
  }

  lemma FewGroups(pending: set<string>)
    requires pending <= GROUPS
    ensures |pending| <= 4
  {
    Subset(pending, GROUPS);
  }

  lemma {:induction false} Subset(a: set<string>, b: set<string>)
    requires a <= b
    ensures |a| <= |b|
  {
    if x :| x in a {
      Subset(a - {x}, b - {x});
    }
  }

  ghost predicate Reached(s: State) {
    Runs.Reaches(Init, Next, s)
  }

  lemma Step(s: State, a: Action) returns (s': State)
    requires Reached(s) && Enabled(s, a)
    ensures s' == Do(s, a) && Reached(s')
  {
    s' := Do(s, a);
    Runs.OneMore(Init, Next, s, s');
  }

  lemma Start() returns (s: State)
    ensures s == State({}, false, [], false, [], []) && Reached(s)
  {
    s := State({}, false, [], false, [], []);
    Runs.StartReaches(Init, Next, s);
  }

  /** Flushes are not one at a time: two may be refreshing at once, of the same branch even. */
  lemma FlushesOverlap() returns (s: State)
    ensures Reached(s) && |s.callbacks| == 2
    ensures s.callbacks[0].Refreshing? && s.callbacks[1].Refreshing?
    ensures s.callbacks[0].todo == s.callbacks[1].todo == {NodeIds.NODE_CONTAINERS}
  {
    hide Reached;
    s := Start();
    s := Step(s, Event("container"));
    s := Step(s, Fire(0));
    s := Step(s, TakeSet(0));
    s := Step(s, Event("container"));
    s := Step(s, Fire(1));
    s := Step(s, TakeSet(1));
  }
}
