/**
 Everything the plugin sends goes through writeFrame (internal/infra/ipc/client.go): Call, Notify,
 WriteChannel, GrantCredit and the replies to inbound requests. This is that function under any
 number of concurrent callers, with the write to the pipe taken byte by byte, so that it is the
 mutex, and not the granularity of the model, that keeps frames whole.
 */
module WireWriters {
  import opened Bytes
  import opened ByteStreams
  import opened Codec
  import Runs

  datatype Ending = Written | ConnectionClosed | Refused(error: Error)

  /** A writeFrame call: before the lock, after it, writing byte k of the encoding, or about to unlock, or back. */
  datatype Writer =
    | Wanting(f: Frame)
    | Locked(f: Frame)
    | Writing(f: Frame, k: nat)
    | Unlocking(f: Frame, ending: Ending)
    | Returned(f: Frame, ending: Ending)

  datatype Wire = Wire(
    output: seq<Byte>,
    locked: Option<nat>,
    writers: seq<Writer>,
    done: bool,
    order: seq<nat>)     // the calls whose frames went out whole, in the order they did

  ghost predicate Init(s: Wire) {
    s == Wire([], None, [], false, [])
  }

  datatype Action = Start(f: Frame) | Lock(i: nat) | Check(i: nat) | WriteByte(i: nat) | Unlock(i: nat) | CloseDone

  predicate Enabled(s: Wire, a: Action) {
    match a
    case Start(_) => true
    case Lock(i) => i < |s.writers| && s.writers[i].Wanting? && s.locked == None
    case Check(i) => i < |s.writers| && s.writers[i].Locked?
    case WriteByte(i) =>
      i < |s.writers| && s.writers[i].Writing? && Valid(s.writers[i].f) && s.writers[i].k < |Encode(s.writers[i].f)|
    case Unlock(i) => i < |s.writers| && s.writers[i].Unlocking?
    case CloseDone => true
  }

  function Do(s: Wire, a: Action): Wire
    requires Enabled(s, a)
  {
    match a
    case Start(f) => s.(writers := s.writers + [Wanting(f)])
    case Lock(i) => s.(locked := Some(i), writers := s.writers[i := Locked(s.writers[i].f)])
    case Check(i) =>
      var f := s.writers[i].f;
      s.(writers := s.writers[i :=
        if s.done then Unlocking(f, ConnectionClosed)
        else if Refusal(f).Some? then Unlocking(f, Refused(Refusal(f).value))
        else Writing(f, 0)])
    case WriteByte(i) =>
      var f, k := s.writers[i].f, s.writers[i].k;
      var s' := s.(output := s.output + [Encode(f)[k]]);
      if k + 1 < |Encode(f)| then s'.(writers := s.writers[i := Writing(f, k + 1)])
      else s'.(writers := s.writers[i := Unlocking(f, Written)], order := s.order + [i])
    case Unlock(i) =>
      s.(locked := None, writers := s.writers[i := Returned(s.writers[i].f, s.writers[i].ending)])
    case CloseDone => s.(done := true)
  }

  ghost predicate Next(s: Wire, s': Wire) {
    exists a :: Enabled(s, a) && s' == Do(s, a)
  }

  predicate HoldsLock(w: Writer) {
    w.Locked? || w.Writing? || w.Unlocking?
  }

  /** The call's frame has gone out whole. */
  predicate WroteIt(w: Writer) {
    (w.Unlocking? || w.Returned?) && w.ending == Written
  }

  /** The frames that went out, in order. */
  function Log(s: Wire): seq<Frame>
    requires forall m :: 0 <= m < |s.order| ==> s.order[m] < |s.writers|
  {
    seq(|s.order|, m requires 0 <= m < |s.order| => s.writers[s.order[m]].f)
  }

  /** The part of a frame that is out while its writer holds the lock. */
  function Torn(s: Wire): seq<Byte> {
    if s.locked.None? || s.locked.value >= |s.writers| then []
    else
      var w := s.writers[s.locked.value];
      if w.Writing? && Valid(w.f) && w.k <= |Encode(w.f)| then Encode(w.f)[..w.k] else []
  }

  ghost predicate Ordered(s: Wire) {
    && (forall m :: 0 <= m < |s.order| ==>
        s.order[m] < |s.writers| && WroteIt(s.writers[s.order[m]]) && Valid(s.writers[s.order[m]].f))
    && (forall m, n :: 0 <= m < n < |s.order| ==> s.order[m] != s.order[n])
    && (forall i :: 0 <= i < |s.writers| && WroteIt(s.writers[i]) ==> i in s.order)
  }

  ghost predicate Exclusive(s: Wire) {
    && (s.locked.Some? ==> s.locked.value < |s.writers|)
    && (forall i :: 0 <= i < |s.writers| ==> (HoldsLock(s.writers[i]) <==> s.locked == Some(i)))
    && (forall i :: 0 <= i < |s.writers| && s.writers[i].Writing? ==>
        Valid(s.writers[i].f) && s.writers[i].k < |Encode(s.writers[i].f)|)
  }

  ghost predicate Inv(s: Wire) {
    Exclusive(s) && Ordered(s) && s.output == EncodeAll(Log(s)) + Torn(s)
  }

  lemma StepExclusive(s: Wire, a: Action)
    requires Exclusive(s) && Enabled(s, a)
    ensures Exclusive(Do(s, a))
  {
  }

  /** The step that writes the last byte of a frame. */
  predicate Finishes(s: Wire, a: Action)
    requires Enabled(s, a)
  {
    a.WriteByte? && s.writers[a.i].k + 1 == |Encode(s.writers[a.i].f)|
  }

  lemma FinishOrdered(s: Wire, a: Action)
    requires Ordered(s) && Enabled(s, a) && Finishes(s, a)
    ensures Ordered(Do(s, a)) && Log(Do(s, a)) == Log(s) + [s.writers[a.i].f]
  {
    hide Encode;
    var s' := Do(s, a);
    forall i | 0 <= i < |s'.writers| && WroteIt(s'.writers[i]) ensures i in s'.order {
      if i == a.i {
        assert s'.order[|s.order|] == i;
      } else {
        assert i in s.order;
      }
    }
  }

  /** Any other step keeps every call's frame, and whether it has gone out. */
  lemma QuietOrdered(s: Wire, s': Wire)
    requires Ordered(s) && s'.order == s.order && |s.writers| <= |s'.writers|
    requires forall i :: 0 <= i < |s.writers| ==>
      s'.writers[i].f == s.writers[i].f && (WroteIt(s'.writers[i]) <==> WroteIt(s.writers[i]))
    requires forall i :: |s.writers| <= i < |s'.writers| ==> !WroteIt(s'.writers[i])
    ensures Ordered(s') && Log(s') == Log(s)
  {
  }

  lemma StepOrdered(s: Wire, a: Action)
    requires Exclusive(s) && Ordered(s) && Enabled(s, a)
    ensures Ordered(Do(s, a))
    ensures Log(Do(s, a)) == if Finishes(s, a) then Log(s) + [s.writers[a.i].f] else Log(s)
  {
    hide Encode, Ordered;
    if Finishes(s, a) { FinishOrdered(s, a); } else { QuietOrdered(s, Do(s, a)); }
  }

  lemma TornAfter(s: Wire, a: Action)
    requires Exclusive(s) && Enabled(s, a)
    ensures Do(s, a).output + [] == s.output + (if a.WriteByte? then [Encode(s.writers[a.i].f)[s.writers[a.i].k]] else [])
    ensures Torn(Do(s, a)) ==
            if Finishes(s, a) then []
            else if a.WriteByte? then Torn(s) + [Encode(s.writers[a.i].f)[s.writers[a.i].k]] else Torn(s)
    ensures a.WriteByte? ==> Torn(s) == Encode(s.writers[a.i].f)[..s.writers[a.i].k]
  {
    hide Encode;
  }

  /** The last byte turns a torn frame into a whole one. */
  lemma FinishOutput(log: seq<Frame>, f: Frame)
    requires Valid(f) && forall g :: g in log ==> Valid(g)
    ensures var n := |Encode(f)| - 1;
            (EncodeAll(log) + Encode(f)[..n]) + [Encode(f)[n]] == EncodeAll(log + [f])
  {
    EncodeAllSnoc(log, f);
    var n := |Encode(f)| - 1;
    assert Encode(f)[..n] + [Encode(f)[n]] == Encode(f);
  }

  /** A frame that is still torn grows by a byte. */
  lemma TornGrows(whole: seq<Byte>, torn: seq<Byte>, b: Byte)
    ensures (whole + torn) + [b] == whole + (torn + [b])
  {
  }

  lemma StepOutput(s: Wire, a: Action)
    requires Inv(s) && Enabled(s, a) && Ordered(Do(s, a))
    ensures Do(s, a).output == EncodeAll(Log(Do(s, a))) + Torn(Do(s, a))
  {
    StepOrdered(s, a);
    TornAfter(s, a);
    LogIsValid(s);
    var s' := Do(s, a);
    hide Encode, EncodeAll, Torn, Log, Do, Ordered, Exclusive;
    if Finishes(s, a) {
      FinishOutput(Log(s), s.writers[a.i].f);
    } else if a.WriteByte? {
      TornGrows(EncodeAll(Log(s)), Torn(s), Encode(s.writers[a.i].f)[s.writers[a.i].k]);
    }
  }

  lemma NextInv(s: Wire, s': Wire)
    requires Inv(s) && Next(s, s')
    ensures Inv(s')
  {
    hide Encode, EncodeAll, Torn, Log, Ordered, Exclusive;
    var a :| Enabled(s, a) && s' == Do(s, a);
    StepExclusive(s, a);
    StepOrdered(s, a);
    StepOutput(s, a);
  }

  lemma {:induction false} OutputIsFrames(run: seq<Wire>, k: nat)
    requires Runs.IsRun(Init, Next, run) && k < |run|
    ensures Inv(run[k])
  {
    if k > 0 {
      OutputIsFrames(run, k - 1);
      NextInv(run[k - 1], run[k - 1 + 1]);
    } else {
      assert Log(run[0]) == [];
    }
  }

  /**
   A peer that runs ReadFrame on what is out at any moment recovers exactly the frames of the calls
   that wrote theirs, in lock order, each call's once; at most the last frame is cut short, and only
   while its writer still holds the lock.
   */
  lemma PeerRecoversEveryFrame(run: seq<Wire>, k: nat)
    requires Runs.IsRun(Init, Next, run) && k < |run|
    ensures Inv(run[k])
    ensures ParseAll(run[k].output, EOF).frames == Log(run[k])
    ensures ParseAll(run[k].output, EOF).error == Stream(if Torn(run[k]) == [] then EOF else UnexpectedEOF)
    ensures run[k].locked == None ==> Torn(run[k]) == []
    ensures forall i :: 0 <= i < |run[k].writers| ==> (WroteIt(run[k].writers[i]) <==> i in run[k].order)
  {
    OutputIsFrames(run, k);
    var s := run[k];
    LogIsValid(s);
    if Torn(s) == [] {
      ParseAllOfEncodeAll(Log(s), EOF);
      assert s.output == EncodeAll(Log(s));
    } else {
      ParseAllThenCut(Log(s), s.writers[s.locked.value].f, s.writers[s.locked.value].k);
    }
  }

  lemma LogIsValid(s: Wire)
    requires Ordered(s)
    ensures forall f :: f in Log(s) ==> Valid(f)
  {
  }

  /** A call that wrote nothing has its reason: the connection was gone, or the codec refused the frame. */
  ghost predicate EndsWithReason(s: Wire) {
    forall i :: 0 <= i < |s.writers| && (s.writers[i].Unlocking? || s.writers[i].Returned?) ==>
      && (s.writers[i].ending == ConnectionClosed ==> s.done)
      && (s.writers[i].ending.Refused? ==> Refusal(s.writers[i].f) == Some(s.writers[i].ending.error))
  }

  lemma NextEndsWithReason(s: Wire, s': Wire)
    requires EndsWithReason(s) && Next(s, s')
    ensures EndsWithReason(s')
  {
    hide Encode;
  }

  lemma {:induction false} AllEndWithReason(run: seq<Wire>, k: nat)
    requires Runs.IsRun(Init, Next, run) && k < |run|
    ensures EndsWithReason(run[k])
  {
    if k > 0 {
      AllEndWithReason(run, k - 1);
      NextEndsWithReason(run[k - 1], run[k - 1 + 1]);
    }
  }

  /** A writeFrame of a valid frame that has returned on a connection that is up has put it out whole. */
  lemma ValidFramesGoOut(run: seq<Wire>, k: nat, i: nat)
    requires Runs.IsRun(Init, Next, run) && k < |run| && !run[k].done
    requires i < |run[k].writers| && run[k].writers[i].Returned?
    ensures i in run[k].order <==> Valid(run[k].writers[i].f)
  {
    AllEndWithReason(run, k);
    OutputIsFrames(run, k);
    if i in run[k].order {
      var m :| 0 <= m < |run[k].order| && run[k].order[m] == i;
    }
  }
}
