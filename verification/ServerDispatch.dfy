/** Every batch that epoll_wait reports is gone through in order, each event once. */
module ServerDispatch {
  import opened Common
  import opened ServerModel
  import opened ServerInvariant
  import opened ServerSteps
  import opened ServerPeerSteps
  import opened ServerRemoval
  import opened ServerBatches

  // ---------------------------------------------------------------------------------------
  // What the run shows
  // ---------------------------------------------------------------------------------------

  /** The step takes up the event the loop stands at. */
  ghost predicate TakesUp(a: Action) {
    a.Accept? || a.AcceptFails? || a.Lookup? || a.SkipEvent?
  }

  ghost predicate Reports(a: Action) {
    a.EpollWait? && !a.failed && a.ready != []
  }

  /** The last batch that was reported before step `i`. */
  ghost function Reported(acts: seq<Action>, i: nat): (batch: seq<Event>)
    requires i <= |acts|
  {
    if i == 0 then [] else if Reports(acts[i - 1]) then acts[i - 1].ready else Reported(acts, i - 1)
  }

  ghost function EventTaken(s: State): (e: Event) {
    if s.loop.Dispatching? && s.loop.next < |s.loop.events| then CurrentEvent(s) else Event(0, false, 0)
  }

  /** The events taken up since then. */
  ghost function TakenUp(trace: seq<State>, acts: seq<Action>, i: nat): (events: seq<Event>)
    requires i <= |acts| < |trace|
  {
    if i == 0 || Reports(acts[i - 1]) then []
    else TakenUp(trace, acts, i - 1) + if TakesUp(acts[i - 1]) then [EventTaken(trace[i - 1])] else []
  }

  /** How many events of the batch have been taken up: the one whose callback is running included. */
  ghost function Progress(s: State): (n: nat)
    requires s.loop.Dispatching?
  {
    s.loop.next + One(!LoopIdle(s))
  }

  // ---------------------------------------------------------------------------------------
  // Steps
  // ---------------------------------------------------------------------------------------

  ghost predicate LoopInCallback(s: State) {
    LOOP in s.threads && InCallback(s.threads[LOOP])
  }

  /** The batch goes on as it should over this step. */
  ghost predicate GoesOn(s: State, a: Action, s': State) {
    && LoopInCallback(s')
    && (s'.loop.Dispatching? ==>
          if a.EpollWait? then Reports(a) && s'.loop.events == a.ready && Progress(s') == 0
          else s.loop.Dispatching? && s'.loop.events == s.loop.events && Progress(s') == Progress(s) + One(TakesUp(a))
               && (TakesUp(a) ==> LoopIdle(s)))
  }

  lemma WaitGoesOn(s: State, failed: bool, ready: seq<Event>)
    requires Threads(s) && LoopInCallback(s) && s.loop == Polling && (!failed ==> PossibleBatch(s, ready))
    ensures GoesOn(s, EpollWait(failed, ready), DoEpollWait(s, failed, ready))
  {
    assert LoopIdle(s);
  }

  lemma LoopGoesOn(s: State, a: Action)
    requires Threads(s) && LoopInCallback(s) && Enabled(s, a) && LoopMove(a) && !a.EpollWait?
    ensures GoesOn(s, a, Raw(s, a))
  {
  }

  lemma ControlGoesOn(s: State, a: Action)
    requires LoopInCallback(s) && Enabled(s, a) && ControlMove(a)
    ensures GoesOn(s, a, Raw(s, a))
  {
    ControlOnly(s, a);
  }

  lemma PointerGoesOn(s: State, a: Action)
    requires LoopInCallback(s) && Enabled(s, a) && (a.InitEpoll? || a.Share? || a.Forget? || a.Clear?)
    ensures GoesOn(s, a, Raw(s, a))
  {
  }

  lemma AcceptGoesOn(s: State, p: Peer, f: Fd)
    requires LoopInCallback(s) && CanAccept(s, p, f)
    ensures GoesOn(s, Accept(p, f), DoAccept(s, p, f))
  {
  }

  lemma AddingGoesOn(s: State, a: Action)
    requires LoopInCallback(s) && Enabled(s, a) && (a.AddToEpoll? || a.Insert?)
    ensures GoesOn(s, a, Raw(s, a))
  {
  }

  lemma LookupGoesOn(s: State)
    requires LoopInCallback(s) && CanLookup(s)
    ensures GoesOn(s, Lookup, DoLookup(s))
  {
  }

  lemma ReadGoesOn(s: State, t: Tid, p: Peer)
    requires LoopInCallback(s) && CanRead(s, t, p)
    ensures GoesOn(s, ReadFails(t, p), WithThread(s, t, s.threads[t].(pc := Deleting(p))))
  {
  }

  lemma DeleteGoesOn(s: State, t: Tid)
    requires LoopInCallback(s) && CanDelete(s, t)
    ensures GoesOn(s, EpollDelete(t), DoEpollDelete(s, t))
  {
  }

  lemma EraseGoesOn(s: State, t: Tid)
    requires LoopInCallback(s) && CanErase(s, t)
    ensures GoesOn(s, Erase(t), DoErase(s, t))
  {
  }

  lemma ReturnGoesOn(s: State, t: Tid)
    requires LoopInCallback(s) && CanReturn(s, t)
    ensures GoesOn(s, Return(t), DoReturn(s, t))
  {
  }

  lemma LoopThreadGoesOn(s: State, a: Action)
    requires Threads(s) && LoopInCallback(s) && Enabled(s, a)
    requires LoopMove(a) || a.Accept? || a.AddToEpoll? || a.Insert? || a.Lookup?
    ensures GoesOn(s, a, Raw(s, a))
  {
    if a.EpollWait? { WaitGoesOn(s, a.failed, a.ready); }
    else if LoopMove(a) { LoopGoesOn(s, a); }
    else if a.Accept? { AcceptGoesOn(s, a.peer, a.fd); }
    else if a.Lookup? { LookupGoesOn(s); }
    else { AddingGoesOn(s, a); }
  }

  lemma AnyThreadGoesOn(s: State, a: Action)
    requires LoopInCallback(s) && Enabled(s, a)
    requires a.ReadFails? || a.EpollDelete? || a.Erase? || a.Return?
    ensures GoesOn(s, a, Raw(s, a))
  {
    if a.ReadFails? { ReadGoesOn(s, a.tid, a.peer); }
    else if a.EpollDelete? { DeleteGoesOn(s, a.tid); }
    else if a.Erase? { EraseGoesOn(s, a.tid); }
    else { ReturnGoesOn(s, a.tid); }
  }

  lemma RawGoesOn(s: State, a: Action)
    requires Threads(s) && LoopInCallback(s) && Enabled(s, a)
    ensures GoesOn(s, a, Raw(s, a))
  {
    if LoopMove(a) || a.Accept? || a.AddToEpoll? || a.Insert? || a.Lookup? { LoopThreadGoesOn(s, a); }
    else if a.ReadFails? || a.EpollDelete? || a.Erase? || a.Return? { AnyThreadGoesOn(s, a); }
    else if ControlMove(a) { ControlGoesOn(s, a); }
    else { PointerGoesOn(s, a); }
  }

  lemma ReapGoesOn(s: State, a: Action, r: State)
    requires GoesOn(s, a, r)
    ensures GoesOn(s, a, Reap(r))
  {
  }

  lemma StepGoesOn(s: State, a: Action)
    requires Inv(s) && LoopInCallback(s) && Enabled(s, a)
    ensures GoesOn(s, a, Apply(s, a))
  {
    RawGoesOn(s, a);
    ReapGoesOn(s, a, Raw(s, a));
  }

  ghost predicate DispatchInv(s: State) {
    Inv(s) && LoopInCallback(s)
  }

  lemma DispatchInvKept(s: State, a: Action)
    requires DispatchInv(s) && Enabled(s, a)
    ensures DispatchInv(Apply(s, a))
  {
    StepKeeps(s, a);
    StepGoesOn(s, a);
  }

  lemma DispatchInvAtFirst(s: State)
    requires Init(s)
    ensures DispatchInv(s)
  {
    InitInv(s);
  }

  lemma RunGoesOn(trace: seq<State>, acts: seq<Action>, i: nat)
    requires Run(trace, acts) && i < |acts|
    ensures Enabled(trace[i], acts[i]) && GoesOn(trace[i], acts[i], trace[i + 1])
  {
    forall s, a | DispatchInv(s) && Enabled(s, a) ensures DispatchInv(Apply(s, a)) { DispatchInvKept(s, a); }
    DispatchInvAtFirst(trace[0]);
    Inductive(trace, acts, i, s => DispatchInv(s), (s, a) => true);
    assert StepAt(trace, acts, i);
    StepGoesOn(trace[i], acts[i]);
  }

  // ---------------------------------------------------------------------------------------
  // Batches
  // ---------------------------------------------------------------------------------------

  ghost predicate InOrder(trace: seq<State>, acts: seq<Action>, i: nat)
    requires i <= |acts| < |trace|
  {
    var loop := trace[i].loop;
    loop.Dispatching? ==>
      && loop.events == Reported(acts, i) && Progress(trace[i]) <= |loop.events|
      && TakenUp(trace, acts, i) == loop.events[..Progress(trace[i])]
  }

  lemma ProgressInBatch(trace: seq<State>, acts: seq<Action>, i: nat)
    requires Run(trace, acts) && i < |trace| && trace[i].loop.Dispatching?
    ensures Progress(trace[i]) <= |trace[i].loop.events|
  {
    RunKeeps(trace, acts, i);
  }

  lemma NextInOrder(trace: seq<State>, acts: seq<Action>, i: nat)
    requires 0 < i <= |acts| < |trace| && InOrder(trace, acts, i - 1)
    requires Enabled(trace[i - 1], acts[i - 1]) && GoesOn(trace[i - 1], acts[i - 1], trace[i])
    requires trace[i].loop.Dispatching? ==> Progress(trace[i]) <= |trace[i].loop.events|
    ensures InOrder(trace, acts, i)
  {
    var s, a, s' := trace[i - 1], acts[i - 1], trace[i];
    if s'.loop.Dispatching? && !a.EpollWait? && TakesUp(a) {
      var events := s.loop.events;
      assert Progress(s) == s.loop.next && EventTaken(s) == events[s.loop.next];
      assert events[..s.loop.next] + [events[s.loop.next]] == events[..s.loop.next + 1];
    }
  }

  /**
   * While a batch is dispatched, the events taken up since it was reported are its first ones, in
   * order and each once; at the end of the batch they are all of it.
   */
  lemma {:induction false} BatchInOrder(trace: seq<State>, acts: seq<Action>, i: nat)
    requires Run(trace, acts) && i < |trace|
    ensures InOrder(trace, acts, i)
    ensures i < |acts| && acts[i] == EndBatch ==> TakenUp(trace, acts, i) == Reported(acts, i)
  {
    if i > 0 {
      BatchInOrder(trace, acts, i - 1);
      RunGoesOn(trace, acts, i - 1);
      if trace[i].loop.Dispatching? { ProgressInBatch(trace, acts, i); }
      NextInOrder(trace, acts, i);
    }
    if i < |acts| && acts[i] == EndBatch {
      RunGoesOn(trace, acts, i);
      BatchIsThrough(trace[i]);
    }
  }

  lemma BatchIsThrough(s: State)
    requires Enabled(s, EndBatch)
    ensures s.loop.Dispatching? && Progress(s) == |s.loop.events|
    ensures s.loop.events[..Progress(s)] == s.loop.events
  {
  }

  /** How an event is taken up: the listener's by accepting, a readable one by looking its peer up, others are passed over. */
  lemma TakenUpByKind(trace: seq<State>, acts: seq<Action>, i: nat)
    requires Run(trace, acts) && i < |acts| && TakesUp(acts[i])
    ensures trace[i].loop.Dispatching? && trace[i].loop.next < |trace[i].loop.events|
    ensures var e := trace[i].loop.events[trace[i].loop.next];
            && (acts[i].Accept? || acts[i].AcceptFails? <==> e.fd == trace[i].listener)
            && (acts[i].Lookup? <==> e.fd != trace[i].listener && e.readable)
            && (acts[i].SkipEvent? <==> e.fd != trace[i].listener && !e.readable)
  {
    assert StepAt(trace, acts, i);
  }
}
