/**
 * What an event of a batch finds. Between epoll_wait and the lookup the peer may have been
 * disconnected, and its descriptor number may have been given to another one; if callbacks
 * read only from the peer they were called for, neither happens to an event still to come.
 */
module ServerBatches {
  import opened ServerModel
  import opened ServerInvariant
  import opened ServerSteps
  import opened ServerPeerSteps
  import opened ServerRemoval

  /** In every run the lookup finds the peer the event was reported for unless it was disconnected. */
  lemma LookupFindsOwner(trace: seq<State>, acts: seq<Action>, i: nat)
    requires Run(trace, acts) && i < |trace| && CanLookup(trace[i])
    ensures var s, e := trace[i], CurrentEvent(trace[i]);
            (e.fd in s.registry && s.registry[e.fd] == e.owner) <==> e.owner !in s.disconnects
  {
    RunKeeps(trace, acts, i);
    FindsOwner(trace[i]);
  }

  lemma FindsOwner(s: State)
    requires Fates(s) && Batch(s) && CanLookup(s)
    ensures var e := CurrentEvent(s);
            (e.fd in s.registry && s.registry[e.fd] == e.owner) <==> e.owner !in s.disconnects
  {
    var e := CurrentEvent(s);
    assert e == s.loop.events[s.loop.next];
    assert InRegistry(s, e.owner) <==> e.fd in s.registry && s.registry[e.fd] == e.owner;
  }

  // ---------------------------------------------------------------------------------------
  // Callbacks that keep to their own peer
  // ---------------------------------------------------------------------------------------

  ghost predicate OwnPeerOnly(s: State, a: Action) {
    a.ReadFails? ==>
      a.tid == LOOP && LOOP in s.threads && s.threads[LOOP].calls != []
      && a.peer == s.threads[LOOP].calls[|s.threads[LOOP].calls| - 1].peer
  }

  ghost predicate OwnAt(trace: seq<State>, acts: seq<Action>, i: nat) {
    i < |acts| && i < |trace| && OwnPeerOnly(trace[i], acts[i])
  }

  /** A run in which readData is called only from callbacks, and there only on the callback's peer. */
  ghost predicate OwnRun(trace: seq<State>, acts: seq<Action>) {
    Run(trace, acts) && forall i: nat :: i < |acts| ==> OwnAt(trace, acts, i)
  }

  /** Event `j` of the batch is still to be looked up. */
  ghost predicate Ahead(s: State, j: nat) {
    s.loop.Dispatching? && j < |s.loop.events| && s.loop.events[j].fd != s.listener
    && (j > s.loop.next || (j == s.loop.next && LoopIdle(s)))
  }

  /** The thread deletes a client only from within a callback. */
  ghost predicate InCallback(th: Thread) {
    th.pc.Deleting? || th.pc.Erasing? ==> th.calls != []
  }

  /** The loop thread is not concerned with the peers of events still to come. */
  ghost predicate KeepsToItself(s: State) {
    && LOOP in s.threads
    && (forall t :: t in s.threads && t != LOOP ==> s.threads[t].pc == Running)
    && InCallback(s.threads[LOOP])
    && (forall j: nat :: Ahead(s, j) ==> s.loop.events[j].owner !in s.disconnects)
    && (forall j: nat :: Ahead(s, j) ==> !Holds(s.threads[LOOP], s.loop.events[j].owner))
  }

  lemma OwnLoopMove(s: State, a: Action)
    requires KeepsToItself(s) && Enabled(s, a) && LoopMove(a) && !a.EpollWait?
    ensures KeepsToItself(Raw(s, a))
  {
    var s' := Raw(s, a);
    assert s'.threads == s.threads && s'.disconnects == s.disconnects && s'.listener == s.listener;
    forall j: nat | Ahead(s', j) ensures Ahead(s, j) && s'.loop.events[j] == s.loop.events[j] {}
  }

  lemma ReportedIsConnected(s: State, e: Event)
    requires Kernel(s) && Agreement(s) && Fates(s) && LoopIdle(s) && !Cleared(s)
    requires e.fd in s.interest && e.fd != s.listener && e.fd in s.open && e.owner == s.open[e.fd]
    ensures e.owner !in s.disconnects
  {
    ReportedIsRegistered(s, e.fd);
    assert InRegistry(s, e.owner);
  }

  lemma OwnEpollWait(s: State, failed: bool, ready: seq<Event>)
    requires KeepsToItself(s) && LoopIdle(s) && s.loop == Polling
    requires !failed ==> forall j :: 0 <= j < |ready| && ready[j].fd != s.listener ==> ready[j].owner !in s.disconnects
    ensures KeepsToItself(DoEpollWait(s, failed, ready))
  {
    var s' := DoEpollWait(s, failed, ready);
    forall j: nat | Ahead(s', j) ensures s'.loop.events[j] == ready[j] {}
  }

  /** Nothing happens to the events still to come, if any are. */
  ghost predicate Aside(s: State, s': State) {
    && s'.threads == s.threads && s'.disconnects == s.disconnects && s'.listener == s.listener
    && (s'.loop == s.loop || !s'.loop.Dispatching?)
  }

  lemma OwnAside(s: State, s': State)
    requires KeepsToItself(s) && Aside(s, s')
    ensures KeepsToItself(s')
  {
    forall j: nat | Ahead(s', j) ensures Ahead(s, j) && s'.loop == s.loop {}
  }

  lemma OwnControl(s: State, a: Action)
    requires KeepsToItself(s) && Enabled(s, a) && ControlMove(a)
    ensures KeepsToItself(Raw(s, a))
  {
    ControlOnly(s, a);
    OwnAside(s, Raw(s, a));
  }

  lemma OwnOther(s: State, a: Action)
    requires KeepsToItself(s) && Enabled(s, a) && (a.InitEpoll? || a.Share? || a.Forget? || a.Clear?)
    ensures KeepsToItself(Raw(s, a))
  {
    OwnAside(s, Raw(s, a));
  }

  lemma OwnLookup(s: State)
    requires KeepsToItself(s) && Kernel(s) && Batch(s) && CanLookup(s)
    ensures KeepsToItself(DoLookup(s))
  {
    var s' := DoLookup(s);
    forall j: nat | Ahead(s', j)
      ensures Ahead(s, j) && s'.loop.events[j] == s.loop.events[j]
              && !Holds(s'.threads[LOOP], s.loop.events[j].owner)
    {
      assert j > s.loop.next && s.loop.events[j].fd != CurrentEvent(s).fd;
    }
  }

  lemma OwnAccept(s: State, p: Peer, f: Fd)
    requires KeepsToItself(s) && Batch(s) && CanAccept(s, p, f)
    ensures KeepsToItself(DoAccept(s, p, f))
  {
    var s' := DoAccept(s, p, f);
    forall j: nat | Ahead(s', j)
      ensures Ahead(s, j) && s'.loop.events[j] == s.loop.events[j]
              && !Holds(s'.threads[LOOP], s.loop.events[j].owner)
    {
      assert s.loop.events[j].owner in s.fdOf;
    }
  }

  /** The loop thread moves on without taking up a new peer. */
  lemma OwnThread(s: State, s': State)
    requires KeepsToItself(s) && s'.listener == s.listener && s'.disconnects == s.disconnects
    requires LOOP in s'.threads && (s'.loop == s.loop || s'.loop == Finished(false))
    requires forall t :: t in s'.threads && t != LOOP ==> s'.threads[t].pc == Running
    requires forall p :: Holds(s'.threads[LOOP], p) ==> Holds(s.threads[LOOP], p)
    requires LoopIdle(s') ==> LoopIdle(s) || s'.loop == Finished(false)
    requires InCallback(s'.threads[LOOP])
    ensures KeepsToItself(s')
  {
    forall j: nat | Ahead(s', j) ensures Ahead(s, j) {}
  }

  lemma OwnAdd(s: State, ok: bool)
    requires KeepsToItself(s) && CanAdd(s, ok)
    ensures KeepsToItself(DoAddToEpoll(s, ok))
  {
    OwnThread(s, DoAddToEpoll(s, ok));
  }

  lemma OwnInsert(s: State)
    requires KeepsToItself(s) && CanInsert(s)
    ensures KeepsToItself(DoInsert(s))
  {
    OwnThread(s, DoInsert(s));
  }

  lemma OwnRead(s: State, t: Tid, p: Peer)
    requires KeepsToItself(s) && CanRead(s, t, p) && OwnPeerOnly(s, ReadFails(t, p))
    ensures KeepsToItself(WithThread(s, t, s.threads[t].(pc := Deleting(p))))
  {
    assert InCall(s.threads[LOOP], p);
    OwnThread(s, WithThread(s, t, s.threads[t].(pc := Deleting(p))));
  }

  lemma OwnDelete(s: State, t: Tid)
    requires KeepsToItself(s) && CanDelete(s, t)
    ensures KeepsToItself(DoEpollDelete(s, t))
  {
    assert t == LOOP;
    OwnThread(s, DoEpollDelete(s, t));
  }

  lemma OwnErase(s: State, t: Tid)
    requires KeepsToItself(s) && CanErase(s, t)
    requires var p := s.threads[t].pc.peer; s.fdOf[p] in s.registry ==> s.registry[s.fdOf[p]] == p
    ensures KeepsToItself(DoErase(s, t))
  {
    assert t == LOOP;
    var s' := DoErase(s, t);
    var p := s.threads[t].pc.peer;
    assert Holds(s.threads[LOOP], p);
    forall q | Holds(s'.threads[LOOP], q) ensures Holds(s.threads[LOOP], q) {
      if !InCall(s.threads[LOOP], q) { assert q == p; }
    }
    forall j: nat | Ahead(s', j) ensures Ahead(s, j) && s.loop.events[j].owner != p {}
  }

  lemma OwnReturn(s: State, t: Tid)
    requires KeepsToItself(s) && CanReturn(s, t)
    ensures KeepsToItself(DoReturn(s, t))
  {
    var s' := DoReturn(s, t);
    forall q | Holds(s'.threads[LOOP], q) ensures Holds(s.threads[LOOP], q) {}
    forall j: nat | Ahead(s', j) ensures Ahead(s, j) && s'.loop.events[j] == s.loop.events[j] {}
  }

  lemma OwnPeerMove(s: State, a: Action)
    requires KeepsToItself(s) && Kernel(s) && Agreement(s) && Batch(s) && Enabled(s, a) && OwnPeerOnly(s, a)
    requires a.Lookup? || a.Accept? || a.AddToEpoll? || a.Insert?
    ensures KeepsToItself(Raw(s, a))
  {
    if a.Lookup? { OwnLookup(s); }
    else if a.Accept? { OwnAccept(s, a.peer, a.fd); }
    else if a.AddToEpoll? { OwnAdd(s, a.ok); }
    else { OwnInsert(s); }
  }

  lemma OwnCallbackMove(s: State, a: Action)
    requires KeepsToItself(s) && Kernel(s) && Agreement(s) && Enabled(s, a) && OwnPeerOnly(s, a)
    requires a.ReadFails? || a.EpollDelete? || a.Erase? || a.Return?
    ensures KeepsToItself(Raw(s, a))
  {
    if a.ReadFails? { OwnRead(s, a.tid, a.peer); }
    else if a.EpollDelete? { OwnDelete(s, a.tid); }
    else if a.Erase? { EraseFindsPeer(s, a.tid); OwnErase(s, a.tid); }
    else { OwnReturn(s, a.tid); }
  }

  lemma OwnReap(s: State)
    requires KeepsToItself(s)
    ensures KeepsToItself(Reap(s))
  {
    var s' := Reap(s);
    assert s'.threads == s.threads && s'.loop == s.loop && s'.disconnects == s.disconnects && s'.listener == s.listener;
    forall j: nat ensures Ahead(s', j) <==> Ahead(s, j) {}
  }

  lemma OwnWait(s: State, failed: bool, ready: seq<Event>)
    requires KeepsToItself(s) && Kernel(s) && Threads(s) && Agreement(s) && Fates(s)
    requires s.loop == Polling && (!failed ==> PossibleBatch(s, ready))
    ensures KeepsToItself(DoEpollWait(s, failed, ready))
  {
    if !failed {
      forall j | 0 <= j < |ready| && ready[j].fd != s.listener ensures ready[j].owner !in s.disconnects {
        ReportedIsConnected(s, ready[j]);
      }
    }
    OwnEpollWait(s, failed, ready);
  }

  lemma OwnStep(s: State, a: Action)
    requires Inv(s) && KeepsToItself(s) && Enabled(s, a) && OwnPeerOnly(s, a)
    ensures KeepsToItself(Apply(s, a))
  {
    if a.EpollWait? { OwnWait(s, a.failed, a.ready); }
    else if LoopMove(a) { OwnLoopMove(s, a); }
    else if a.Lookup? || a.Accept? || a.AddToEpoll? || a.Insert? { OwnPeerMove(s, a); }
    else if a.ReadFails? || a.EpollDelete? || a.Erase? || a.Return? { OwnCallbackMove(s, a); }
    else if ControlMove(a) { OwnControl(s, a); }
    else { OwnOther(s, a); }
    OwnReap(Raw(s, a));
  }

  ghost predicate OwnInv(s: State) {
    Inv(s) && KeepsToItself(s)
  }

  lemma OwnInvAtFirst(s: State)
    requires Init(s)
    ensures OwnInv(s)
  {
    InitInv(s);
  }

  lemma OwnInvKept(s: State, a: Action)
    requires OwnInv(s) && OwnPeerOnly(s, a) && Enabled(s, a)
    ensures OwnInv(Apply(s, a))
  {
    StepKeeps(s, a);
    OwnStep(s, a);
  }

  lemma OwnRunKeepsToItself(trace: seq<State>, acts: seq<Action>, i: nat)
    requires OwnRun(trace, acts) && i < |trace|
    ensures KeepsToItself(trace[i])
  {
    forall s, a | OwnInv(s) && OwnPeerOnly(s, a) && Enabled(s, a) ensures OwnInv(Apply(s, a)) { OwnInvKept(s, a); }
    OwnInvAtFirst(trace[0]);
    forall k: nat | k < |acts| ensures OwnPeerOnly(trace[k], acts[k]) { assert OwnAt(trace, acts, k); }
    Inductive(trace, acts, i, s => OwnInv(s), (s, a) => OwnPeerOnly(s, a));
  }

  /**
   * If callbacks read only from their own peer and nobody else reads at all, every lookup of
   * every batch succeeds and finds the very peer the event was reported for.
   */
  lemma OwnCallbacksFindEveryPeer(trace: seq<State>, acts: seq<Action>, i: nat)
    requires OwnRun(trace, acts) && i < |trace| && CanLookup(trace[i])
    ensures var s, e := trace[i], CurrentEvent(trace[i]);
            e.fd in s.registry && s.registry[e.fd] == e.owner
  {
    OwnRunKeepsToItself(trace, acts, i);
    LookupFindsOwner(trace, acts, i);
    assert Ahead(trace[i], trace[i].loop.next);
  }
}
