/**
 * What every run of the server guarantees, whatever its threads do: agreement of registry and
 * interest set, one disconnect per peer, one close per descriptor, a well-behaved start and
 * stop, a bounded event buffer, and batches whose events find their own peers.
 */
module ServerTheorems {
  import opened ServerModel
  import opened ServerInvariant
  import opened ServerSteps
  import opened ServerPeerSteps
  import opened ServerRemoval

  // ---------------------------------------------------------------------------------------
  // Registry and interest set
  // ---------------------------------------------------------------------------------------

  /**
   * Until the final clear the registered descriptors are the keys of the registry, except for
   * the one between EPOLL_CTL_ADD and the insert and those between EPOLL_CTL_DEL and the erase.
   */
  lemma RegistryAgreesWithEpoll(trace: seq<State>, acts: seq<Action>, i: nat)
    requires Run(trace, acts) && i < |trace| && !Cleared(trace[i])
    ensures var s := trace[i];
            && (forall f :: f in s.interest && f != s.listener && f !in s.registry <==> PolledFd(s, f))
            && (forall f :: f in s.registry && f !in s.interest <==> ErasingFd(s, f))
  {
    RunKeeps(trace, acts, i);
    var s := trace[i];
    forall f ensures f in s.registry && f !in s.interest <==> ErasingFd(s, f) {
      if ErasingFd(s, f) { ErasingNotRegistered(s, f); }
    }
    forall f ensures f in s.interest && f != s.listener && f !in s.registry <==> PolledFd(s, f) {
      if ErasingFd(s, f) { ErasingNotRegistered(s, f); }
    }
  }

  lemma ErasingNotRegistered(s: State, f: Fd)
    requires Kernel(s) && Agreement(s) && ErasingFd(s, f)
    ensures f !in s.interest
  {
    var t :| t in s.threads && s.threads[t].pc.Erasing? && s.threads[t].pc.peer in s.fdOf && s.fdOf[s.threads[t].pc.peer] == f;
    assert Holds(s.threads[t], s.threads[t].pc.peer);
  }

  /** Every key is the descriptor of its own peer, which is open, and the insert never overwrites. */
  lemma RegistryKeysAreOwn(trace: seq<State>, acts: seq<Action>, i: nat)
    requires Run(trace, acts) && i < |trace|
    ensures var s := trace[i];
            && (forall f :: f in s.registry ==> Alive(s, s.registry[f]) && s.fdOf[s.registry[f]] == f)
            && (CanInsert(s) ==> s.fdOf[s.threads[LOOP].pc.peer] !in s.registry)
  {
    RunKeeps(trace, acts, i);
    var s := trace[i];
    if CanInsert(s) {
      LoopIsBusy(s);
      InsertIsFresh(s);
    }
  }

  // ---------------------------------------------------------------------------------------
  // The life of a peer
  // ---------------------------------------------------------------------------------------

  ghost predicate Removing(s: State, p: Peer) {
    exists t :: t in s.threads && s.threads[t].pc == Erasing(p)
  }

  datatype Fate = Registered | BeingRemoved | Disconnected | Dropped

  /** What a registered peer is going through, read off the program and the history. */
  ghost predicate HasFate(s: State, p: Peer, fate: Fate) {
    match fate
    case Registered => InRegistry(s, p) && !Removing(s, p)
    case BeingRemoved => InRegistry(s, p) && Removing(s, p)
    case Disconnected => p in s.disconnects
    case Dropped => p in s.dropped
  }

  /**
   * Every peer that was ever registered has exactly one fate, and its onDisconnect has run
   * exactly once if that fate is to be disconnected and not at all otherwise.
   */
  lemma OneFatePerPeer(trace: seq<State>, acts: seq<Action>, i: nat, p: Peer)
    requires Run(trace, acts) && i < |trace| && p in trace[i].inserted
    ensures exists fate :: HasFate(trace[i], p, fate)
    ensures forall x, y :: HasFate(trace[i], p, x) && HasFate(trace[i], p, y) ==> x == y
    ensures trace[i].disconnects[p] == if HasFate(trace[i], p, Disconnected) then 1 else 0
  {
    RunKeeps(trace, acts, i);
    FateInState(trace[i], p);
  }

  lemma FateInState(s: State, p: Peer)
    requires Fates(s) && p in s.inserted
    ensures exists fate :: HasFate(s, p, fate)
    ensures forall x, y :: HasFate(s, p, x) && HasFate(s, p, y) ==> x == y
    ensures s.disconnects[p] == if HasFate(s, p, Disconnected) then 1 else 0
  {
    if InRegistry(s, p) {
      assert HasFate(s, p, if Removing(s, p) then BeingRemoved else Registered);
    } else {
      assert HasFate(s, p, if p in s.disconnects then Disconnected else Dropped);
    }
  }

  /** Being removed means that EPOLL_CTL_DEL has succeeded for the peer, and for no other thread. */
  lemma OneRemoverPerPeer(trace: seq<State>, acts: seq<Action>, i: nat, t: Tid, u: Tid, p: Peer)
    requires Run(trace, acts) && i < |trace| && t in trace[i].threads && u in trace[i].threads
    requires trace[i].threads[t].pc == Erasing(p) && trace[i].threads[u].pc == Erasing(p)
    ensures t == u && p in trace[i].deleted
  {
    RunKeeps(trace, acts, i);
  }

  /**
   * A descriptor is closed at most once, exactly when nothing refers to its peer any more. That
   * it is not closed during a callback on its peer is what the shared pointers of the model
   * are there for: a step closes precisely what has lost its last reference. That it is closed
   * once, and never leaked, is proved.
   */
  lemma ClosedOnceAndLate(trace: seq<State>, acts: seq<Action>, i: nat, p: Peer)
    requires Run(trace, acts) && i < |trace| && p in trace[i].fdOf
    ensures trace[i].closed[p] == if Referenced(trace[i], p) then 0 else 1
    ensures Alive(trace[i], p) <==> Referenced(trace[i], p)
    ensures forall t :: t in trace[i].threads && InCall(trace[i].threads[t], p) ==> trace[i].closed[p] == 0
  {
    RunKeeps(trace, acts, i);
    var s := trace[i];
    if Alive(s, p) { assert Referenced(s, s.open[s.fdOf[p]]); }
    if Referenced(s, p) { ReferencedIsAlive(s, p); }
    forall t | t in s.threads && InCall(s.threads[t], p) ensures Referenced(s, p) {
      assert Holds(s.threads[t], p);
    }
  }

  // ---------------------------------------------------------------------------------------
  // What one step changes
  // ---------------------------------------------------------------------------------------

  ghost predicate TakesFuture(a: Action) {
    a.StartGetsFuture? || a.StopGetsFuture?
  }

  ghost predicate Over(c: Control) {
    c.StartFailed? || c.Stopped?
  }

  ghost predicate GrowsInterest(a: Action) {
    a == InitEpoll(true) || a == AddToEpoll(true)
  }

  /** The slow part of the state: who listens, how full epoll has been, how far start and stop got. */
  ghost predicate Evolves(s: State, a: Action, s': State) {
    && s'.listener == s.listener
    && (s.listener in s'.interest ==> s.listener in s.interest || a == InitEpoll(true))
    && s.peak <= s'.peak && (s'.peak == s.peak || s'.peak == |s'.interest|)
    && (Over(s.control) ==> s'.control == s.control && !TakesFuture(a))
    && (TakesFuture(a) ==> Over(s'.control))
  }

  lemma LoopEvolves(s: State, a: Action)
    requires Enabled(s, a) && LoopMove(a)
    ensures Evolves(s, a, Raw(s, a)) && Raw(s, a).peak == s.peak
  {
  }

  lemma ControlEvolves(s: State, a: Action)
    requires Enabled(s, a) && ControlMove(a)
    ensures Evolves(s, a, Raw(s, a)) && Raw(s, a).peak == s.peak
  {
  }

  lemma PointerEvolves(s: State, a: Action)
    requires Enabled(s, a) && (a.Share? || a.Forget?)
    ensures Evolves(s, a, Raw(s, a)) && Raw(s, a).peak == s.peak
  {
  }

  lemma CallbackEvolves(s: State, a: Action)
    requires Enabled(s, a) && (a.Lookup? || a.Return?)
    ensures Evolves(s, a, Raw(s, a)) && Raw(s, a).peak == s.peak
  {
  }

  lemma NewPeerEvolves(s: State, a: Action)
    requires Enabled(s, a) && (a.Accept? || a.Insert?)
    ensures Evolves(s, a, Raw(s, a)) && Raw(s, a).peak == s.peak
  {
  }

  lemma RemovalEvolves(s: State, a: Action)
    requires Enabled(s, a) && (a.ReadFails? || a.EpollDelete? || a.Erase? || a.Clear?)
    ensures Evolves(s, a, Raw(s, a)) && Raw(s, a).peak == s.peak
  {
  }

  lemma GrowthEvolves(s: State, a: Action)
    requires Kernel(s) && Enabled(s, a) && (a.InitEpoll? || a.AddToEpoll?)
    ensures Evolves(s, a, Raw(s, a)) && (!GrowsInterest(a) ==> Raw(s, a).peak == s.peak)
  {
    if a.AddToEpoll? {
      assert Holds(s.threads[LOOP], s.threads[LOOP].pc.peer) && Alive(s, s.threads[LOOP].pc.peer);
    }
  }

  lemma RawEvolves(s: State, a: Action)
    requires Kernel(s) && Enabled(s, a)
    ensures Evolves(s, a, Raw(s, a)) && (!GrowsInterest(a) ==> Raw(s, a).peak == s.peak)
  {
    if LoopMove(a) { LoopEvolves(s, a); }
    else if ControlMove(a) { ControlEvolves(s, a); }
    else if a.InitEpoll? || a.AddToEpoll? { GrowthEvolves(s, a); }
    else if a.ReadFails? || a.EpollDelete? || a.Erase? || a.Clear? { RemovalEvolves(s, a); }
    else if a.Accept? || a.Insert? { NewPeerEvolves(s, a); }
    else if a.Share? || a.Forget? { PointerEvolves(s, a); }
    else { CallbackEvolves(s, a); }
  }

  lemma ReapEvolves(s: State, a: Action, r: State)
    requires Evolves(s, a, r) && (r.peak == s.peak || Reap(r).interest == r.interest)
    ensures Evolves(s, a, Reap(r))
  {
  }

  /** Registering a descriptor releases no reference. */
  lemma NothingDies(s: State, r: State)
    requires NoLeak(s) && r.open == s.open && r.registry == s.registry && r.userRefs == s.userRefs
    requires forall t, p :: t in s.threads && Holds(s.threads[t], p) ==> t in r.threads && Holds(r.threads[t], p)
    ensures Reap(r).interest == r.interest
  {
    forall f | f in r.open ensures Referenced(r, r.open[f]) {
      assert Referenced(s, s.open[f]);
    }
  }

  lemma GrowthKeepsAll(s: State, a: Action)
    requires NoLeak(s) && Enabled(s, a) && GrowsInterest(a)
    ensures Reap(Raw(s, a)).interest == Raw(s, a).interest
  {
    NothingDies(s, Raw(s, a));
  }

  lemma StepEvolves(s: State, a: Action)
    requires Inv(s) && Enabled(s, a)
    ensures Evolves(s, a, Apply(s, a))
  {
    RawEvolves(s, a);
    if GrowsInterest(a) { GrowthKeepsAll(s, a); }
    ReapEvolves(s, a, Raw(s, a));
  }

  lemma RunEvolves(trace: seq<State>, acts: seq<Action>, i: nat)
    requires Run(trace, acts) && i < |acts|
    ensures Evolves(trace[i], acts[i], trace[i + 1])
  {
    RunKeeps(trace, acts, i);
    assert StepAt(trace, acts, i);
    StepEvolves(trace[i], acts[i]);
  }

  // ---------------------------------------------------------------------------------------
  // Start and stop
  // ---------------------------------------------------------------------------------------

  /** start reports success only if epoll was set up, and failure only if the loop has failed. */
  lemma StartMeansReady(trace: seq<State>, acts: seq<Action>, i: nat)
    requires Run(trace, acts) && i < |trace| && trace[i].control != Starting
    ensures trace[i].control.StartFailed? ==> trace[i].control == StartFailed(false) && trace[i].loop == Finished(false)
    ensures !trace[i].control.StartFailed? ==> InitEpoll(true) in acts[..i]
  {
    RunKeeps(trace, acts, i);
    EpollWasSetUp(trace, acts, i);
  }

  lemma {:induction false} EpollWasSetUp(trace: seq<State>, acts: seq<Action>, i: nat)
    requires Run(trace, acts) && i < |trace|
    ensures trace[i].listener in trace[i].interest ==> InitEpoll(true) in acts[..i]
  {
    if i > 0 {
      EpollWasSetUp(trace, acts, i - 1);
      RunEvolves(trace, acts, i - 1);
      assert acts[..i] == acts[..i - 1] + [acts[i - 1]];
    }
  }

  /**
   * Once stop has lowered the flag it stays down, the loop calls epoll_wait at most once more,
   * and it ends either with a failure or with an empty registry.
   */
  lemma StopIsNotLost(trace: seq<State>, acts: seq<Action>, i: nat)
    requires Run(trace, acts) && i < |trace|
    ensures var s := trace[i];
            && (s.control.Stopping? || s.control.Stopped? ==> !s.flag)
            && s.waitsAfterStop <= 1
            && (s.loop == Finished(true) ==> s.registry == map[] && (s.control.Stopping? || s.control.Stopped?))
            && (s.control.Stopped? ==> s.loop == Finished(s.control.ok))
  {
    RunKeeps(trace, acts, i);
  }

  ghost predicate HeldByThread(s: State, p: Peer) {
    exists t :: t in s.threads && Holds(s.threads[t], p)
  }

  /**
   * Once the loop has ended through the flag, the descriptors still open are those of the peers
   * that user code or a running callback holds on to; when these let go, every descriptor that
   * was ever accepted has been closed.
   */
  lemma NothingIsLeaked(trace: seq<State>, acts: seq<Action>, i: nat)
    requires Run(trace, acts) && i < |trace| && trace[i].loop == Finished(true)
    ensures var s := trace[i];
            && (forall p :: p in s.fdOf ==> (Alive(s, p) <==> p in s.userRefs || HeldByThread(s, p)))
            && (forall f :: f in s.open ==> s.open[f] in s.userRefs || HeldByThread(s, s.open[f]))
    ensures var s := trace[i];
            (forall p :: p !in s.userRefs && !HeldByThread(s, p)) ==>
              s.open == map[] && forall p :: p in s.fdOf ==> s.closed[p] == 1
  {
    RunKeeps(trace, acts, i);
    var s := trace[i];
    forall p | p in s.fdOf ensures Alive(s, p) <==> p in s.userRefs || HeldByThread(s, p) {
      ClosedOnceAndLate(trace, acts, i, p);
    }
    forall p | p in s.fdOf ensures s.closed[p] == if Alive(s, p) then 0 else 1 {
      ClosedOnceAndLate(trace, acts, i, p);
    }
  }

  /** The future of the loop thread is consumed at most once in a run. */
  lemma {:induction false} FutureTakenOnce(trace: seq<State>, acts: seq<Action>, i: nat, j: nat)
    requires Run(trace, acts) && i < j < |acts| && TakesFuture(acts[i])
    ensures !TakesFuture(acts[j]) && Over(trace[j].control)
    decreases j - i
  {
    RunEvolves(trace, acts, i);
    RunEvolves(trace, acts, j);
    if i + 1 < j {
      FutureTakenOnce(trace, acts, i, j - 1);
      RunEvolves(trace, acts, j - 1);
    }
  }

  // ---------------------------------------------------------------------------------------
  // The event buffer
  // ---------------------------------------------------------------------------------------

  /** The buffer has the initial size times a power of two, and never outgrows twice the busiest moment. */
  lemma BufferIsBounded(trace: seq<State>, acts: seq<Action>, i: nat)
    requires Run(trace, acts) && i < |trace|
    ensures var s := trace[i];
            && (exists k: nat :: s.bufSize == s.listenMax * Pow2(k))
            && s.bufSize <= Max(s.listenMax, 2 * s.peak)
            && (forall j :: 0 <= j <= i ==> |trace[j].interest| <= s.peak)
            && (exists j :: 0 <= j <= i && PeakAt(trace, j, s.peak))
  {
    RunKeeps(trace, acts, i);
    forall j | 0 <= j <= i ensures |trace[j].interest| <= trace[i].peak {
      RunKeeps(trace, acts, j);
      PeakGrows(trace, acts, j, i);
    }
    PeakIsReached(trace, acts, i);
  }

  lemma {:induction false} PeakGrows(trace: seq<State>, acts: seq<Action>, j: nat, i: nat)
    requires Run(trace, acts) && j <= i < |trace|
    ensures trace[j].peak <= trace[i].peak
    decreases i - j
  {
    if j < i {
      RunEvolves(trace, acts, i - 1);
      PeakGrows(trace, acts, j, i - 1);
    }
  }

  ghost predicate PeakAt(trace: seq<State>, j: nat, peak: nat) {
    j < |trace| && |trace[j].interest| == peak
  }

  /** The peak is the size of the interest set at some moment so far. */
  lemma {:induction false} PeakIsReached(trace: seq<State>, acts: seq<Action>, i: nat)
    requires Run(trace, acts) && i < |trace|
    ensures exists j :: 0 <= j <= i && PeakAt(trace, j, trace[i].peak)
  {
    if i == 0 {
      assert PeakAt(trace, 0, trace[0].peak);
    } else {
      PeakIsReached(trace, acts, i - 1);
      var j :| 0 <= j <= i - 1 && PeakAt(trace, j, trace[i - 1].peak);
      RunEvolves(trace, acts, i - 1);
      assert PeakAt(trace, if trace[i].peak == trace[i - 1].peak then j else i, trace[i].peak);
    }
  }
}
