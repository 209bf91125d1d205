/**
 * The inductive invariant of the server, in parts, and its preservation by every step.
 */
module ServerInvariant {
  import opened ServerModel

  /** The descriptor of `p` is open and is `p`'s own. */
  ghost predicate Alive(s: State, p: Peer) {
    p in s.fdOf && s.fdOf[p] in s.open && s.open[s.fdOf[p]] == p
  }

  /** The kernel's tables, and no shared pointer to a peer that is gone. */
  ghost predicate Kernel(s: State) {
    && s.listener !in s.open
    && (forall f :: f in s.interest && f != s.listener ==> f in s.open)
    && (forall f :: f in s.open ==> s.open[f] in s.fdOf && s.fdOf[s.open[f]] == f)
    && (forall p :: p in s.userRefs ==> Alive(s, p))
    && (forall f :: f in s.registry ==> Alive(s, s.registry[f]) && s.fdOf[s.registry[f]] == f)
    && (forall t, p :: t in s.threads && Holds(s.threads[t], p) ==> Alive(s, p))
  }

  /** The loop is in the middle of a batch. */
  ghost predicate Busy(s: State) {
    s.loop.Dispatching? && s.loop.next < |s.loop.events|
  }

  /** Which thread may be where, and which peers user code can know about. */
  ghost predicate Threads(s: State) {
    && LOOP in s.threads
    && (s.loop.Dispatching? ==> s.loop.next <= |s.loop.events|)
    && (!Busy(s) ==> LoopIdle(s))
    && (forall t :: t in s.threads && (s.threads[t].pc.Accepted? || s.threads[t].pc.Polled?) ==>
          t == LOOP && s.threads[t].calls == [] && s.threads[t].pc.peer !in s.inserted)
    && (forall t, p :: t in s.threads && InCall(s.threads[t], p) ==> p in s.inserted)
    && (forall t :: t in s.threads && (s.threads[t].pc.Deleting? || s.threads[t].pc.Erasing?) ==>
          s.threads[t].pc.peer in s.inserted)
    && s.userRefs <= s.inserted
    && (forall f :: f in s.registry ==> s.registry[f] in s.inserted)
    && s.inserted <= s.fdOf.Keys && s.deleted <= s.inserted && s.dropped <= s.inserted
    && (forall p :: p in s.disconnects ==> p in s.inserted)
  }

  ghost predicate ErasingFd(s: State, f: Fd) {
    exists t :: t in s.threads && s.threads[t].pc.Erasing?
                && s.threads[t].pc.peer in s.fdOf && s.fdOf[s.threads[t].pc.peer] == f
  }

  ghost predicate PolledFd(s: State, f: Fd) {
    LOOP in s.threads && s.threads[LOOP].pc.Polled?
    && s.threads[LOOP].pc.peer in s.fdOf && s.fdOf[s.threads[LOOP].pc.peer] == f
  }

  ghost predicate Cleared(s: State) {
    s.loop == Finished(true)
  }

  /** Interest set and registry agree, up to the additions and removals in progress. */
  ghost predicate Agreement(s: State) {
    KeysAgree(s) && Additions(s) && Removals(s)
  }

  ghost predicate KeysAgree(s: State) {
    if Cleared(s) then s.registry == map[]
    else forall f :: f in s.registry <==>
           (f in s.interest && f != s.listener && !PolledFd(s, f)) || ErasingFd(s, f)
  }

  ghost predicate Additions(s: State) {
    && !PolledFd(s, s.listener)
    && (forall f :: PolledFd(s, f) ==> f in s.interest)
    && (forall t :: t in s.threads && s.threads[t].pc.Accepted? && s.threads[t].pc.peer in s.fdOf ==>
          s.fdOf[s.threads[t].pc.peer] !in s.interest)
  }

  ghost predicate Removals(s: State) {
    && (forall t :: t in s.threads && s.threads[t].pc.Erasing? ==> s.threads[t].pc.peer in s.deleted)
    && (forall t, u :: t in s.threads && u in s.threads && t != u && s.threads[t].pc.Erasing? && s.threads[u].pc.Erasing?
          ==> s.threads[t].pc.peer != s.threads[u].pc.peer)
    && (forall p :: p in s.deleted && Alive(s, p) ==> s.fdOf[p] !in s.interest)
  }

  ghost predicate InRegistry(s: State, p: Peer) {
    p in s.fdOf && s.fdOf[p] in s.registry && s.registry[s.fdOf[p]] == p
  }

  /** What has become of each peer that was ever registered, and how often. */
  ghost predicate Fates(s: State) {
    && (forall p :: p in s.inserted ==> InRegistry(s, p) || p in s.disconnects || p in s.dropped)
    && (forall p :: p in s.disconnects ==> s.disconnects[p] == 1 && !InRegistry(s, p) && p !in s.dropped)
    && (forall p :: p in s.dropped ==> !InRegistry(s, p))
    && (!Cleared(s) ==> s.dropped == {})
    && (forall p :: p in s.closed ==> p in s.fdOf && s.closed[p] == 1 && !Alive(s, p))
    && (forall p :: p in s.fdOf && !Alive(s, p) ==> p in s.closed)
  }

  /** The batch in progress still names peers by their own descriptors. */
  ghost predicate Batch(s: State) {
    s.loop.Dispatching? ==>
      && (forall i, j :: 0 <= i < j < |s.loop.events| ==> s.loop.events[i].fd != s.loop.events[j].fd)
      && (forall j :: 0 <= j < |s.loop.events| && s.loop.events[j].fd != s.listener ==>
            s.loop.events[j].owner in s.inserted && s.loop.events[j].owner in s.fdOf
            && s.fdOf[s.loop.events[j].owner] == s.loop.events[j].fd)
  }

  /** Start, stop and the run flag. */
  ghost predicate Session(s: State) {
    && (s.loop == NotStarted || s.loop == EpollReady ==> !s.flag && s.control == Starting)
    && (s.loop != NotStarted && s.loop != Finished(false) ==> s.listener in s.interest)
    && (s.loop == Draining || s.loop == Finished(true) ==> !s.flag && (s.control.Stopping? || s.control.Stopped?))
    && (s.flag ==> s.listener in s.interest && !s.control.Stopping? && !s.control.Stopped?)
    && (s.control.Started? || s.control.Stopping? || s.control.Stopped? ==> s.listener in s.interest)
    && (s.control.Started? ==> s.flag)
    && (s.control.StartFailed? ==> s.loop == Finished(false) && !s.control.ok)
    && (s.control.Stopped? ==> s.loop == Finished(s.control.ok))
    && (!s.control.Stopping? && !s.control.Stopped? ==> s.waitsAfterStop == 0)
    && s.waitsAfterStop + (if s.loop == Polling then 1 else 0) <= 1
    && (s.control.Starting? && !s.flag ==> s.loop in {NotStarted, EpollReady, Finished(false)})
  }

  ghost function Pow2(k: nat): (r: nat) {
    if k == 0 then 1 else 2 * Pow2(k - 1)
  }

  /** The event buffer. */
  ghost predicate Buffer(s: State) {
    && s.listenMax > 0
    && (exists k: nat :: s.bufSize == s.listenMax * Pow2(k))
    && (s.bufSize == s.listenMax || s.bufSize <= 2 * s.peak)
    && |s.interest| <= s.peak
  }

  /** No descriptor outlives its last reference. */
  ghost predicate NoLeak(s: State) {
    forall f :: f in s.open ==> Referenced(s, s.open[f])
  }

  ghost predicate Core(s: State) {
    Kernel(s) && Threads(s) && Agreement(s) && Fates(s) && Batch(s) && Session(s) && Buffer(s)
  }

  ghost predicate Inv(s: State) {
    Core(s) && NoLeak(s)
  }

  lemma InitInv(s: State)
    requires Init(s)
    ensures Inv(s)
  {
    assert s.bufSize == s.listenMax * Pow2(0);
  }

  // ---------------------------------------------------------------------------------------
  // Destroying unreferenced peers
  // ---------------------------------------------------------------------------------------

  lemma ReapAlive(s: State, p: Peer)
    requires Kernel(s)
    ensures Alive(Reap(s), p) <==> Alive(s, p) && Referenced(s, p)
  {
  }

  lemma ReferencedIsAlive(s: State, p: Peer)
    requires Kernel(s) && Referenced(s, p)
    ensures Alive(s, p) && Alive(Reap(s), p)
  {
    ReapAlive(s, p);
  }

  lemma ReapKernel(s: State)
    requires Kernel(s)
    ensures Kernel(Reap(s)) && NoLeak(Reap(s))
  {
    var s' := Reap(s);
    forall p | p in s.userRefs ensures Alive(s', p) { ReferencedIsAlive(s, p); }
    forall f | f in s.registry ensures Alive(s', s.registry[f]) { ReferencedIsAlive(s, s.registry[f]); }
    forall t, p | t in s.threads && Holds(s.threads[t], p) ensures Alive(s', p) { ReferencedIsAlive(s, p); }
    forall f | f in s'.open ensures Referenced(s', s'.open[f]) {
      assert Referenced(s, s.open[f]);
    }
  }

  /** A descriptor that is closed this way is not among those registry and interest set share. */
  lemma ReapInterest(s: State, f: Fd)
    requires Kernel(s) && Agreement(s) && !Cleared(s) && f in s.interest && f != s.listener
    ensures f in Reap(s).interest
  {
    if PolledFd(s, f) {
      var p := s.threads[LOOP].pc.peer;
      assert Holds(s.threads[LOOP], p) && Alive(s, p);
      assert Referenced(s, s.open[f]);
    } else {
      assert f in s.registry;
      assert Referenced(s, s.open[f]);
    }
  }

  lemma ReapAgreement(s: State)
    requires Kernel(s) && Agreement(s)
    ensures Agreement(Reap(s))
  {
    var s' := Reap(s);
    forall f ensures PolledFd(s', f) <==> PolledFd(s, f) {}
    forall f ensures ErasingFd(s', f) <==> ErasingFd(s, f) {}
    if !Cleared(s) {
      forall f | f in s.interest && f != s.listener ensures f in s'.interest { ReapInterest(s, f); }
    }
    forall f | PolledFd(s, f) ensures f in s'.interest {
      var p := s.threads[LOOP].pc.peer;
      assert Holds(s.threads[LOOP], p) && Alive(s, p);
      assert Referenced(s, s.open[f]);
    }
    forall p | p in s.deleted && Alive(s', p) ensures s.fdOf[p] !in s'.interest { ReapAlive(s, p); }
  }

  lemma ReapFates(s: State)
    requires Kernel(s) && Fates(s)
    ensures Fates(Reap(s))
  {
    var s' := Reap(s);
    forall p ensures s'.closed[p] == s.closed[p] + if Alive(s, p) && !Alive(s', p) then 1 else 0 { ReapCloses(s, p); }
    forall p | Alive(s', p) ensures Alive(s, p) { ReapAlive(s, p); }
    forall p ensures InRegistry(s', p) <==> InRegistry(s, p) {}
  }

  lemma ReapCloses(s: State, p: Peer)
    requires Kernel(s)
    ensures Reap(s).closed[p] == s.closed[p] + if Alive(s, p) && !Alive(Reap(s), p) then 1 else 0
  {
    var dead := set f | f in s.open && !Referenced(s, s.open[f]);
    var dying := set f | f in dead :: s.open[f];
    assert Reap(s).closed == s.closed + multiset(dying);
    ReapAlive(s, p);
    if Alive(s, p) && !Referenced(s, p) { assert s.fdOf[p] in dead; }
  }

  lemma ReapRest(s: State)
    requires Kernel(s) && Threads(s) && Batch(s) && Session(s) && Buffer(s)
    ensures Threads(Reap(s)) && Batch(Reap(s)) && Session(Reap(s)) && Buffer(Reap(s))
  {
    var s' := Reap(s);
    assert s.listener in s.interest ==> s.listener in s'.interest;
    SubsetSmaller(s'.interest, s.interest);
  }

  lemma ReapKeeps(s: State)
    requires Core(s)
    ensures Inv(Reap(s))
  {
    ReapKernel(s);
    ReapAgreement(s);
    ReapFates(s);
    ReapRest(s);
  }

  lemma SubsetSmaller(a: set<Fd>, b: set<Fd>)
    requires a <= b
    ensures |a| <= |b|
  {
    assert b == a + (b - a);
  }
}
