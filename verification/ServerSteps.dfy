/** Every step of the server keeps its invariant, part by part. */
module ServerSteps {
  import opened ServerModel
  import opened ServerInvariant

  // ---------------------------------------------------------------------------------------
  // What a step does not touch
  // ---------------------------------------------------------------------------------------

  ghost predicate SameKernel(s: State, s': State) {
    && s'.listener == s.listener && s'.open == s.open && s'.interest == s.interest && s'.fdOf == s.fdOf
    && s'.registry == s.registry && s'.userRefs == s.userRefs && s'.threads == s.threads
  }

  ghost predicate SameFates(s: State, s': State) {
    && s'.inserted == s.inserted && s'.disconnects == s.disconnects
    && s'.dropped == s.dropped && s'.closed == s.closed
  }

  ghost predicate SameHistory(s: State, s': State) {
    SameFates(s, s') && s'.deleted == s.deleted
  }

  lemma KernelFrame(s: State, s': State)
    requires Kernel(s) && SameKernel(s, s')
    ensures Kernel(s')
  {
    forall p ensures Alive(s', p) <==> Alive(s, p) {}
  }

  lemma AgreementFrame(s: State, s': State)
    requires Agreement(s) && SameKernel(s, s') && SameHistory(s, s') && !Cleared(s) && !Cleared(s')
    ensures Agreement(s')
  {
    forall f ensures PolledFd(s', f) <==> PolledFd(s, f) {}
    forall f ensures ErasingFd(s', f) <==> ErasingFd(s, f) {}
    forall p ensures Alive(s', p) <==> Alive(s, p) {}
  }

  lemma FatesFrame(s: State, s': State)
    requires Fates(s) && s'.open == s.open && s'.fdOf == s.fdOf && s'.registry == s.registry && SameFates(s, s')
    requires Cleared(s) <==> Cleared(s')
    ensures Fates(s')
  {
    forall p ensures Alive(s', p) <==> Alive(s, p) {}
    forall p ensures InRegistry(s', p) <==> InRegistry(s, p) {}
  }

  lemma ThreadsFrame(s: State, s': State)
    requires Threads(s) && SameKernel(s, s') && SameHistory(s, s')
    requires s'.loop.Dispatching? ==> s'.loop.next <= |s'.loop.events|
    requires !Busy(s') ==> LoopIdle(s)
    ensures Threads(s')
  {
  }

  /** A step that only moves the loop, the flag, the control thread or the counters. */
  lemma QuietStep(s: State, s': State)
    requires Kernel(s) && Threads(s) && Agreement(s) && Fates(s)
    requires SameKernel(s, s') && SameHistory(s, s') && (Cleared(s) <==> Cleared(s'))
    requires Cleared(s) ==> s'.loop == s.loop
    requires s'.loop.Dispatching? ==> s'.loop.next <= |s'.loop.events|
    requires !Busy(s') ==> LoopIdle(s)
    ensures Kernel(s') && Threads(s') && Agreement(s') && Fates(s')
  {
    KernelFrame(s, s');
    ThreadsFrame(s, s');
    FatesFrame(s, s');
    if Cleared(s) { AgreementAfterClear(s, s'); } else { AgreementFrame(s, s'); }
  }

  lemma AgreementAfterClear(s: State, s': State)
    requires Agreement(s) && SameKernel(s, s') && SameHistory(s, s') && Cleared(s) && Cleared(s')
    ensures Agreement(s')
  {
    forall f ensures PolledFd(s', f) <==> PolledFd(s, f) {}
    forall p ensures Alive(s', p) <==> Alive(s, p) {}
  }

  // ---------------------------------------------------------------------------------------
  // The loop and the control thread
  // ---------------------------------------------------------------------------------------

  ghost predicate LoopMove(a: Action) {
    a.RaiseFlag? || a.TestFlag? || a.EpollWait? || a.EndBatch? || a.AcceptFails? || a.SkipEvent?
  }

  ghost predicate ControlMove(a: Action) {
    a.StartSucceeds? || a.StartGetsFuture? || a.Stop? || a.StopGetsFuture?
  }

  ghost predicate Quiet(a: Action) {
    LoopMove(a) || ControlMove(a)
  }

  lemma ControlOnly(s: State, a: Action)
    requires Enabled(s, a) && ControlMove(a)
    ensures var s' := Raw(s, a); s' == s.(flag := s'.flag, control := s'.control)
  {
  }

  lemma SessionLoop(s: State, a: Action)
    requires Session(s) && Enabled(s, a) && LoopMove(a)
    ensures Session(Raw(s, a))
  {
  }

  lemma SessionControl(s: State, a: Action)
    requires Session(s) && Enabled(s, a) && ControlMove(a)
    ensures Session(Raw(s, a))
  {
  }

  lemma SessionFrame(s: State, s': State)
    requires Session(s) && s'.control == s.control && s'.flag == s.flag && s'.waitsAfterStop == s.waitsAfterStop
    requires s'.listener == s.listener && (s.listener in s.interest ==> s'.listener in s'.interest)
    requires s'.loop == s.loop || (s.loop.Dispatching? && (s'.loop.Dispatching? || s'.loop == Finished(false)))
    ensures Session(s')
  {
  }

  lemma BatchStep(s: State, a: Action)
    requires Batch(s) && Enabled(s, a) && LoopMove(a) && !a.EpollWait?
    ensures Batch(Raw(s, a))
  {
  }

  lemma BatchFrame(s: State, s': State)
    requires Batch(s) && s'.listener == s.listener && s.inserted <= s'.inserted
    requires forall p :: p in s.fdOf ==> p in s'.fdOf && s'.fdOf[p] == s.fdOf[p]
    requires s'.loop.Dispatching? ==>
               s.loop.Dispatching? && s'.loop.events == s.loop.events && s'.loop.next <= |s.loop.events|
    ensures Batch(s')
  {
  }

  /** While the loop is between events, what epoll_wait can report is registered. */
  lemma ReportedIsRegistered(s: State, f: Fd)
    requires Kernel(s) && Agreement(s) && LoopIdle(s) && !Cleared(s) && f in s.interest && f != s.listener
    ensures f in s.registry && f in s.open && s.registry[f] == s.open[f] && s.fdOf[s.open[f]] == f
  {
    assert !PolledFd(s, f);
  }

  lemma EpollWaitBatch(s: State, failed: bool, ready: seq<Event>)
    requires Kernel(s) && Agreement(s) && Threads(s) && s.loop == Polling && (!failed ==> PossibleBatch(s, ready))
    ensures Batch(DoEpollWait(s, failed, ready))
  {
    if !failed {
      forall j | 0 <= j < |ready| && ready[j].fd != s.listener
        ensures ready[j].owner in s.inserted && s.fdOf[ready[j].owner] == ready[j].fd
      {
        ReportedIsRegistered(s, ready[j].fd);
        assert s.registry[ready[j].fd] in s.inserted;
      }
    }
  }

  lemma {:induction false} DistinctFds(ready: seq<Event>)
    requires forall i, j :: 0 <= i < j < |ready| ==> ready[i].fd != ready[j].fd
    ensures |set i | 0 <= i < |ready| :: ready[i].fd| == |ready|
    decreases |ready|
  {
    if ready != [] {
      var init := ready[..|ready| - 1];
      DistinctFds(init);
      var all := set i | 0 <= i < |ready| :: ready[i].fd;
      var some := set i | 0 <= i < |init| :: init[i].fd;
      assert all == some + {ready[|ready| - 1].fd};
    }
  }

  lemma BatchSize(s: State, ready: seq<Event>)
    requires PossibleBatch(s, ready)
    ensures |ready| <= |s.interest|
  {
    DistinctFds(ready);
    SubsetSmaller(set i | 0 <= i < |ready| :: ready[i].fd, s.interest);
  }

  lemma EpollWaitBuffer(s: State, failed: bool, ready: seq<Event>)
    requires Buffer(s) && s.loop == Polling && (!failed ==> PossibleBatch(s, ready))
    ensures Buffer(DoEpollWait(s, failed, ready))
  {
    if !failed {
      BatchSize(s, ready);
      var k: nat :| s.bufSize == s.listenMax * Pow2(k);
      assert s.bufSize * 2 == s.listenMax * Pow2(k + 1) by { DoubledBuffer(s.listenMax, k); }
    }
  }

  lemma DoubledBuffer(m: nat, k: nat)
    ensures m * Pow2(k) * 2 == m * Pow2(k + 1)
  {
  }

  lemma BufferFrame(s: State, s': State)
    requires Buffer(s) && s'.listenMax == s.listenMax && s'.bufSize == s.bufSize && s'.peak == s.peak
    requires s'.interest <= s.interest
    ensures Buffer(s')
  {
    SubsetSmaller(s'.interest, s.interest);
  }

  lemma InterestGrows(s: State, f: Fd)
    requires Buffer(s)
    ensures Buffer(AddInterest(s, f))
  {
  }

  /** A loop move starts between two events and stays clear of everything the other threads share. */
  ghost predicate Fits(s: State, s': State) {
    && SameKernel(s, s') && SameHistory(s, s') && !Cleared(s) && !Cleared(s')
    && (s'.loop.Dispatching? ==> s'.loop.next <= |s'.loop.events|) && LoopIdle(s)
  }

  lemma EpollWaitFits(s: State, failed: bool, ready: seq<Event>)
    requires !Busy(s) ==> LoopIdle(s)
    requires s.loop == Polling
    ensures Fits(s, DoEpollWait(s, failed, ready))
  {
  }

  lemma LoopFits(s: State, a: Action)
    requires !Busy(s) ==> LoopIdle(s)
    requires s.loop.Dispatching? ==> s.loop.next <= |s.loop.events|
    requires Enabled(s, a) && LoopMove(a) && !a.EpollWait?
    ensures Fits(s, Raw(s, a))
  {
  }

  lemma LoopMoveKeeps(s: State, a: Action)
    requires Core(s) && Enabled(s, a) && LoopMove(a)
    ensures Core(Raw(s, a))
  {
    var s' := Raw(s, a);
    SessionLoop(s, a);
    if a.EpollWait? { EpollWaitFits(s, a.failed, a.ready); } else { LoopFits(s, a); }
    QuietStep(s, s');
    if a.EpollWait? {
      EpollWaitBatch(s, a.failed, a.ready);
      EpollWaitBuffer(s, a.failed, a.ready);
    } else {
      BatchStep(s, a);
      BufferFrame(s, s');
    }
  }

  lemma ControlMoveKeeps(s: State, a: Action)
    requires Core(s) && Enabled(s, a) && ControlMove(a)
    ensures Core(Raw(s, a))
  {
    SessionControl(s, a);
    ControlOnly(s, a);
    ControlKeeps(s, Raw(s, a));
  }

  lemma ControlKeeps(s: State, s': State)
    requires Core(s) && s' == s.(flag := s'.flag, control := s'.control) && Session(s')
    ensures Core(s')
  {
    QuietStep(s, s');
    BatchFrame(s, s');
    BufferFrame(s, s');
  }
}
