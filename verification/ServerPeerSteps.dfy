/** The steps that create, register, look up, delete and release peers keep the invariant. */
module ServerPeerSteps {
  import opened ServerModel
  import opened ServerInvariant
  import opened ServerSteps

  // ---------------------------------------------------------------------------------------
  // Moving one thread
  // ---------------------------------------------------------------------------------------

  lemma KernelThread(s: State, t: Tid, th: Thread)
    requires Kernel(s) && t in s.threads && forall p :: Holds(th, p) ==> Alive(s, p)
    ensures Kernel(WithThread(s, t, th))
  {
    var s' := WithThread(s, t, th);
    forall p ensures Alive(s', p) <==> Alive(s, p) {}
    forall u, p | u in s'.threads && Holds(s'.threads[u], p) ensures Alive(s', p) {
      if u != t { assert Holds(s.threads[u], p); }
    }
  }

  ghost predicate Plain(pc: Pc) {
    pc.Running? || pc.Deleting?
  }

  lemma ErasingElsewhere(s: State, t: Tid, th: Thread, f: Fd)
    requires t in s.threads && !s.threads[t].pc.Erasing? && !th.pc.Erasing?
    ensures ErasingFd(WithThread(s, t, th), f) <==> ErasingFd(s, f)
  {
    var s' := WithThread(s, t, th);
    if ErasingFd(s, f) {
      var u :| u in s.threads && s.threads[u].pc.Erasing? && s.threads[u].pc.peer in s.fdOf && s.fdOf[s.threads[u].pc.peer] == f;
      assert s'.threads[u] == s.threads[u];
    }
    if ErasingFd(s', f) {
      var u :| u in s'.threads && s'.threads[u].pc.Erasing? && s'.threads[u].pc.peer in s'.fdOf && s'.fdOf[s'.threads[u].pc.peer] == f;
      assert s'.threads[u] == s.threads[u];
    }
  }

  lemma AgreementThread(s: State, t: Tid, th: Thread)
    requires Agreement(s) && t in s.threads && Plain(s.threads[t].pc) && Plain(th.pc)
    ensures Agreement(WithThread(s, t, th))
  {
    var s' := WithThread(s, t, th);
    forall f ensures ErasingFd(s', f) <==> ErasingFd(s, f) { ErasingElsewhere(s, t, th, f); }
    forall f ensures PolledFd(s', f) <==> PolledFd(s, f) {}
    forall p ensures Alive(s', p) <==> Alive(s, p) {}
    forall u | u in s'.threads && !Plain(s'.threads[u].pc) ensures s'.threads[u] == s.threads[u] {}
  }

  lemma ThreadsThread(s: State, t: Tid, th: Thread)
    requires Threads(s) && t in s.threads && !th.pc.Accepted? && !th.pc.Polled?
    requires th.pc.Deleting? || th.pc.Erasing? ==> th.pc.peer in s.inserted
    requires forall p :: InCall(th, p) ==> p in s.inserted
    requires t == LOOP ==> th == Thread([], Running) || Busy(s)
    ensures Threads(WithThread(s, t, th))
  {
    var s' := WithThread(s, t, th);
    forall u, p | u in s'.threads && InCall(s'.threads[u], p) ensures p in s.inserted {
      if u != t { assert InCall(s.threads[u], p); }
    }
  }

  /** A step that moves one thread between points at which it neither adds nor erases. */
  lemma PlainMove(s: State, t: Tid, th: Thread)
    requires Core(s) && t in s.threads && Plain(s.threads[t].pc) && Plain(th.pc)
    requires forall p :: Holds(th, p) ==> Alive(s, p) && p in s.inserted
    requires t == LOOP ==> th == Thread([], Running) || Busy(s)
    ensures Core(WithThread(s, t, th))
  {
    var s' := WithThread(s, t, th);
    KernelThread(s, t, th);
    AgreementThread(s, t, th);
    forall p | InCall(th, p) ensures p in s.inserted { assert Holds(th, p); }
    assert th.pc.Deleting? ==> Holds(th, th.pc.peer);
    ThreadsThread(s, t, th);
    FatesFrame(s, s');
    BatchFrame(s, s');
    SessionFrame(s, s');
    BufferFrame(s, s');
  }

  lemma LookupKeeps(s: State)
    requires Core(s) && CanLookup(s)
    ensures Core(DoLookup(s))
  {
    var f := CurrentEvent(s).fd;
    if f in s.registry {
      var th := Thread([OnRecvData(s.registry[f])], Running);
      forall p | Holds(th, p) ensures Alive(s, p) && p in s.inserted { assert p == s.registry[f]; }
      PlainMove(s, LOOP, th);
    } else {
      LoopStops(s);
    }
  }

  /** The loop leaves with a failure. */
  lemma LoopStops(s: State)
    requires Core(s) && s.loop.Dispatching? && LoopIdle(s)
    ensures Core(s.(loop := Finished(false)))
  {
    var s' := s.(loop := Finished(false));
    QuietStep(s, s');
    BatchFrame(s, s');
    SessionFrame(s, s');
    BufferFrame(s, s');
  }

  lemma ReadFailsKeeps(s: State, t: Tid, p: Peer)
    requires Core(s) && CanRead(s, t, p)
    ensures Core(WithThread(s, t, s.threads[t].(pc := Deleting(p))))
  {
    var was, th := s.threads[t], s.threads[t].(pc := Deleting(p));
    forall q | Holds(th, q) ensures Alive(s, q) && q in s.inserted {
      assert InCall(th, q) <==> InCall(was, q);
      if q !in s.userRefs { assert Holds(was, q); }
    }
    assert t == LOOP ==> !LoopIdle(s);
    PlainMove(s, t, th);
  }

  lemma ReturnKeeps(s: State, t: Tid)
    requires Core(s) && CanReturn(s, t)
    ensures Core(DoReturn(s, t))
  {
    var calls := s.threads[t].calls;
    PopKeeps(s, t);
    if t == LOOP && |calls| == 1 {
      assert !LoopIdle(s);
      NextEventKeeps(WithThread(s, t, Popped(s.threads[t])));
    }
  }

  ghost function Popped(th: Thread): (r: Thread)
    requires th.calls != []
  {
    Thread(th.calls[..|th.calls| - 1], Running)
  }

  lemma PopKeeps(s: State, t: Tid)
    requires Core(s) && CanReturn(s, t)
    ensures Core(WithThread(s, t, Popped(s.threads[t])))
  {
    var th := Popped(s.threads[t]);
    forall q | Holds(th, q) ensures Alive(s, q) && q in s.inserted {
      assert InCall(s.threads[t], q) && Holds(s.threads[t], q);
    }
    assert t == LOOP ==> !LoopIdle(s);
    PlainMove(s, t, th);
  }

  lemma NextEventKeeps(s: State)
    requires Core(s) && AtEvent(s)
    ensures Core(NextEvent(s))
  {
    var s' := NextEvent(s);
    QuietStep(s, s');
    BatchFrame(s, s');
    SessionFrame(s, s');
    BufferFrame(s, s');
  }

  // ---------------------------------------------------------------------------------------
  // User code keeps or gives up a pointer
  // ---------------------------------------------------------------------------------------

  lemma ShareKeeps(s: State, p: Peer)
    requires Core(s) && CanShare(s, p)
    ensures Core(s.(userRefs := s.userRefs + {p}))
  {
    assert InCall(s.threads[LOOP], p) && Holds(s.threads[LOOP], p);
    UserRefsChange(s, s.userRefs + {p});
  }

  lemma ForgetKeeps(s: State, p: Peer)
    requires Core(s) && p in s.userRefs
    ensures Core(s.(userRefs := s.userRefs - {p}))
  {
    UserRefsChange(s, s.userRefs - {p});
  }

  lemma UserRefsChange(s: State, refs: set<Peer>)
    requires Core(s) && refs <= s.inserted && forall p :: p in refs ==> Alive(s, p)
    ensures Core(s.(userRefs := refs))
  {
    var s' := s.(userRefs := refs);
    UserRefsKernel(s, refs);
    UserRefsAgreement(s, refs);
    FatesFrame(s, s');
    BatchFrame(s, s');
    SessionFrame(s, s');
    BufferFrame(s, s');
  }

  lemma UserRefsKernel(s: State, refs: set<Peer>)
    requires Kernel(s) && forall p :: p in refs ==> Alive(s, p)
    ensures Kernel(s.(userRefs := refs))
  {
    forall p ensures Alive(s.(userRefs := refs), p) <==> Alive(s, p) {}
  }

  lemma UserRefsAgreement(s: State, refs: set<Peer>)
    requires Agreement(s)
    ensures Agreement(s.(userRefs := refs))
  {
    var s' := s.(userRefs := refs);
    forall f ensures PolledFd(s', f) <==> PolledFd(s, f) {}
    forall f ensures ErasingFd(s', f) <==> ErasingFd(s, f) {}
    forall p ensures Alive(s', p) <==> Alive(s, p) {}
  }

  // ---------------------------------------------------------------------------------------
  // New clients
  // ---------------------------------------------------------------------------------------

  lemma InitEpollKeeps(s: State, ok: bool)
    requires Core(s) && s.loop == NotStarted
    ensures Core(DoInitEpoll(s, ok))
  {
    assert Session(DoInitEpoll(s, ok));
    if ok {
      var s1 := AddInterest(s, s.listener);
      InterestGrows(s, s.listener);
      ListenerAdded(s);
      FatesFrame(s, s1);
      QuietStep(s1, s1.(loop := EpollReady));
    } else {
      QuietStep(s, s.(loop := Finished(false)));
    }
  }

  lemma ListenerAdded(s: State)
    requires Kernel(s) && Threads(s) && Agreement(s)
    ensures var s' := AddInterest(s, s.listener); Kernel(s') && Threads(s') && Agreement(s')
  {
    ListenerAddedKernel(s);
    forall t | t in s.threads && s.threads[t].pc.Accepted? && s.threads[t].pc.peer in s.fdOf
      ensures s.fdOf[s.threads[t].pc.peer] != s.listener
    {
      assert Holds(s.threads[t], s.threads[t].pc.peer);
    }
    ListenerAddedAgreement(s);
  }

  lemma ListenerAddedKernel(s: State)
    requires Kernel(s) && Threads(s)
    ensures var s' := AddInterest(s, s.listener); Kernel(s') && Threads(s')
    ensures forall p :: p in s.fdOf && Alive(s, p) ==> s.fdOf[p] != s.listener
  {
    forall p ensures Alive(AddInterest(s, s.listener), p) <==> Alive(s, p) {}
  }

  lemma ListenerAddedAgreement(s: State)
    requires Agreement(s) && forall p :: p in s.fdOf && Alive(s, p) ==> s.fdOf[p] != s.listener
    requires forall t :: t in s.threads && s.threads[t].pc.Accepted? && s.threads[t].pc.peer in s.fdOf
                         ==> s.fdOf[s.threads[t].pc.peer] != s.listener
    ensures Agreement(AddInterest(s, s.listener))
  {
    var s' := AddInterest(s, s.listener);
    forall f ensures PolledFd(s', f) <==> PolledFd(s, f) {}
    forall f ensures ErasingFd(s', f) <==> ErasingFd(s, f) {}
    forall p ensures Alive(s', p) <==> Alive(s, p) {}
  }

  lemma AcceptKernel(s: State, p: Peer, f: Fd)
    requires Kernel(s) && Threads(s) && CanAccept(s, p, f)
    ensures Kernel(DoAccept(s, p, f))
    ensures forall q :: Alive(DoAccept(s, p, f), q) <==> Alive(s, q) || q == p
  {
    var s' := DoAccept(s, p, f);
    forall q ensures Alive(s', q) <==> Alive(s, q) || q == p {}
    forall t, q | t in s'.threads && Holds(s'.threads[t], q) ensures Alive(s', q) {
      if t != LOOP { assert Holds(s.threads[t], q); }
    }
  }

  lemma AcceptErasing(s: State, p: Peer, f: Fd, g: Fd)
    requires Kernel(s) && Threads(s) && CanAccept(s, p, f)
    ensures ErasingFd(DoAccept(s, p, f), g) <==> ErasingFd(s, g)
  {
    var s' := DoAccept(s, p, f);
    if ErasingFd(s, g) {
      var t :| t in s.threads && s.threads[t].pc.Erasing? && s.threads[t].pc.peer in s.fdOf && s.fdOf[s.threads[t].pc.peer] == g;
      assert s'.threads[t] == s.threads[t];
    }
    if ErasingFd(s', g) {
      var t :| t in s'.threads && s'.threads[t].pc.Erasing? && s'.threads[t].pc.peer in s'.fdOf && s'.fdOf[s'.threads[t].pc.peer] == g;
      assert s'.threads[t] == s.threads[t] && s.threads[t].pc.peer in s.inserted;
    }
  }

  lemma AcceptAgreement(s: State, p: Peer, f: Fd)
    requires Kernel(s) && Threads(s) && Agreement(s) && CanAccept(s, p, f)
    ensures Agreement(DoAccept(s, p, f))
  {
    forall g ensures ErasingFd(DoAccept(s, p, f), g) <==> ErasingFd(s, g) { AcceptErasing(s, p, f, g); }
    AcceptAdditions(s, p, f);
    AcceptRemovals(s, p, f);
  }

  lemma AcceptAdditions(s: State, p: Peer, f: Fd)
    requires Kernel(s) && Threads(s) && Additions(s) && CanAccept(s, p, f)
    ensures Additions(DoAccept(s, p, f))
    ensures forall g :: !PolledFd(DoAccept(s, p, f), g) && !PolledFd(s, g)
  {
    var s' := DoAccept(s, p, f);
    forall t | t in s'.threads && s'.threads[t].pc.Accepted? ensures t == LOOP {}
    assert f !in s.interest;
  }

  lemma AcceptRemovals(s: State, p: Peer, f: Fd)
    requires Kernel(s) && Threads(s) && Removals(s) && CanAccept(s, p, f)
    ensures Removals(DoAccept(s, p, f))
  {
    var s' := DoAccept(s, p, f);
    AcceptKernel(s, p, f);
    forall t | t in s'.threads && s'.threads[t].pc.Erasing? ensures s'.threads[t] == s.threads[t] {}
    assert p !in s.deleted;
  }

  lemma AcceptFates(s: State, p: Peer, f: Fd)
    requires Kernel(s) && Threads(s) && Fates(s) && CanAccept(s, p, f)
    ensures Fates(DoAccept(s, p, f))
  {
    AcceptKernel(s, p, f);
    AcceptRegistry(s, p, f);
    AcceptFatesFrom(s, p, f);
  }

  lemma AcceptFatesFrom(s: State, p: Peer, f: Fd)
    requires Fates(s) && p !in s.fdOf && p !in s.inserted && !Cleared(s)
    requires s.dropped <= s.inserted && forall q :: q in s.disconnects ==> q in s.inserted
    requires var s' := DoAccept(s, p, f);
             && (forall q :: InRegistry(s', q) <==> InRegistry(s, q))
             && (forall q :: Alive(s', q) <==> Alive(s, q) || q == p)
    ensures Fates(DoAccept(s, p, f))
  {
  }

  lemma AcceptRegistry(s: State, p: Peer, f: Fd)
    requires Kernel(s) && Threads(s) && CanAccept(s, p, f)
    ensures forall q :: InRegistry(DoAccept(s, p, f), q) <==> InRegistry(s, q)
  {
    assert forall g :: g in s.registry ==> Alive(s, s.registry[g]) && s.fdOf[s.registry[g]] == g;
    assert f !in s.registry;
  }

  lemma AcceptKeeps(s: State, p: Peer, f: Fd)
    requires Core(s) && CanAccept(s, p, f)
    ensures Core(DoAccept(s, p, f))
  {
    AcceptKernel(s, p, f);
    AcceptAgreement(s, p, f);
    AcceptFates(s, p, f);
    AcceptThreads(s, p, f);
    AcceptRest(s, p, f);
  }

  lemma AcceptRest(s: State, p: Peer, f: Fd)
    requires Batch(s) && Session(s) && Buffer(s) && CanAccept(s, p, f)
    ensures var s' := DoAccept(s, p, f); Batch(s') && Session(s') && Buffer(s')
  {
    var s' := DoAccept(s, p, f);
    BatchFrame(s, s');
    SessionFrame(s, s');
    BufferFrame(s, s');
  }

  lemma AcceptThreads(s: State, p: Peer, f: Fd)
    requires Threads(s) && CanAccept(s, p, f)
    ensures Threads(DoAccept(s, p, f))
  {
    var s' := DoAccept(s, p, f);
    forall t, q | t in s'.threads && InCall(s'.threads[t], q) ensures q in s.inserted {
      assert t != LOOP && InCall(s.threads[t], q);
    }
  }

  lemma AddToEpollAgreement(s: State)
    requires Kernel(s) && Threads(s) && Agreement(s) && CanAdd(s, true)
    ensures Agreement(DoAddToEpoll(s, true))
  {
    var p := s.threads[LOOP].pc.peer;
    assert Holds(s.threads[LOOP], p) && Alive(s, p);
    assert p !in s.deleted;
    NotErasing(s, p);
    AddedKeys(s);
    AddedRest(s);
  }

  lemma AddedKeys(s: State)
    requires CanAdd(s, true) && KeysAgree(s) && s.fdOf[s.threads[LOOP].pc.peer] != s.listener
    requires !ErasingFd(s, s.fdOf[s.threads[LOOP].pc.peer])
    ensures KeysAgree(DoAddToEpoll(s, true))
  {
    var s', th := DoAddToEpoll(s, true), s.threads[LOOP].(pc := Polled(s.threads[LOOP].pc.peer));
    forall g ensures ErasingFd(s', g) <==> ErasingFd(s, g) {
      ErasingElsewhere(s, LOOP, th, g);
      assert ErasingFd(s', g) <==> ErasingFd(WithThread(s, LOOP, th), g);
    }
    forall g ensures PolledFd(s', g) <==> g == s.fdOf[s.threads[LOOP].pc.peer] {}
    forall g ensures !PolledFd(s, g) {}
  }

  lemma AddedRest(s: State)
    requires Kernel(s) && Threads(s) && Additions(s) && Removals(s) && CanAdd(s, true)
    requires var p := s.threads[LOOP].pc.peer; Alive(s, p) && p !in s.deleted
    ensures Additions(DoAddToEpoll(s, true)) && Removals(DoAddToEpoll(s, true))
  {
    var s' := DoAddToEpoll(s, true);
    forall q ensures Alive(s', q) <==> Alive(s, q) {}
    forall t | t in s'.threads && t != LOOP ensures s'.threads[t] == s.threads[t] {}
  }

  /** Nobody is erasing a peer that has not been deleted. */
  lemma NotErasing(s: State, p: Peer)
    requires Kernel(s) && Agreement(s) && Alive(s, p) && p !in s.deleted
    ensures !ErasingFd(s, s.fdOf[p])
  {
    forall t | t in s.threads && s.threads[t].pc.Erasing? && s.threads[t].pc.peer in s.fdOf
      ensures s.fdOf[s.threads[t].pc.peer] != s.fdOf[p]
    {
      assert s.threads[t].pc.peer != p;
      assert Holds(s.threads[t], s.threads[t].pc.peer);
      assert Alive(s, s.threads[t].pc.peer);
    }
  }

  lemma AddToEpollKernel(s: State, ok: bool)
    requires Kernel(s) && CanAdd(s, ok)
    ensures Kernel(DoAddToEpoll(s, ok))
  {
    var s' := DoAddToEpoll(s, ok);
    var p := s.threads[LOOP].pc.peer;
    assert Holds(s.threads[LOOP], p) && Alive(s, p);
    forall q ensures Alive(s', q) <==> Alive(s, q) {}
    forall t, q | t in s'.threads && Holds(s'.threads[t], q) ensures Holds(s.threads[t], q) {}
  }

  lemma AddToEpollThreads(s: State, ok: bool)
    requires Threads(s) && CanAdd(s, ok)
    ensures Threads(DoAddToEpoll(s, ok))
  {
    var s' := DoAddToEpoll(s, ok);
    forall t, q | t in s'.threads && InCall(s'.threads[t], q) ensures InCall(s.threads[t], q) {}
  }

  lemma AddFailsAgreement(s: State)
    requires Agreement(s) && LOOP in s.threads && s.threads[LOOP].pc.Accepted? && !Cleared(s)
    requires CanAdd(s, false)
    ensures Agreement(DoAddToEpoll(s, false))
  {
    var s' := DoAddToEpoll(s, false);
    var th := s.threads[LOOP].(pc := Running);
    forall g ensures ErasingFd(s', g) <==> ErasingFd(s, g) {
      ErasingElsewhere(s, LOOP, th, g);
      assert ErasingFd(s', g) <==> ErasingFd(WithThread(s, LOOP, th), g);
    }
    forall g ensures !PolledFd(s', g) && !PolledFd(s, g) {}
    forall q ensures Alive(s', q) <==> Alive(s, q) {}
  }

  lemma AddToEpollKeeps(s: State, ok: bool)
    requires Core(s) && CanAdd(s, ok)
    ensures Core(DoAddToEpoll(s, ok))
  {
    var s' := DoAddToEpoll(s, ok);
    assert s.loop.Dispatching? by { assert !LoopIdle(s); }
    AddToEpollKernel(s, ok);
    AddToEpollThreads(s, ok);
    FatesFrame(s, s');
    BatchFrame(s, s');
    SessionFrame(s, s');
    if ok {
      AddToEpollAgreement(s);
      InterestGrows(s, s.fdOf[s.threads[LOOP].pc.peer]);
    } else {
      AddFailsAgreement(s);
      BufferFrame(s, s');
    }
  }
}
