/** Insert, EPOLL_CTL_DEL, erase and the final clear keep the invariant. */
module ServerRemoval {
  import opened ServerModel
  import opened ServerInvariant
  import opened ServerSteps
  import opened ServerPeerSteps

  // ---------------------------------------------------------------------------------------
  // m_client_mgr[fd] = peer
  // ---------------------------------------------------------------------------------------

  /** The insert never overwrites: the new descriptor is not a key of the registry. */
  lemma InsertIsFresh(s: State)
    requires Kernel(s) && Threads(s) && Agreement(s) && CanInsert(s) && !Cleared(s)
    ensures var p := s.threads[LOOP].pc.peer; Alive(s, p) && s.fdOf[p] !in s.registry && p !in s.inserted
  {
    var p := s.threads[LOOP].pc.peer;
    assert Holds(s.threads[LOOP], p);
    assert PolledFd(s, s.fdOf[p]);
    NotErasing(s, p);
  }

  lemma InsertKernel(s: State)
    requires Kernel(s) && Threads(s) && CanInsert(s) && Alive(s, s.threads[LOOP].pc.peer)
    ensures Kernel(DoInsert(s))
  {
    var s' := DoInsert(s);
    var p := s.threads[LOOP].pc.peer;
    forall q ensures Alive(s', q) <==> Alive(s, q) {}
    forall t, q | t in s'.threads && Holds(s'.threads[t], q) ensures Alive(s', q) {
      if t != LOOP { assert Holds(s.threads[t], q); }
    }
  }

  lemma InsertThreads(s: State)
    requires Threads(s) && CanInsert(s) && s.threads[LOOP].pc.peer in s.fdOf
    ensures Threads(DoInsert(s))
  {
    var s' := DoInsert(s);
    forall t, q | t in s'.threads && InCall(s'.threads[t], q) ensures q in s'.inserted {
      if t != LOOP { assert InCall(s.threads[t], q); }
    }
  }

  lemma InsertAgreement(s: State)
    requires Kernel(s) && Threads(s) && Agreement(s) && CanInsert(s) && !Cleared(s)
    ensures Agreement(DoInsert(s))
  {
    var s' := DoInsert(s);
    var p := s.threads[LOOP].pc.peer;
    InsertIsFresh(s);
    InsertErasing(s);
    forall g ensures !PolledFd(s', g) {}
    forall g ensures PolledFd(s, g) <==> g == s.fdOf[p] {}
    forall q ensures Alive(s', q) <==> Alive(s, q) {}
  }

  lemma InsertErasing(s: State)
    requires CanInsert(s)
    ensures forall g :: ErasingFd(DoInsert(s), g) <==> ErasingFd(s, g)
  {
    var th := Thread(s.threads[LOOP].calls + [OnNewClient(s.threads[LOOP].pc.peer)], Running);
    forall g ensures ErasingFd(DoInsert(s), g) <==> ErasingFd(s, g) {
      ErasingElsewhere(s, LOOP, th, g);
      assert ErasingFd(DoInsert(s), g) <==> ErasingFd(WithThread(s, LOOP, th), g);
    }
  }

  lemma InsertFates(s: State)
    requires Fates(s) && Threads(s) && CanInsert(s) && !Cleared(s)
    requires s.fdOf[s.threads[LOOP].pc.peer] !in s.registry
    ensures Fates(DoInsert(s))
  {
    var s' := DoInsert(s);
    var p := s.threads[LOOP].pc.peer;
    forall q ensures Alive(s', q) <==> Alive(s, q) {}
    forall q ensures InRegistry(s', q) <==> InRegistry(s, q) || q == p {}
    assert p !in s.disconnects && p !in s.dropped;
  }

  lemma LoopIsBusy(s: State)
    requires Threads(s) && !LoopIdle(s)
    ensures s.loop.Dispatching? && !Cleared(s)
  {
  }

  lemma InsertKeeps(s: State)
    requires Core(s) && CanInsert(s)
    ensures Core(DoInsert(s))
  {
    var s' := DoInsert(s);
    LoopIsBusy(s);
    InsertIsFresh(s);
    InsertKernel(s);
    InsertThreads(s);
    InsertAgreement(s);
    InsertFates(s);
    BatchFrame(s, s');
    SessionFrame(s, s');
    BufferFrame(s, s');
  }

  // ---------------------------------------------------------------------------------------
  // epoll_ctl(EPOLL_CTL_DEL)
  // ---------------------------------------------------------------------------------------

  lemma DeleteKernel(s: State, t: Tid)
    requires Kernel(s) && CanDelete(s, t)
    ensures Kernel(DoEpollDelete(s, t))
  {
    var s' := DoEpollDelete(s, t);
    forall q ensures Alive(s', q) <==> Alive(s, q) {}
    forall u, q | u in s'.threads && Holds(s'.threads[u], q) ensures Holds(s.threads[u], q) {}
  }

  lemma DeleteThreads(s: State, t: Tid)
    requires Threads(s) && CanDelete(s, t) && s.fdOf[s.threads[t].pc.peer] in s.interest
    ensures Threads(DoEpollDelete(s, t))
  {
    var p := s.threads[t].pc.peer;
    var th := s.threads[t].(pc := Erasing(p));
    forall q | InCall(th, q) ensures q in s.inserted { assert InCall(s.threads[t], q); }
    assert t == LOOP ==> !LoopIdle(s);
    ThreadsThread(s, t, th);
    DeletedThreads(WithThread(s, t, th), p);
  }

  lemma DeletedThreads(s: State, p: Peer)
    requires Threads(s) && p in s.inserted && p in s.fdOf
    ensures Threads(s.(interest := s.interest - {s.fdOf[p]}, deleted := s.deleted + {p}))
  {
  }

  lemma DeleteErasing(s: State, t: Tid, f: Fd)
    requires CanDelete(s, t) && s.fdOf[s.threads[t].pc.peer] in s.interest
    ensures ErasingFd(DoEpollDelete(s, t), f) <==> ErasingFd(s, f) || f == s.fdOf[s.threads[t].pc.peer]
  {
    var s' := DoEpollDelete(s, t);
    if ErasingFd(s, f) {
      var u :| u in s.threads && s.threads[u].pc.Erasing? && s.threads[u].pc.peer in s.fdOf && s.fdOf[s.threads[u].pc.peer] == f;
      assert s'.threads[u] == s.threads[u];
    }
    if ErasingFd(s', f) {
      var u :| u in s'.threads && s'.threads[u].pc.Erasing? && s'.threads[u].pc.peer in s'.fdOf && s'.fdOf[s'.threads[u].pc.peer] == f;
      assert u != t ==> s'.threads[u] == s.threads[u];
    }
    assert s'.threads[t].pc.Erasing?;
  }

  /** A registered descriptor that a thread is about to delete was not deleted before. */
  lemma DeleteIsFirst(s: State, t: Tid)
    requires Kernel(s) && Threads(s) && Agreement(s) && CanDelete(s, t)
    requires s.fdOf[s.threads[t].pc.peer] in s.interest
    ensures var p := s.threads[t].pc.peer;
            Alive(s, p) && p !in s.deleted && !PolledFd(s, s.fdOf[p]) && s.fdOf[p] != s.listener
  {
    var p := s.threads[t].pc.peer;
    assert Holds(s.threads[t], p) && Alive(s, p);
    assert p in s.inserted;
    if LOOP in s.threads && s.threads[LOOP].pc.Polled? {
      var q := s.threads[LOOP].pc.peer;
      assert Holds(s.threads[LOOP], q) && Alive(s, q);
      assert q != p;
    }
  }

  lemma DeleteAgreement(s: State, t: Tid)
    requires Kernel(s) && Threads(s) && Agreement(s) && CanDelete(s, t)
    requires s.fdOf[s.threads[t].pc.peer] in s.interest
    ensures Agreement(DoEpollDelete(s, t))
  {
    DeleteIsFirst(s, t);
    DeletedKeys(s, t);
    DeletedRest(s, t);
  }

  lemma DeletedKeys(s: State, t: Tid)
    requires KeysAgree(s) && CanDelete(s, t)
    requires var f := s.fdOf[s.threads[t].pc.peer]; f in s.interest && !PolledFd(s, f) && f != s.listener
    ensures KeysAgree(DoEpollDelete(s, t))
  {
    var s' := DoEpollDelete(s, t);
    forall f ensures ErasingFd(s', f) <==> ErasingFd(s, f) || f == s.fdOf[s.threads[t].pc.peer] { DeleteErasing(s, t, f); }
    forall f ensures PolledFd(s', f) <==> PolledFd(s, f) {}
  }

  lemma DeletedRest(s: State, t: Tid)
    requires Additions(s) && Removals(s) && CanDelete(s, t)
    requires var p := s.threads[t].pc.peer;
             s.fdOf[p] in s.interest && Alive(s, p) && p !in s.deleted && !PolledFd(s, s.fdOf[p])
    ensures Additions(DoEpollDelete(s, t)) && Removals(DoEpollDelete(s, t))
  {
    var s' := DoEpollDelete(s, t);
    forall f ensures PolledFd(s', f) <==> PolledFd(s, f) {}
    forall q ensures Alive(s', q) <==> Alive(s, q) {}
    forall u | u in s'.threads && u != t ensures s'.threads[u] == s.threads[u] {}
  }

  lemma EpollDeleteKeeps(s: State, t: Tid)
    requires Core(s) && CanDelete(s, t)
    ensures Core(DoEpollDelete(s, t))
  {
    var s' := DoEpollDelete(s, t);
    if s.fdOf[s.threads[t].pc.peer] in s.interest {
      DeleteKernel(s, t);
      DeleteThreads(s, t);
      DeleteAgreement(s, t);
      DeleteIsFirst(s, t);
      DeleteFates(s, t);
      BatchFrame(s, s');
      SessionFrame(s, s');
      BufferFrame(s, s');
    } else {
      GiveUpKeeps(s, t);
    }
  }

  lemma DeleteFates(s: State, t: Tid)
    requires Fates(s) && CanDelete(s, t)
    ensures Fates(DoEpollDelete(s, t))
  {
    FatesFrame(s, DoEpollDelete(s, t));
  }

  /** delClient returns because epoll no longer knows the descriptor. */
  lemma GiveUpKeeps(s: State, t: Tid)
    requires Core(s) && t in s.threads && s.threads[t].pc.Deleting?
    ensures Core(WithThread(s, t, s.threads[t].(pc := Running)))
  {
    var th := s.threads[t].(pc := Running);
    forall p | Holds(th, p) ensures Alive(s, p) && p in s.inserted {
      assert InCall(s.threads[t], p) && Holds(s.threads[t], p);
    }
    assert t == LOOP ==> !LoopIdle(s);
    PlainMove(s, t, th);
  }

  // ---------------------------------------------------------------------------------------
  // m_client_mgr.erase(fd)
  // ---------------------------------------------------------------------------------------

  /** What a thread finds under the descriptor it deleted is the peer it deleted it for. */
  lemma EraseFindsPeer(s: State, t: Tid)
    requires Kernel(s) && Agreement(s) && CanErase(s, t)
    ensures var p := s.threads[t].pc.peer;
            && Alive(s, p) && s.fdOf[p] !in s.interest
            && (Cleared(s) ==> s.registry == map[])
            && (!Cleared(s) ==> s.fdOf[p] in s.registry && s.registry[s.fdOf[p]] == p)
  {
    var p := s.threads[t].pc.peer;
    assert Holds(s.threads[t], p);
    assert ErasingFd(s, s.fdOf[p]);
  }

  lemma EraseErasing(s: State, t: Tid, f: Fd)
    requires Kernel(s) && Agreement(s) && CanErase(s, t)
    ensures ErasingFd(DoErase(s, t), f) <==> ErasingFd(s, f) && f != s.fdOf[s.threads[t].pc.peer]
  {
    var s' := DoErase(s, t);
    ErasingEnds(s, t, s'.threads[t], f);
    assert ErasingFd(s', f) <==> ErasingFd(WithThread(s, t, s'.threads[t]), f);
  }

  lemma ErasingEnds(s: State, t: Tid, th: Thread, f: Fd)
    requires Kernel(s) && Removals(s) && CanErase(s, t) && !th.pc.Erasing?
    ensures ErasingFd(WithThread(s, t, th), f) <==> ErasingFd(s, f) && f != s.fdOf[s.threads[t].pc.peer]
  {
    var s' := WithThread(s, t, th);
    var p := s.threads[t].pc.peer;
    assert Holds(s.threads[t], p) && Alive(s, p);
    if ErasingFd(s, f) && f != s.fdOf[p] {
      var u :| u in s.threads && s.threads[u].pc.Erasing? && s.threads[u].pc.peer in s.fdOf && s.fdOf[s.threads[u].pc.peer] == f;
      assert s'.threads[u] == s.threads[u];
    }
    if ErasingFd(s', f) {
      var u :| u in s'.threads && s'.threads[u].pc.Erasing? && s'.threads[u].pc.peer in s'.fdOf && s'.fdOf[s'.threads[u].pc.peer] == f;
      assert s'.threads[u] == s.threads[u] && u != t;
      var q := s.threads[u].pc.peer;
      assert q != p && Holds(s.threads[u], q) && Alive(s, q);
    }
  }

  lemma EraseAgreement(s: State, t: Tid)
    requires Kernel(s) && Agreement(s) && CanErase(s, t)
    ensures Agreement(DoErase(s, t))
  {
    EraseFindsPeer(s, t);
    forall f ensures ErasingFd(DoErase(s, t), f) <==> ErasingFd(s, f) && f != s.fdOf[s.threads[t].pc.peer] {
      EraseErasing(s, t, f);
    }
    ErasedKeys(s, t);
    ErasedRest(s, t);
  }

  lemma ErasedKeys(s: State, t: Tid)
    requires KeysAgree(s) && CanErase(s, t) && s.fdOf[s.threads[t].pc.peer] !in s.interest
    requires forall f :: ErasingFd(DoErase(s, t), f) <==> ErasingFd(s, f) && f != s.fdOf[s.threads[t].pc.peer]
    ensures KeysAgree(DoErase(s, t))
  {
    forall f ensures PolledFd(DoErase(s, t), f) <==> PolledFd(s, f) {}
  }

  lemma ErasedRest(s: State, t: Tid)
    requires Additions(s) && Removals(s) && CanErase(s, t)
    ensures Additions(DoErase(s, t)) && Removals(DoErase(s, t))
  {
    var s' := DoErase(s, t);
    forall f ensures PolledFd(s', f) <==> PolledFd(s, f) {}
    forall q ensures Alive(s', q) <==> Alive(s, q) {}
    forall u | u in s'.threads && u != t ensures s'.threads[u] == s.threads[u] {}
    assert s'.threads[t].pc == Running;
  }

  lemma EraseKernel(s: State, t: Tid)
    requires Kernel(s) && CanErase(s, t)
    ensures Kernel(DoErase(s, t))
  {
    var s' := DoErase(s, t);
    forall q ensures Alive(s', q) <==> Alive(s, q) {}
    forall u, q | u in s'.threads && Holds(s'.threads[u], q) ensures Alive(s', q) {
      if Holds(s.threads[u], q) {} else { assert u == t; }
    }
  }

  lemma EraseThreads(s: State, t: Tid)
    requires Threads(s) && CanErase(s, t)
    ensures Threads(DoErase(s, t))
  {
    assert t == LOOP ==> !LoopIdle(s);
    var f := s.fdOf[s.threads[t].pc.peer];
    if f in s.registry {
      var th := Thread(s.threads[t].calls + [OnDisconnect(s.registry[f])], Running);
      forall p | InCall(th, p) ensures p in s.inserted {
        if !InCall(s.threads[t], p) { assert p == s.registry[f]; }
      }
      ThreadsThread(s, t, th);
      ErasedThreads(WithThread(s, t, th), f);
    } else {
      var th := s.threads[t].(pc := Running);
      forall p | InCall(th, p) ensures p in s.inserted { assert InCall(s.threads[t], p); }
      ThreadsThread(s, t, th);
    }
  }

  lemma ErasedThreads(s: State, f: Fd)
    requires Threads(s) && f in s.registry
    ensures Threads(s.(registry := s.registry - {f}, disconnects := s.disconnects + multiset{s.registry[f]}))
  {
  }

  ghost predicate OwnKeys(s: State) {
    forall f :: f in s.registry ==> s.registry[f] in s.fdOf && s.fdOf[s.registry[f]] == f
  }

  lemma EraseFates(s: State, t: Tid)
    requires Fates(s) && CanErase(s, t)
    requires var p := s.threads[t].pc.peer; s.fdOf[p] in s.registry ==> s.registry[s.fdOf[p]] == p
    requires OwnKeys(s)
    ensures Fates(DoErase(s, t))
  {
    var s', f := DoErase(s, t), s.fdOf[s.threads[t].pc.peer];
    if f in s.registry { DisconnectFates(s, f, s'); } else { FatesFrame(s, s'); }
  }

  lemma DisconnectFates(s: State, f: Fd, s': State)
    requires Fates(s) && f in s.registry && InRegistry(s, s.registry[f]) && s.fdOf[s.registry[f]] == f
    requires OwnKeys(s)
    requires s' == s.(threads := s'.threads, registry := s.registry - {f},
                      disconnects := s.disconnects + multiset{s.registry[f]})
    ensures Fates(s')
  {
    var p := s.registry[f];
    forall q ensures Alive(s', q) <==> Alive(s, q) {}
    forall q ensures InRegistry(s', q) <==> InRegistry(s, q) && q != p {}
    forall q ensures s'.disconnects[q] == s.disconnects[q] + if q == p then 1 else 0 {}
  }

  lemma EraseKeeps(s: State, t: Tid)
    requires Core(s) && CanErase(s, t)
    ensures Core(DoErase(s, t))
  {
    var s' := DoErase(s, t);
    EraseFindsPeer(s, t);
    EraseKernel(s, t);
    EraseThreads(s, t);
    EraseAgreement(s, t);
    EraseFates(s, t);
    BatchFrame(s, s');
    SessionFrame(s, s');
    BufferFrame(s, s');
  }

  // ---------------------------------------------------------------------------------------
  // m_client_mgr.clear()
  // ---------------------------------------------------------------------------------------

  lemma ClearKernel(s: State)
    requires Kernel(s) && Threads(s) && s.loop == Draining
    ensures Kernel(DoClear(s)) && Threads(DoClear(s))
  {
    var s' := DoClear(s);
    forall q ensures Alive(s', q) <==> Alive(s, q) {}
    forall p | p in s.registry.Values ensures p in s.inserted {}
  }

  lemma ClearAgreement(s: State)
    requires Agreement(s) && s.loop == Draining
    ensures Agreement(DoClear(s))
  {
    var s' := DoClear(s);
    forall f ensures PolledFd(s', f) <==> PolledFd(s, f) {}
    forall q ensures Alive(s', q) <==> Alive(s, q) {}
  }

  lemma ClearFates(s: State)
    requires Kernel(s) && Fates(s) && s.loop == Draining
    ensures Fates(DoClear(s))
  {
    var s' := DoClear(s);
    forall q ensures Alive(s', q) <==> Alive(s, q) {}
    forall q ensures q in s.registry.Values <==> InRegistry(s, q) { InValues(s, q); }
  }

  lemma InValues(s: State, p: Peer)
    requires OwnKeys(s)
    ensures p in s.registry.Values <==> InRegistry(s, p)
  {
    if InRegistry(s, p) { assert s.registry[s.fdOf[p]] == p; }
  }

  lemma ClearKeeps(s: State)
    requires Core(s) && s.loop == Draining
    ensures Core(DoClear(s))
  {
    var s' := DoClear(s);
    ClearKernel(s);
    ClearAgreement(s);
    ClearFates(s);
    BatchFrame(s, s');
    BufferFrame(s, s');
  }

  // ---------------------------------------------------------------------------------------
  // All steps
  // ---------------------------------------------------------------------------------------

  lemma NewClientKeeps(s: State, a: Action)
    requires Core(s) && Enabled(s, a) && (a.InitEpoll? || a.Accept? || a.AddToEpoll? || a.Insert?)
    ensures Core(Raw(s, a))
  {
    if a.InitEpoll? { InitEpollKeeps(s, a.ok); }
    else if a.Accept? { AcceptKeeps(s, a.peer, a.fd); }
    else if a.AddToEpoll? { AddToEpollKeeps(s, a.ok); }
    else { InsertKeeps(s); }
  }

  lemma RemovalKeeps(s: State, a: Action)
    requires Core(s) && Enabled(s, a) && (a.ReadFails? || a.EpollDelete? || a.Erase? || a.Clear?)
    ensures Core(Raw(s, a))
  {
    if a.ReadFails? { ReadFailsKeeps(s, a.tid, a.peer); }
    else if a.EpollDelete? { EpollDeleteKeeps(s, a.tid); }
    else if a.Erase? { EraseKeeps(s, a.tid); }
    else { ClearKeeps(s); }
  }

  lemma CallbackKeeps(s: State, a: Action)
    requires Core(s) && Enabled(s, a) && (a.Lookup? || a.Return?)
    ensures Core(Raw(s, a))
  {
    if a.Lookup? { LookupKeeps(s); } else { ReturnKeeps(s, a.tid); }
  }

  lemma PointerKeeps(s: State, a: Action)
    requires Core(s) && Enabled(s, a) && (a.Share? || a.Forget?)
    ensures Core(Raw(s, a))
  {
    if a.Share? { ShareKeeps(s, a.peer); } else { ForgetKeeps(s, a.peer); }
  }

  lemma RawKeeps(s: State, a: Action)
    requires Core(s) && Enabled(s, a)
    ensures Core(Raw(s, a))
  {
    if LoopMove(a) { LoopMoveKeeps(s, a); }
    else if ControlMove(a) { ControlMoveKeeps(s, a); }
    else if a.InitEpoll? || a.Accept? || a.AddToEpoll? || a.Insert? { NewClientKeeps(s, a); }
    else if a.ReadFails? || a.EpollDelete? || a.Erase? || a.Clear? { RemovalKeeps(s, a); }
    else if a.Lookup? || a.Return? { CallbackKeeps(s, a); }
    else { PointerKeeps(s, a); }
  }

  lemma StepKeeps(s: State, a: Action)
    requires Inv(s) && Enabled(s, a)
    ensures Inv(Apply(s, a))
  {
    RawKeeps(s, a);
    ReapKeeps(Raw(s, a));
  }

  lemma RunKeeps(trace: seq<State>, acts: seq<Action>, i: nat)
    requires Run(trace, acts) && i < |trace|
    ensures Inv(trace[i])
  {
    forall s, a | Inv(s) && Enabled(s, a) ensures Inv(Apply(s, a)) { StepKeeps(s, a); }
    InitInv(trace[0]);
    Inductive(trace, acts, i, s => Inv(s), (s, a) => true);
  }
}
