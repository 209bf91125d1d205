/**
 * Which callbacks really run. The call stacks of a run tell when a callback starts; the history
 * the invariant keeps is what these stacks, and the kernel's tables, show.
 */
module ServerCallbacks {
  import opened Common
  import opened ServerModel
  import opened ServerInvariant
  import opened ServerSteps
  import opened ServerPeerSteps
  import opened ServerRemoval

  // ---------------------------------------------------------------------------------------
  // What a step calls
  // ---------------------------------------------------------------------------------------

  /** Between the two states some thread has put `c` on top of its call stack. */
  ghost predicate Starts(s: State, s': State, c: Call) {
    exists t :: t in s.threads && t in s'.threads && s'.threads[t].calls == s.threads[t].calls + [c]
  }

  /** What the source prescribes: which step calls `c`. */
  ghost predicate Calls(s: State, a: Action, c: Call) {
    match c
    case OnNewClient(p) => a == Insert && LOOP in s.threads && s.threads[LOOP].pc == Polled(p)
    case OnRecvData(p) =>
      a == Lookup && AtEvent(s)
      && var e := CurrentEvent(s); e.readable && e.fd != s.listener && e.fd in s.registry && s.registry[e.fd] == p
    case OnDisconnect(p) =>
      a.Erase? && CanErase(s, a.tid)
      && var f := s.fdOf[s.threads[a.tid].pc.peer]; f in s.registry && s.registry[f] == p
  }

  lemma NobodyStarts(s: State, s': State, c: Call)
    requires forall t :: t in s.threads && t in s'.threads ==> |s'.threads[t].calls| <= |s.threads[t].calls|
    ensures !Starts(s, s', c)
  {
  }

  lemma OneStarts(s: State, s': State, t: Tid, th: Thread, c0: Call, c: Call)
    requires t in s.threads && s'.threads == s.threads[t := th] && th.calls == s.threads[t].calls + [c0]
    ensures Starts(s, s', c) <==> c == c0
  {
    if c == c0 { assert s'.threads[t].calls == s.threads[t].calls + [c]; }
    if Starts(s, s', c) {
      var u :| u in s.threads && u in s'.threads && s'.threads[u].calls == s.threads[u].calls + [c];
      assert s'.threads[u].calls[|s.threads[u].calls|] == c;
      assert th.calls[|s.threads[t].calls|] == c0;
    }
  }

  /** Neither a thread nor what has happened to peers is touched. */
  ghost predicate Silent(s: State, s': State) {
    s'.threads == s.threads && s'.disconnects == s.disconnects && s'.inserted == s.inserted
  }

  ghost predicate Unheard(a: Action) {
    LoopMove(a) || ControlMove(a) || a.InitEpoll? || a.Share? || a.Forget? || a.Clear?
  }

  lemma SetUpIsSilent(s: State, a: Action)
    requires Enabled(s, a) && (a.InitEpoll? || a.Clear?)
    ensures Silent(s, Raw(s, a))
  {
  }

  lemma PointerIsSilent(s: State, a: Action)
    requires Enabled(s, a) && (a.Share? || a.Forget?)
    ensures Silent(s, Raw(s, a))
  {
  }

  lemma UnheardIsSilent(s: State, a: Action)
    requires Threads(s) && Enabled(s, a) && Unheard(a)
    ensures Silent(s, Raw(s, a))
  {
    if a.EpollWait? { EpollWaitFits(s, a.failed, a.ready); }
    else if LoopMove(a) { LoopFits(s, a); }
    else if ControlMove(a) { ControlOnly(s, a); }
    else if a.InitEpoll? || a.Clear? { SetUpIsSilent(s, a); }
    else { PointerIsSilent(s, a); }
  }

  lemma LoopCallsNothing(s: State, a: Action, c: Call)
    requires Enabled(s, a) && (a.Accept? || a.AddToEpoll?)
    ensures !Starts(s, Raw(s, a), c)
  {
    NobodyStarts(s, Raw(s, a), c);
  }

  lemma ReadingCallsNothing(s: State, a: Action, c: Call)
    requires Enabled(s, a) && (a.ReadFails? || a.EpollDelete?)
    ensures !Starts(s, Raw(s, a), c)
  {
    NobodyStarts(s, Raw(s, a), c);
  }

  lemma ReturnCallsNothing(s: State, t: Tid, c: Call)
    requires CanReturn(s, t)
    ensures !Starts(s, DoReturn(s, t), c)
  {
    NobodyStarts(s, DoReturn(s, t), c);
  }

  lemma InsertCalls(s: State, c: Call)
    requires Threads(s) && CanInsert(s)
    ensures Starts(s, DoInsert(s), c) <==> c == OnNewClient(s.threads[LOOP].pc.peer)
  {
    var p := s.threads[LOOP].pc.peer;
    OneStarts(s, DoInsert(s), LOOP, Thread(s.threads[LOOP].calls + [OnNewClient(p)], Running), OnNewClient(p), c);
  }

  lemma LookupCalls(s: State, c: Call)
    requires CanLookup(s)
    ensures Starts(s, DoLookup(s), c)
       <==> CurrentEvent(s).fd in s.registry && c == OnRecvData(s.registry[CurrentEvent(s).fd])
  {
    var f := CurrentEvent(s).fd;
    if f in s.registry {
      var call := OnRecvData(s.registry[f]);
      assert [] + [call] == [call];
      OneStarts(s, DoLookup(s), LOOP, Thread([call], Running), call, c);
    } else {
      NobodyStarts(s, DoLookup(s), c);
    }
  }

  lemma EraseCalls(s: State, t: Tid, c: Call)
    requires CanErase(s, t)
    ensures var f := s.fdOf[s.threads[t].pc.peer];
            Starts(s, DoErase(s, t), c) <==> f in s.registry && c == OnDisconnect(s.registry[f])
  {
    var f := s.fdOf[s.threads[t].pc.peer];
    if f in s.registry {
      var call := OnDisconnect(s.registry[f]);
      OneStarts(s, DoErase(s, t), t, Thread(s.threads[t].calls + [call], Running), call, c);
    } else {
      NobodyStarts(s, DoErase(s, t), c);
    }
  }

  lemma RawStarts(s: State, a: Action, c: Call)
    requires Threads(s) && Enabled(s, a)
    ensures Starts(s, Raw(s, a), c) <==> Calls(s, a, c)
  {
    if Unheard(a) {
      UnheardIsSilent(s, a);
      NobodyStarts(s, Raw(s, a), c);
    }
    else if a.Insert? { InsertCalls(s, c); }
    else if a.Lookup? { LookupCalls(s, c); }
    else if a.Erase? { EraseCalls(s, a.tid, c); }
    else if a.Accept? || a.AddToEpoll? { LoopCallsNothing(s, a, c); }
    else if a.Return? { ReturnCallsNothing(s, a.tid, c); }
    else { ReadingCallsNothing(s, a, c); }
  }

  lemma StepStarts(s: State, a: Action, c: Call)
    requires Threads(s) && Enabled(s, a)
    ensures Starts(s, Apply(s, a), c) <==> Calls(s, a, c)
  {
    RawStarts(s, a, c);
    assert Apply(s, a).threads == Raw(s, a).threads;
  }

  /**
   * In every run onRecvData starts exactly at the lookup of a readable event, for the peer that the
   * registry holds under its descriptor, onNewClient exactly at an insert, for the peer inserted,
   * and onDisconnect exactly at an erase that finds its peer.
   */
  lemma CallbacksAsPrescribed(trace: seq<State>, acts: seq<Action>, i: nat, c: Call)
    requires Run(trace, acts) && i < |acts|
    ensures Starts(trace[i], trace[i + 1], c) <==> Calls(trace[i], acts[i], c)
  {
    RunKeeps(trace, acts, i);
    assert StepAt(trace, acts, i);
    StepStarts(trace[i], acts[i], c);
  }

  // ---------------------------------------------------------------------------------------
  // How often
  // ---------------------------------------------------------------------------------------

  /** How often `c` has started before state `i`. */
  ghost function Times(trace: seq<State>, i: nat, c: Call): (n: nat)
    requires i < |trace|
  {
    if i == 0 then 0 else Times(trace, i - 1, c) + if Starts(trace[i - 1], trace[i], c) then 1 else 0
  }

  lemma {:induction false} Counted(trace: seq<State>, i: nat, count: State -> int, c: Call)
    requires i < |trace|
    requires forall k: nat :: k + 1 < |trace| ==>
               count(trace[k + 1]) == count(trace[k]) + One(Starts(trace[k], trace[k + 1], c))
    ensures count(trace[i]) == count(trace[0]) + Times(trace, i, c)
  {
    if i > 0 {
      Counted(trace, i - 1, count, c);
      var k: nat := i - 1;
      assert count(trace[k + 1]) == count(trace[k]) + One(Starts(trace[k], trace[k + 1], c));
    }
  }

  lemma EraseCounts(s: State, t: Tid, p: Peer)
    requires CanErase(s, t)
    ensures DoErase(s, t).disconnects[p] == s.disconnects[p] + One(Calls(s, Erase(t), OnDisconnect(p)))
    ensures DoErase(s, t).inserted == s.inserted
  {
  }

  lemma AddingCounts(s: State, a: Action)
    requires Enabled(s, a) && (a.Accept? || a.AddToEpoll? || a.Insert?)
    ensures Raw(s, a).disconnects == s.disconnects
    ensures Raw(s, a).inserted == s.inserted + if a.Insert? then {s.threads[LOOP].pc.peer} else {}
  {
  }

  lemma RemovingCounts(s: State, a: Action)
    requires Enabled(s, a) && (a.ReadFails? || a.EpollDelete?)
    ensures Raw(s, a).disconnects == s.disconnects && Raw(s, a).inserted == s.inserted
  {
  }

  lemma LookupCounts(s: State)
    requires CanLookup(s)
    ensures DoLookup(s).disconnects == s.disconnects && DoLookup(s).inserted == s.inserted
  {
  }

  lemma ReturnCounts(s: State, t: Tid)
    requires CanReturn(s, t)
    ensures DoReturn(s, t).disconnects == s.disconnects && DoReturn(s, t).inserted == s.inserted
  {
  }

  lemma RawCounts(s: State, a: Action, p: Peer)
    requires Threads(s) && Enabled(s, a)
    ensures Raw(s, a).disconnects[p] == s.disconnects[p] + One(Calls(s, a, OnDisconnect(p)))
    ensures Raw(s, a).inserted == s.inserted + if a.Insert? then {s.threads[LOOP].pc.peer} else {}
  {
    if Unheard(a) { UnheardIsSilent(s, a); }
    else if a.Erase? { EraseCounts(s, a.tid, p); }
    else if a.Accept? || a.AddToEpoll? || a.Insert? { AddingCounts(s, a); }
    else if a.ReadFails? || a.EpollDelete? { RemovingCounts(s, a); }
    else if a.Lookup? { LookupCounts(s); }
    else { ReturnCounts(s, a.tid); }
  }

  lemma ReapCounts(s: State)
    ensures Reap(s).disconnects == s.disconnects && Reap(s).inserted == s.inserted
  {
  }

  lemma StepCounts(trace: seq<State>, acts: seq<Action>, i: nat, p: Peer)
    requires Run(trace, acts) && i < |acts|
    ensures trace[i + 1].disconnects[p] == trace[i].disconnects[p] + One(Starts(trace[i], trace[i + 1], OnDisconnect(p)))
    ensures One(p in trace[i + 1].inserted)
         == One(p in trace[i].inserted) + One(Starts(trace[i], trace[i + 1], OnNewClient(p)))
  {
    var s, a := trace[i], acts[i];
    RunKeeps(trace, acts, i);
    assert StepAt(trace, acts, i);
    CallbacksAsPrescribed(trace, acts, i, OnDisconnect(p));
    CallbacksAsPrescribed(trace, acts, i, OnNewClient(p));
    RawCounts(s, a, p);
    ReapCounts(Raw(s, a));
    if a.Insert? { InsertIsNew(s); }
  }

  /** onDisconnect has started as often as the history says, hence at most once for each peer. */
  lemma DisconnectsAreCalls(trace: seq<State>, acts: seq<Action>, i: nat, p: Peer)
    requires Run(trace, acts) && i < |trace|
    ensures trace[i].disconnects[p] == Times(trace, i, OnDisconnect(p)) <= 1
  {
    RunKeeps(trace, acts, i);
    var count := (s: State) => s.disconnects[p];
    forall k: nat | k + 1 < |trace|
      ensures count(trace[k + 1]) == count(trace[k]) + One(Starts(trace[k], trace[k + 1], OnDisconnect(p)))
    {
      StepCounts(trace, acts, k, p);
    }
    Counted(trace, i, count, OnDisconnect(p));
  }

  lemma InsertIsNew(s: State)
    requires Core(s) && CanInsert(s)
    ensures s.threads[LOOP].pc.peer !in s.inserted
  {
    LoopIsBusy(s);
    InsertIsFresh(s);
  }

  /** onNewClient has started once for each peer that was ever inserted, and never for another. */
  lemma InsertsAreCalls(trace: seq<State>, acts: seq<Action>, i: nat, p: Peer)
    requires Run(trace, acts) && i < |trace|
    ensures Times(trace, i, OnNewClient(p)) == if p in trace[i].inserted then 1 else 0
  {
    var count := (s: State) => One(p in s.inserted) as int;
    forall k: nat | k + 1 < |trace|
      ensures count(trace[k + 1]) == count(trace[k]) + One(Starts(trace[k], trace[k + 1], OnNewClient(p)))
    {
      StepCounts(trace, acts, k, p);
    }
    Counted(trace, i, count, OnNewClient(p));
  }

  /** What OneFatePerPeer says of the history, said of the callbacks: each peer has one of each at most. */
  lemma OneCallbackEach(trace: seq<State>, acts: seq<Action>, i: nat, p: Peer)
    requires Run(trace, acts) && i < |trace|
    ensures Times(trace, i, OnDisconnect(p)) <= Times(trace, i, OnNewClient(p)) <= 1
    ensures Times(trace, i, OnDisconnect(p)) == 1 ==> !InRegistry(trace[i], p)
  {
    RunKeeps(trace, acts, i);
    DisconnectsAreCalls(trace, acts, i, p);
    InsertsAreCalls(trace, acts, i, p);
  }
}
