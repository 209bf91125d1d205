/**
 * Runs that do happen: an event whose peer is gone when it is looked up, and one whose
 * descriptor belongs to another peer by then.
 */
module ServerScenarios {
  import opened ServerModel
  import opened ServerInvariant

  ghost predicate Reaches(trace: seq<State>, acts: seq<Action>, s: State) {
    Run(trace, acts) && trace[|trace| - 1] == s
  }

  lemma ReapIfNoneDead(s: State, dead: set<Fd>)
    requires dead == set f | f in s.open && !Referenced(s, s.open[f])
    ensures dead == {} ==> Reap(s) == s
  {
    var gone := set f | f in dead :: s.open[f];
    if dead == {} {
      assert gone == {};
      assert (map f | f in s.open && f !in dead :: s.open[f]) == s.open;
    }
  }

  lemma ReapNothing(s: State)
    requires NoLeak(s)
    ensures Reap(s) == s
  {
    var dead := set f | f in s.open && !Referenced(s, s.open[f]);
    assert dead == {};
    ReapIfNoneDead(s, dead);
  }

  lemma Extend(trace: seq<State>, acts: seq<Action>, s: State, a: Action)
    returns (trace': seq<State>, acts': seq<Action>)
    requires Reaches(trace, acts, s) && Enabled(s, a)
    ensures Reaches(trace', acts', Apply(s, a))
  {
    trace', acts' := trace + [Apply(s, a)], acts + [a];
    forall i: nat | i < |acts'| ensures StepAt(trace', acts', i) {
      assert i < |acts| ==> StepAt(trace, acts, i);
    }
  }

  /** A step after which every open descriptor still has a reference. */
  lemma Go(trace: seq<State>, acts: seq<Action>, s: State, a: Action, s': State)
    returns (trace': seq<State>, acts': seq<Action>)
    requires Reaches(trace, acts, s) && Enabled(s, a) && Raw(s, a) == s' && NoLeak(s')
    ensures Reaches(trace', acts', s')
  {
    ReapNothing(s');
    trace', acts' := Extend(trace, acts, s, a);
  }

  // ---------------------------------------------------------------------------------------
  // The actors
  // ---------------------------------------------------------------------------------------

  const LISTENER: Fd := 3
  const FD: Fd := 5
  const FIRST: Peer := 1
  const SECOND: Peer := 2
  const USER: Tid := 1

  const IDLE := Thread([], Running)

  /** The listener has something to accept; the owner of this event does not matter. */
  const KNOCK := Event(LISTENER, true, 0)

  /** Data for the first peer. */
  const DATA := Event(FD, true, FIRST)

  ghost function Started(): (r: State) {
    State(LISTENER, map[], {LISTENER}, map[], map[], {}, map[LOOP := IDLE, USER := IDLE], Testing, true,
          Control.Started, 1, 1, {}, {}, multiset{}, {}, multiset{}, 0, 1)
  }

  /** One client is registered, and user code keeps a pointer to it. */
  ghost function Connected(): (r: State) {
    Started().(open := map[FD := FIRST], interest := {LISTENER, FD}, fdOf := map[FIRST := FD],
               registry := map[FD := FIRST], userRefs := {FIRST}, bufSize := 2, inserted := {FIRST}, peak := 2)
  }

  ghost function Reported(batch: seq<Event>): (r: State) {
    Connected().(loop := Dispatching(batch, 0), bufSize := if |batch| == 2 then 4 else 2)
  }

  /** The user thread has removed the client meanwhile and runs its callback. */
  ghost function Removed(batch: seq<Event>): (r: State) {
    Reported(batch).(interest := {LISTENER}, registry := map[], deleted := {FIRST}, disconnects := multiset{FIRST},
                     threads := map[LOOP := IDLE, USER := Thread([OnDisconnect(FIRST)], Running)])
  }

  /** The last pointer is gone and the descriptor closed. */
  ghost function Closed(batch: seq<Event>): (r: State) {
    Removed(batch).(open := map[], userRefs := {}, closed := multiset{FIRST},
                    threads := map[LOOP := IDLE, USER := IDLE])
  }

  // ---------------------------------------------------------------------------------------
  // The common beginning
  // ---------------------------------------------------------------------------------------

  lemma StartRun() returns (trace: seq<State>, acts: seq<Action>)
    ensures Reaches(trace, acts, Started())
  {
    var s := Started().(interest := {}, loop := NotStarted, flag := false, control := Starting, peak := 0);
    trace, acts := [s], [];
    var s1 := Started().(loop := EpollReady, flag := false, control := Starting);
    trace, acts := Go(trace, acts, s, InitEpoll(true), s1);
    var s2 := Started().(control := Starting);
    trace, acts := Go(trace, acts, s1, RaiseFlag, s2);
    trace, acts := Go(trace, acts, s2, StartSucceeds, Started());
  }

  ghost function Accepting(pc: Pc): (r: State) {
    Started().(open := map[FD := FIRST], fdOf := map[FIRST := FD], loop := Dispatching([KNOCK], 0), bufSize := 2,
               threads := map[LOOP := Thread([], pc), USER := IDLE])
  }

  ghost function Welcoming(): (r: State) {
    Connected().(userRefs := {}, loop := Dispatching([KNOCK], 0),
                 threads := map[LOOP := Thread([OnNewClient(FIRST)], Running), USER := IDLE])
  }

  lemma Held(s: State, t: Tid)
    requires s.open == map[FD := FIRST] && t in s.threads && Holds(s.threads[t], FIRST)
    ensures NoLeak(s)
  {
  }

  lemma KnockRun() returns (trace: seq<State>, acts: seq<Action>)
    ensures Reaches(trace, acts, Started().(loop := Dispatching([KNOCK], 0), bufSize := 2))
  {
    trace, acts := StartRun();
    var s1 := Started().(loop := Polling);
    trace, acts := Go(trace, acts, Started(), TestFlag, s1);
    var s2 := Started().(loop := Dispatching([KNOCK], 0), bufSize := 2);
    trace, acts := Go(trace, acts, s1, EpollWait(false, [KNOCK]), s2);
  }

  lemma AcceptRun() returns (trace: seq<State>, acts: seq<Action>)
    ensures Reaches(trace, acts, Accepting(Accepted(FIRST)))
  {
    trace, acts := KnockRun();
    Held(Accepting(Accepted(FIRST)), LOOP);
    var s := Started().(loop := Dispatching([KNOCK], 0), bufSize := 2);
    trace, acts := Go(trace, acts, s, Accept(FIRST, FD), Accepting(Accepted(FIRST)));
  }

  lemma PolledRun() returns (trace: seq<State>, acts: seq<Action>)
    ensures Reaches(trace, acts, Accepting(Polled(FIRST)).(interest := {LISTENER, FD}, peak := 2))
  {
    trace, acts := AcceptRun();
    var s' := Accepting(Polled(FIRST)).(interest := {LISTENER, FD}, peak := 2);
    Held(s', LOOP);
    assert {LISTENER} + {FD} == {LISTENER, FD} && |{LISTENER, FD}| == 2;
    trace, acts := Go(trace, acts, Accepting(Accepted(FIRST)), AddToEpoll(true), s');
  }

  lemma ConnectRun() returns (trace: seq<State>, acts: seq<Action>)
    ensures Reaches(trace, acts, Welcoming())
  {
    trace, acts := PolledRun();
    assert Welcoming().threads[LOOP].calls[0].peer == FIRST;
    assert InCall(Welcoming().threads[LOOP], FIRST);
    Held(Welcoming(), LOOP);
    assert {} + {FIRST} == {FIRST} && [] + [OnNewClient(FIRST)] == [OnNewClient(FIRST)];
    trace, acts := Go(trace, acts, Accepting(Polled(FIRST)).(interest := {LISTENER, FD}, peak := 2), Insert, Welcoming());
  }

  lemma Kept(s: State)
    requires s.open == map[FD := FIRST] && FIRST in s.userRefs
    ensures NoLeak(s)
  {
  }

  lemma ShareRun() returns (trace: seq<State>, acts: seq<Action>)
    ensures Reaches(trace, acts, Welcoming().(userRefs := {FIRST}))
  {
    trace, acts := ConnectRun();
    assert Welcoming().threads[LOOP].calls[0] == OnNewClient(FIRST);
    assert {} + {FIRST} == {FIRST};
    Kept(Welcoming().(userRefs := {FIRST}));
    trace, acts := Go(trace, acts, Welcoming(), Share(FIRST), Welcoming().(userRefs := {FIRST}));
  }

  lemma ServedRun() returns (trace: seq<State>, acts: seq<Action>)
    ensures Reaches(trace, acts, Connected().(loop := Dispatching([KNOCK], 1)))
  {
    trace, acts := ShareRun();
    var s := Connected().(loop := Dispatching([KNOCK], 1));
    Kept(s);
    trace, acts := Go(trace, acts, Welcoming().(userRefs := {FIRST}), Return(LOOP), s);
  }

  lemma PollRun() returns (trace: seq<State>, acts: seq<Action>)
    ensures Reaches(trace, acts, Connected().(loop := Polling))
  {
    trace, acts := ServedRun();
    Kept(Connected());
    trace, acts := Go(trace, acts, Connected().(loop := Dispatching([KNOCK], 1)), EndBatch, Connected());
    Kept(Connected().(loop := Polling));
    trace, acts := Go(trace, acts, Connected(), TestFlag, Connected().(loop := Polling));
  }

  lemma ReportRun(batch: seq<Event>) returns (trace: seq<State>, acts: seq<Action>)
    requires batch == [DATA] || batch == [KNOCK, DATA]
    ensures Reaches(trace, acts, Reported(batch))
  {
    trace, acts := PollRun();
    Kept(Reported(batch));
    trace, acts := Go(trace, acts, Connected().(loop := Polling), EpollWait(false, batch), Reported(batch));
  }

  /** The user thread between two accesses of its removal. */
  ghost function Removal(batch: seq<Event>, pc: Pc): (r: State) {
    Reported(batch).(threads := map[LOOP := IDLE, USER := Thread([], pc)])
  }

  lemma DeleteRun(batch: seq<Event>) returns (trace: seq<State>, acts: seq<Action>)
    requires batch == [DATA] || batch == [KNOCK, DATA]
    ensures Reaches(trace, acts, Removal(batch, Erasing(FIRST)).(interest := {LISTENER}, deleted := {FIRST}))
  {
    trace, acts := ReportRun(batch);
    Kept(Removal(batch, Deleting(FIRST)));
    trace, acts := Go(trace, acts, Reported(batch), ReadFails(USER, FIRST), Removal(batch, Deleting(FIRST)));
    var s' := Removal(batch, Erasing(FIRST)).(interest := {LISTENER}, deleted := {FIRST});
    Kept(s');
    assert {LISTENER, FD} - {FD} == {LISTENER};
    trace, acts := Go(trace, acts, Removal(batch, Deleting(FIRST)), EpollDelete(USER), s');
  }

  lemma RemoveRun(batch: seq<Event>) returns (trace: seq<State>, acts: seq<Action>)
    requires batch == [DATA] || batch == [KNOCK, DATA]
    ensures Reaches(trace, acts, Removed(batch))
  {
    trace, acts := DeleteRun(batch);
    var s := Removal(batch, Erasing(FIRST)).(interest := {LISTENER}, deleted := {FIRST});
    Kept(Removed(batch));
    assert s.registry - {FD} == map[] && s.disconnects + multiset{FIRST} == multiset{FIRST};
    assert [] + [OnDisconnect(FIRST)] == [OnDisconnect(FIRST)];
    trace, acts := Go(trace, acts, s, Erase(USER), Removed(batch));
  }

  // ---------------------------------------------------------------------------------------
  // The scenarios
  // ---------------------------------------------------------------------------------------

  /** A lookup can miss: another thread has removed the peer since epoll_wait reported it. */
  lemma LookupCanMiss() returns (trace: seq<State>, acts: seq<Action>)
    ensures Run(trace, acts) && CanLookup(trace[|trace| - 1])
    ensures CurrentEvent(trace[|trace| - 1]).fd !in trace[|trace| - 1].registry
  {
    trace, acts := RemoveRun([DATA]);
  }

  ghost function Replacing(pc: Pc): (r: State) {
    Closed([KNOCK, DATA]).(open := map[FD := SECOND], fdOf := map[FIRST := FD, SECOND := FD],
                           threads := map[LOOP := Thread([], pc), USER := IDLE])
  }

  ghost function Replaced(calls: seq<Call>, next: nat): (r: State) {
    Replacing(Running).(interest := {LISTENER, FD}, registry := map[FD := SECOND], inserted := {FIRST, SECOND},
                        loop := Dispatching([KNOCK, DATA], next),
                        threads := map[LOOP := Thread(calls, Running), USER := IDLE])
  }

  lemma CloseRun() returns (trace: seq<State>, acts: seq<Action>)
    ensures Reaches(trace, acts, Closed([KNOCK, DATA]))
  {
    var batch := [KNOCK, DATA];
    trace, acts := RemoveRun(batch);
    var s1 := Removed(batch).(threads := map[LOOP := IDLE, USER := IDLE]);
    Kept(s1);
    trace, acts := Go(trace, acts, Removed(batch), Return(USER), s1);
    trace, acts := Extend(trace, acts, s1, Forget(FIRST));
    LastPointer(s1);
  }

  lemma NobodyHolds(r: State)
    requires r.userRefs == {} && r.registry == map[] && r.threads == map[LOOP := IDLE, USER := IDLE]
    ensures !Referenced(r, FIRST)
  {
  }

  lemma OnlyFirstIsDead(r: State, dead: set<Fd>)
    requires r.open == map[FD := FIRST] && !Referenced(r, FIRST)
    requires dead == set f | f in r.open && !Referenced(r, r.open[f])
    ensures dead == {FD}
  {
  }

  lemma OnlyFirstIsGone(open: map<Fd, Peer>, dead: set<Fd>)
    requires open == map[FD := FIRST] && dead == {FD}
    ensures (set f | f in dead :: open[f]) == {FIRST}
    ensures (map f | f in open && f !in dead :: open[f]) == map[]
  {
  }

  lemma ReapFirst(r: State)
    requires r.open == map[FD := FIRST] && !Referenced(r, FIRST)
    ensures Reap(r) == r.(open := map[], interest := r.interest - {FD}, closed := r.closed + multiset{FIRST})
  {
    var dead := set f | f in r.open && !Referenced(r, r.open[f]);
    OnlyFirstIsDead(r, dead);
    OnlyFirstIsGone(r.open, dead);
  }

  lemma LastPointer(s: State)
    requires s == Removed([KNOCK, DATA]).(threads := map[LOOP := IDLE, USER := IDLE])
    ensures Enabled(s, Forget(FIRST)) && Apply(s, Forget(FIRST)) == Closed([KNOCK, DATA])
  {
    var r := Raw(s, Forget(FIRST));
    assert r.userRefs == {};
    NobodyHolds(r);
    ReapFirst(r);
    assert {LISTENER} - {FD} == {LISTENER} && multiset{} + multiset{FIRST} == multiset{FIRST};
  }

  lemma HeldBySecond(s: State)
    requires s.open == map[FD := SECOND]
    requires (LOOP in s.threads && Holds(s.threads[LOOP], SECOND)) || (FD in s.registry && s.registry[FD] == SECOND)
    ensures NoLeak(s)
  {
  }

  lemma ReacceptRun() returns (trace: seq<State>, acts: seq<Action>)
    ensures Reaches(trace, acts, Replacing(Accepted(SECOND)))
  {
    trace, acts := CloseRun();
    HeldBySecond(Replacing(Accepted(SECOND)));
    trace, acts := Go(trace, acts, Closed([KNOCK, DATA]), Accept(SECOND, FD), Replacing(Accepted(SECOND)));
  }

  lemma RepollRun() returns (trace: seq<State>, acts: seq<Action>)
    ensures Reaches(trace, acts, Replacing(Polled(SECOND)).(interest := {LISTENER, FD}))
  {
    trace, acts := ReacceptRun();
    var s' := Replacing(Polled(SECOND)).(interest := {LISTENER, FD});
    HeldBySecond(s');
    assert {LISTENER} + {FD} == {LISTENER, FD} && |{LISTENER, FD}| == 2;
    trace, acts := Go(trace, acts, Replacing(Accepted(SECOND)), AddToEpoll(true), s');
  }

  lemma ReinsertRun() returns (trace: seq<State>, acts: seq<Action>)
    ensures Reaches(trace, acts, Replaced([OnNewClient(SECOND)], 0))
  {
    trace, acts := RepollRun();
    var s := Replacing(Polled(SECOND)).(interest := {LISTENER, FD});
    HeldBySecond(Replaced([OnNewClient(SECOND)], 0));
    assert [] + [OnNewClient(SECOND)] == [OnNewClient(SECOND)] && {FIRST} + {SECOND} == {FIRST, SECOND};
    trace, acts := Go(trace, acts, s, Insert, Replaced([OnNewClient(SECOND)], 0));
  }

  lemma ReplaceRun() returns (trace: seq<State>, acts: seq<Action>)
    ensures Reaches(trace, acts, Replaced([], 1))
  {
    trace, acts := ReinsertRun();
    HeldBySecond(Replaced([], 1));
    trace, acts := Go(trace, acts, Replaced([OnNewClient(SECOND)], 0), Return(LOOP), Replaced([], 1));
  }

  /** A lookup can find the wrong peer: the number was closed and accepted again within the batch. */
  lemma LookupCanFindAnother() returns (trace: seq<State>, acts: seq<Action>)
    ensures Run(trace, acts) && CanLookup(trace[|trace| - 1])
    ensures var s, e := trace[|trace| - 1], CurrentEvent(trace[|trace| - 1]);
            e.fd in s.registry && s.registry[e.fd] != e.owner
  {
    trace, acts := ReplaceRun();
  }
}
