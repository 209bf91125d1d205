/**
 * The history the invariant keeps is what the steps of the run show: descriptors closed, clients
 * dropped, waits after the stop, full batches.
 */
module ServerHistory {
  import opened Common
  import opened ServerModel
  import opened ServerInvariant
  import opened ServerSteps
  import opened ServerPeerSteps
  import opened ServerRemoval

  // ---------------------------------------------------------------------------------------
  // What a step adds to the history
  // ---------------------------------------------------------------------------------------

  ghost predicate Steady(s: State, s': State) {
    && s'.open == s.open && s'.fdOf == s.fdOf && s'.closed == s.closed && s'.dropped == s.dropped
    && s'.waitsAfterStop == s.waitsAfterStop && s'.bufSize == s.bufSize && s'.listenMax == s.listenMax
  }

  ghost predicate Telling(a: Action) {
    a.EpollWait? || a.Accept? || a.Clear?
  }

  lemma LoopIsSteady(s: State, a: Action)
    requires Enabled(s, a) && LoopMove(a) && !a.EpollWait?
    ensures Steady(s, Raw(s, a))
  {
  }

  lemma SetUpIsSteady(s: State, ok: bool)
    requires s.loop == NotStarted
    ensures Steady(s, DoInitEpoll(s, ok))
  {
  }

  lemma PointerIsSteady(s: State, a: Action)
    requires Enabled(s, a) && (a.Share? || a.Forget?)
    ensures Steady(s, Raw(s, a))
  {
  }

  lemma AddingIsSteady(s: State, a: Action)
    requires Enabled(s, a) && (a.AddToEpoll? || a.Insert?)
    ensures Steady(s, Raw(s, a))
  {
  }

  lemma LookupIsSteady(s: State)
    requires CanLookup(s)
    ensures Steady(s, DoLookup(s))
  {
  }

  lemma ReturnIsSteady(s: State, t: Tid)
    requires CanReturn(s, t)
    ensures Steady(s, DoReturn(s, t))
  {
  }

  lemma RemovalIsSteady(s: State, a: Action)
    requires Enabled(s, a) && (a.ReadFails? || a.EpollDelete?)
    ensures Steady(s, Raw(s, a))
  {
  }

  lemma EraseIsSteady(s: State, t: Tid)
    requires CanErase(s, t)
    ensures Steady(s, DoErase(s, t))
  {
  }

  lemma OthersAreSteady(s: State, a: Action)
    requires Enabled(s, a) && !Telling(a)
    ensures Steady(s, Raw(s, a))
  {
    if LoopMove(a) { LoopIsSteady(s, a); }
    else if ControlMove(a) { ControlOnly(s, a); }
    else if a.InitEpoll? { SetUpIsSteady(s, a.ok); }
    else if a.Share? || a.Forget? { PointerIsSteady(s, a); }
    else if a.AddToEpoll? || a.Insert? { AddingIsSteady(s, a); }
    else if a.Lookup? { LookupIsSteady(s); }
    else if a.Return? { ReturnIsSteady(s, a.tid); }
    else if a.Erase? { EraseIsSteady(s, a.tid); }
    else { RemovalIsSteady(s, a); }
  }

  ghost predicate WaitsLate(s: State, a: Action) {
    a.EpollWait? && (s.control.Stopping? || s.control.Stopped?)
  }

  /** epoll_wait has filled the buffer. */
  ghost predicate FillsBuffer(s: State, a: Action) {
    a.EpollWait? && !a.failed && a.ready != [] && |a.ready| == s.bufSize
  }

  lemma StepTells(s: State, a: Action)
    requires Enabled(s, a)
    ensures var s' := Apply(s, a);
            && s'.waitsAfterStop == s.waitsAfterStop + One(WaitsLate(s, a))
            && s'.listenMax == s.listenMax && s'.bufSize == (if FillsBuffer(s, a) then 2 * s.bufSize else s.bufSize)
            && s'.dropped == s.dropped + (if a == Clear then s.registry.Values else {})
  {
    if !Telling(a) { OthersAreSteady(s, a); }
  }

  lemma RunTells(trace: seq<State>, acts: seq<Action>, i: nat)
    requires Run(trace, acts) && i < |acts|
    ensures var s, a, s' := trace[i], acts[i], trace[i + 1];
            && s'.waitsAfterStop == s.waitsAfterStop + One(WaitsLate(s, a))
            && s'.listenMax == s.listenMax && s'.bufSize == (if FillsBuffer(s, a) then 2 * s.bufSize else s.bufSize)
            && s'.dropped == s.dropped + (if a == Clear then s.registry.Values else {})
  {
    assert StepAt(trace, acts, i);
    StepTells(trace[i], acts[i]);
  }

  // ---------------------------------------------------------------------------------------
  // Waits, buffer, clients dropped
  // ---------------------------------------------------------------------------------------

  /** How many of the first `i` steps were calls of epoll_wait after the stop. */
  ghost function LateWaits(trace: seq<State>, acts: seq<Action>, i: nat): (n: nat)
    requires i <= |acts| < |trace|
  {
    if i == 0 then 0 else LateWaits(trace, acts, i - 1) + One(WaitsLate(trace[i - 1], acts[i - 1]))
  }

  /** At most one call of epoll_wait happens after the stop, counted on the steps themselves. */
  lemma {:induction false} LateWaitsAreCounted(trace: seq<State>, acts: seq<Action>, i: nat)
    requires Run(trace, acts) && i < |trace|
    ensures trace[i].waitsAfterStop == LateWaits(trace, acts, i)
  {
    if i > 0 {
      LateWaitsAreCounted(trace, acts, i - 1);
      RunTells(trace, acts, i - 1);
    }
  }

  lemma OneLateWait(trace: seq<State>, acts: seq<Action>, i: nat)
    requires Run(trace, acts) && i < |trace|
    ensures LateWaits(trace, acts, i) <= 1
  {
    RunKeeps(trace, acts, i);
    LateWaitsAreCounted(trace, acts, i);
  }

  /** How many of the first `i` steps filled the buffer. */
  ghost function FullBatches(trace: seq<State>, acts: seq<Action>, i: nat): (n: nat)
    requires i <= |acts| < |trace|
  {
    if i == 0 then 0 else FullBatches(trace, acts, i - 1) + One(FillsBuffer(trace[i - 1], acts[i - 1]))
  }

  lemma Doubled(m: nat, k: nat)
    ensures 2 * (m * Pow2(k)) == m * Pow2(k + 1)
  {
  }

  /** The buffer doubles for every batch that filled it and at no other time. */
  lemma {:induction false} BufferDoublesWhenFull(trace: seq<State>, acts: seq<Action>, i: nat)
    requires Run(trace, acts) && i < |trace|
    ensures trace[i].listenMax == trace[0].listenMax
    ensures trace[i].bufSize == trace[0].listenMax * Pow2(FullBatches(trace, acts, i))
  {
    if i > 0 {
      BufferDoublesWhenFull(trace, acts, i - 1);
      RunTells(trace, acts, i - 1);
      Doubled(trace[0].listenMax, FullBatches(trace, acts, i - 1));
    }
  }

  ghost predicate ClearedAt(trace: seq<State>, acts: seq<Action>, k: nat, p: Peer) {
    k < |acts| && k < |trace| && acts[k] == Clear && p in trace[k].registry.Values
  }

  /** A client is dropped exactly if the registry held it when it was cleared. */
  lemma {:induction false} DroppedAtClear(trace: seq<State>, acts: seq<Action>, i: nat, p: Peer)
    requires Run(trace, acts) && i < |trace|
    ensures p in trace[i].dropped <==> exists k: nat :: k < i && ClearedAt(trace, acts, k, p)
  {
    if i > 0 {
      var last := i - 1;
      DroppedAtClear(trace, acts, last, p);
      RunTells(trace, acts, last);
      if acts[last] == Clear && p in trace[last].registry.Values { assert ClearedAt(trace, acts, last, p); }
    }
  }

  // ---------------------------------------------------------------------------------------
  // Descriptors closed
  // ---------------------------------------------------------------------------------------

  /** The descriptor of `p` is open before the step and not after it. */
  ghost predicate Closes(s: State, s': State, p: Peer) {
    Alive(s, p) && !Alive(s', p)
  }

  ghost function Closings(trace: seq<State>, i: nat, p: Peer): (n: nat)
    requires i < |trace|
  {
    if i == 0 then 0 else Closings(trace, i - 1, p) + One(Closes(trace[i - 1], trace[i], p))
  }

  lemma AcceptedIsHeld(s: State, p: Peer, f: Fd)
    requires CanAccept(s, p, f)
    ensures Referenced(DoAccept(s, p, f), p) && DoAccept(s, p, f).closed == s.closed
    ensures forall q :: q != p && Kernel(s) ==> (Alive(DoAccept(s, p, f), q) <==> Alive(s, q))
  {
    assert Holds(DoAccept(s, p, f).threads[LOOP], p);
  }

  lemma TellingAlive(s: State, a: Action, p: Peer)
    requires Kernel(s) && Enabled(s, a) && (a.EpollWait? || a.Clear?)
    ensures Raw(s, a).closed == s.closed && (Alive(Raw(s, a), p) <==> Alive(s, p))
  {
  }

  lemma RawAlive(s: State, a: Action, p: Peer)
    requires Kernel(s) && Enabled(s, a)
    ensures var r := Raw(s, a);
            r.closed == s.closed && ((Alive(r, p) <==> Alive(s, p)) || (!Alive(s, p) && Referenced(r, p)))
  {
    if a.Accept? { AcceptedIsHeld(s, a.peer, a.fd); }
    else if Telling(a) { TellingAlive(s, a, p); }
    else { OthersAreSteady(s, a); }
  }

  lemma StepCloses(trace: seq<State>, acts: seq<Action>, i: nat, p: Peer)
    requires Run(trace, acts) && i < |acts|
    ensures trace[i + 1].closed[p] == trace[i].closed[p] + One(Closes(trace[i], trace[i + 1], p))
  {
    RunKeeps(trace, acts, i);
    assert StepAt(trace, acts, i);
    var r := Raw(trace[i], acts[i]);
    RawKeeps(trace[i], acts[i]);
    RawAlive(trace[i], acts[i], p);
    ReapCloses(r, p);
    ReapAlive(r, p);
  }

  /** `closed` counts the steps in which the descriptor really goes from open to closed. */
  lemma {:induction false} ClosedIsCounted(trace: seq<State>, acts: seq<Action>, i: nat, p: Peer)
    requires Run(trace, acts) && i < |trace|
    ensures trace[i].closed[p] == Closings(trace, i, p)
  {
    if i > 0 {
      ClosedIsCounted(trace, acts, i - 1, p);
      StepCloses(trace, acts, i - 1, p);
    }
  }
}
