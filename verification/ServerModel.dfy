/**
 * The JTCP server while one epoll thread and any number of user threads work on it, as a
 * state machine whose steps are the atomic accesses of the code: one epoll_ctl call, one
 * critical section under `m_client_mgr_mutex`, one read or write of `m_run_flag`, the call
 * of a callback and its return.
 *
 * The environment is assumed to behave like the kernel: accept returns a descriptor that is
 * not open, EPOLL_CTL_DEL succeeds exactly on registered descriptors, epoll_wait reports
 * registered descriptors and each at most once, closing a descriptor unregisters it. User
 * code holds a shared pointer to every peer on which it calls readData outside a callback.
 */
module ServerModel {
  import opened Common

  type Fd = nat

  /** The identity of a TCPPeerClient, which is also that of the one FileDescribe it owns. */
  type Peer = nat

  type Tid = nat

  /** The thread that runs acceptThreadFunc. */
  const LOOP: Tid := 0

  /** A user callback on the stack of a thread, with the peer the server holds for it. */
  datatype Call = OnNewClient(peer: Peer) | OnRecvData(peer: Peer) | OnDisconnect(peer: Peer)

  /** Where a thread stands between two atomic accesses; `peer` is the local it works on. */
  datatype Pc =
    | Running
    | Accepted(peer: Peer)   // handleNewClientConnect, before EPOLL_CTL_ADD
    | Polled(peer: Peer)     // handleNewClientConnect, before the insert
    | Deleting(peer: Peer)   // delClient, before EPOLL_CTL_DEL
    | Erasing(peer: Peer)    // delClient, before the erase

  datatype Thread = Thread(calls: seq<Call>, pc: Pc)

  /** An epoll event; `owner` is the peer whose descriptor it was when epoll_wait reported it. */
  datatype Event = Event(fd: Fd, readable: bool, owner: Peer)

  datatype LoopPc =
    | NotStarted
    | EpollReady
    | Testing
    | Polling
    | Dispatching(events: seq<Event>, next: nat)
    | Draining
    | Finished(ok: bool)

  /** The thread that calls start and later stop. */
  datatype Control = Starting | StartFailed(ok: bool) | Started | Stopping | Stopped(ok: bool)

  datatype State = State(
    // the kernel
    listener: Fd,
    open: map<Fd, Peer>,
    interest: set<Fd>,
    // the program
    fdOf: map<Peer, Fd>,
    registry: map<Fd, Peer>,
    userRefs: set<Peer>,
    threads: map<Tid, Thread>,
    loop: LoopPc,
    flag: bool,
    control: Control,
    listenMax: nat,
    bufSize: nat,
    // what has happened so far
    inserted: set<Peer>,
    deleted: set<Peer>,
    disconnects: multiset<Peer>,
    dropped: set<Peer>,
    closed: multiset<Peer>,
    waitsAfterStop: nat,
    peak: nat
  )

  ghost predicate Init(s: State) {
    && s.open == map[] && s.interest == {} && s.fdOf == map[] && s.registry == map[] && s.userRefs == {}
    && LOOP in s.threads && (forall t :: t in s.threads ==> s.threads[t] == Thread([], Running))
    && s.loop == NotStarted && !s.flag && s.control == Starting
    && s.listenMax > 0 && s.bufSize == s.listenMax
    && s.inserted == {} && s.deleted == {} && s.dropped == {}
    && s.disconnects == multiset{} && s.closed == multiset{}
    && s.waitsAfterStop == 0 && s.peak == 0
  }

  // ---------------------------------------------------------------------------------------
  // References
  // ---------------------------------------------------------------------------------------

  ghost predicate InCall(th: Thread, p: Peer) {
    exists i :: 0 <= i < |th.calls| && th.calls[i].peer == p
  }

  ghost predicate Holds(th: Thread, p: Peer) {
    (th.pc != Running && th.pc.peer == p) || InCall(th, p)
  }

  /** Some shared pointer to `p` exists: in user code, in the registry, or in a local. */
  ghost predicate Referenced(s: State, p: Peer) {
    || p in s.userRefs
    || (exists f :: f in s.registry && s.registry[f] == p)
    || (exists t :: t in s.threads && Holds(s.threads[t], p))
  }

  /** Peers that lost their last reference are destroyed, and each closes its descriptor. */
  ghost function Reap(s: State): (s': State) {
    var dead := set f | f in s.open && !Referenced(s, s.open[f]);
    s.(open := map f | f in s.open && f !in dead :: s.open[f],
       interest := s.interest - dead,
       closed := s.closed + multiset(set f | f in dead :: s.open[f]))
  }

  // ---------------------------------------------------------------------------------------
  // Steps
  // ---------------------------------------------------------------------------------------

  datatype Action =
    | InitEpoll(ok: bool)
    | RaiseFlag
    | TestFlag
    | EpollWait(failed: bool, ready: seq<Event>)
    | EndBatch
    | AcceptFails
    | Accept(peer: Peer, fd: Fd)
    | AddToEpoll(ok: bool)
    | Insert
    | SkipEvent
    | Lookup
    | ReadFails(tid: Tid, peer: Peer)
    | EpollDelete(tid: Tid)
    | Erase(tid: Tid)
    | Return(tid: Tid)
    | Share(peer: Peer)
    | Forget(peer: Peer)
    | Clear
    | StartSucceeds
    | StartGetsFuture
    | Stop
    | StopGetsFuture

  ghost predicate LoopIdle(s: State) {
    LOOP in s.threads && s.threads[LOOP] == Thread([], Running)
  }

  /** The loop is about to handle an event of its batch. */
  ghost predicate AtEvent(s: State) {
    LoopIdle(s) && s.loop.Dispatching? && s.loop.next < |s.loop.events|
  }

  ghost function CurrentEvent(s: State): (r: Event)
    requires s.loop.Dispatching? && s.loop.next < |s.loop.events|
  {
    s.loop.events[s.loop.next]
  }

  ghost predicate PossibleBatch(s: State, ready: seq<Event>) {
    && |ready| <= s.bufSize
    && (forall i, j :: 0 <= i < j < |ready| ==> ready[i].fd != ready[j].fd)
    && (forall i :: 0 <= i < |ready| ==> ready[i].fd in s.interest)
    && (forall i :: 0 <= i < |ready| && ready[i].fd != s.listener ==>
          ready[i].fd in s.open && ready[i].owner == s.open[ready[i].fd])
  }

  ghost predicate CanAccept(s: State, p: Peer, f: Fd) {
    AtEvent(s) && CurrentEvent(s).fd == s.listener && p !in s.fdOf && f !in s.open && f != s.listener
  }

  ghost predicate CanAdd(s: State, ok: bool) {
    && LOOP in s.threads && s.threads[LOOP].pc.Accepted? && s.threads[LOOP].pc.peer in s.fdOf
    && (ok ==> s.fdOf[s.threads[LOOP].pc.peer] !in s.interest)
  }

  ghost predicate CanInsert(s: State) {
    LOOP in s.threads && s.threads[LOOP].pc.Polled? && s.threads[LOOP].pc.peer in s.fdOf
  }

  ghost predicate CanLookup(s: State) {
    AtEvent(s) && CurrentEvent(s).fd != s.listener && CurrentEvent(s).readable
  }

  /** Outside the loop thread user code runs at any time, on the loop thread inside callbacks only. */
  ghost predicate CanRead(s: State, t: Tid, p: Peer) {
    && t in s.threads && s.threads[t].pc == Running && (t == LOOP ==> s.threads[t].calls != [])
    && (p in s.userRefs || InCall(s.threads[t], p))
  }

  ghost predicate CanDelete(s: State, t: Tid) {
    t in s.threads && s.threads[t].pc.Deleting? && s.threads[t].pc.peer in s.fdOf
  }

  ghost predicate CanErase(s: State, t: Tid) {
    t in s.threads && s.threads[t].pc.Erasing? && s.threads[t].pc.peer in s.fdOf
  }

  ghost predicate CanReturn(s: State, t: Tid) {
    t in s.threads && s.threads[t].pc == Running && s.threads[t].calls != []
  }

  ghost predicate CanShare(s: State, p: Peer) {
    LOOP in s.threads
    && exists i :: 0 <= i < |s.threads[LOOP].calls| && s.threads[LOOP].calls[i] == OnNewClient(p)
  }

  ghost predicate Enabled(s: State, a: Action) {
    match a
    case InitEpoll(_) => s.loop == NotStarted
    case RaiseFlag => s.loop == EpollReady
    case TestFlag => s.loop == Testing
    case EpollWait(failed, ready) => s.loop == Polling && (!failed ==> PossibleBatch(s, ready))
    case EndBatch => LoopIdle(s) && s.loop.Dispatching? && s.loop.next == |s.loop.events|
    case AcceptFails => AtEvent(s) && CurrentEvent(s).fd == s.listener
    case Accept(p, f) => CanAccept(s, p, f)
    case AddToEpoll(ok) => CanAdd(s, ok)
    case Insert => CanInsert(s)
    case SkipEvent => AtEvent(s) && CurrentEvent(s).fd != s.listener && !CurrentEvent(s).readable
    case Lookup => CanLookup(s)
    case ReadFails(t, p) => CanRead(s, t, p)
    case EpollDelete(t) => CanDelete(s, t)
    case Erase(t) => CanErase(s, t)
    case Return(t) => CanReturn(s, t)
    case Share(p) => CanShare(s, p)
    case Forget(p) => p in s.userRefs
    case Clear => s.loop == Draining
    case StartSucceeds => s.control == Starting && s.flag
    case StartGetsFuture => s.control == Starting && s.loop.Finished?
    case Stop => s.control == Started
    case StopGetsFuture => s.control == Stopping && s.loop.Finished?
  }

  ghost function WithThread(s: State, t: Tid, th: Thread): (r: State) {
    s.(threads := s.threads[t := th])
  }

  ghost function Max(a: nat, b: nat): (r: nat) {
    if a < b then b else a
  }

  ghost function AddInterest(s: State, f: Fd): (r: State) {
    s.(interest := s.interest + {f}, peak := Max(s.peak, |s.interest + {f}|))
  }

  ghost function DoInitEpoll(s: State, ok: bool): (r: State) {
    if ok then AddInterest(s, s.listener).(loop := EpollReady) else s.(loop := Finished(false))
  }

  ghost function DoAccept(s: State, p: Peer, f: Fd): (r: State) {
    WithThread(s, LOOP, Thread([], Accepted(p))).(fdOf := s.fdOf[p := f], open := s.open[f := p])
  }

  ghost function DoClear(s: State): (r: State) {
    s.(flag := false, dropped := s.dropped + s.registry.Values, registry := map[], loop := Finished(true))
  }

  ghost function DoEpollWait(s: State, failed: bool, ready: seq<Event>): (r: State) {
    s.(loop := if failed then Finished(false) else if ready == [] then Testing else Dispatching(ready, 0),
       bufSize := if !failed && ready != [] && |ready| == s.bufSize then s.bufSize * 2 else s.bufSize,
       waitsAfterStop := s.waitsAfterStop + if s.control.Stopping? || s.control.Stopped? then 1 else 0)
  }

  ghost function NextEvent(s: State): (r: State)
    requires s.loop.Dispatching?
  {
    s.(loop := s.loop.(next := s.loop.next + 1))
  }

  ghost function DoLookup(s: State): (r: State)
    requires AtEvent(s)
  {
    var f := CurrentEvent(s).fd;
    if f in s.registry then WithThread(s, LOOP, Thread([OnRecvData(s.registry[f])], Running))
    else s.(loop := Finished(false))
  }

  ghost function DoAddToEpoll(s: State, ok: bool): (r: State)
    requires CanAdd(s, ok)
  {
    var p := s.threads[LOOP].pc.peer;
    if ok then WithThread(AddInterest(s, s.fdOf[p]), LOOP, s.threads[LOOP].(pc := Polled(p)))
    else WithThread(s, LOOP, s.threads[LOOP].(pc := Running)).(loop := Finished(false))
  }

  ghost function DoInsert(s: State): (r: State)
    requires CanInsert(s)
  {
    var p := s.threads[LOOP].pc.peer;
    WithThread(s, LOOP, Thread(s.threads[LOOP].calls + [OnNewClient(p)], Running))
      .(registry := s.registry[s.fdOf[p] := p], inserted := s.inserted + {p})
  }

  ghost function DoEpollDelete(s: State, t: Tid): (r: State)
    requires CanDelete(s, t)
  {
    var p := s.threads[t].pc.peer;
    if s.fdOf[p] in s.interest
    then WithThread(s, t, s.threads[t].(pc := Erasing(p)))
           .(interest := s.interest - {s.fdOf[p]}, deleted := s.deleted + {p})
    else WithThread(s, t, s.threads[t].(pc := Running))
  }

  ghost function DoErase(s: State, t: Tid): (r: State)
    requires CanErase(s, t)
  {
    var f := s.fdOf[s.threads[t].pc.peer];
    if f in s.registry
    then WithThread(s, t, Thread(s.threads[t].calls + [OnDisconnect(s.registry[f])], Running))
           .(registry := s.registry - {f}, disconnects := s.disconnects + multiset{s.registry[f]})
    else WithThread(s, t, s.threads[t].(pc := Running))
  }

  ghost function DoReturn(s: State, t: Tid): (r: State)
    requires CanReturn(s, t)
  {
    var calls := s.threads[t].calls;
    var s' := WithThread(s, t, Thread(calls[..|calls| - 1], Running));
    if t == LOOP && |calls| == 1 && s.loop.Dispatching? then NextEvent(s') else s'
  }

  /** The effect of a step, before peers that lost their last reference are destroyed. */
  ghost function Raw(s: State, a: Action): (s': State)
    requires Enabled(s, a)
  {
    match a
    case InitEpoll(ok) => DoInitEpoll(s, ok)
    case RaiseFlag => s.(flag := true, loop := Testing)
    case TestFlag => s.(loop := if s.flag then Polling else Draining)
    case EpollWait(failed, ready) => DoEpollWait(s, failed, ready)
    case EndBatch => s.(loop := Testing)
    case AcceptFails => s.(loop := Finished(false))
    case Accept(p, f) => DoAccept(s, p, f)
    case AddToEpoll(ok) => DoAddToEpoll(s, ok)
    case Insert => DoInsert(s)
    case SkipEvent => NextEvent(s)
    case Lookup => DoLookup(s)
    case ReadFails(t, p) => WithThread(s, t, s.threads[t].(pc := Deleting(p)))
    case EpollDelete(t) => DoEpollDelete(s, t)
    case Erase(t) => DoErase(s, t)
    case Return(t) => DoReturn(s, t)
    case Share(p) => s.(userRefs := s.userRefs + {p})
    case Forget(p) => s.(userRefs := s.userRefs - {p})
    case Clear => DoClear(s)
    case StartSucceeds => s.(control := Started)
    case StartGetsFuture => s.(control := StartFailed(s.loop.ok))
    case Stop => s.(flag := false, control := Stopping)
    case StopGetsFuture => s.(control := Stopped(s.loop.ok))
  }

  ghost function Apply(s: State, a: Action): (s': State)
    requires Enabled(s, a)
  {
    Reap(Raw(s, a))
  }

  ghost predicate StepAt(trace: seq<State>, acts: seq<Action>, i: nat) {
    && i < |acts| && i + 1 < |trace|
    && Enabled(trace[i], acts[i]) && trace[i + 1] == Apply(trace[i], acts[i])
  }

  /** `trace` is a run of the server and `acts` the steps it takes. */
  ghost predicate Run(trace: seq<State>, acts: seq<Action>) {
    |trace| == |acts| + 1 && Init(trace[0]) && forall i: nat :: i < |acts| ==> StepAt(trace, acts, i)
  }

  /** What holds at first and is kept by every step that `ok` allows holds throughout. */
  lemma {:induction false} Inductive(trace: seq<State>, acts: seq<Action>, i: nat,
                                     holds: State -> bool, ok: (State, Action) -> bool)
    requires Run(trace, acts) && i < |trace| && holds(trace[0])
    requires forall k: nat :: k < |acts| ==> ok(trace[k], acts[k])
    requires forall s, a :: holds(s) && ok(s, a) && Enabled(s, a) ==> holds(Apply(s, a))
    ensures holds(trace[i])
  {
    if i > 0 {
      Inductive(trace, acts, i - 1, holds, ok);
      assert StepAt(trace, acts, i - 1);
    }
  }
}
