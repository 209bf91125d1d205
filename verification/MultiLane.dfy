/**
 * The counter that is spread over lanes. Adding is one atomic step on one lane; a load reads
 * the lanes one after the other while other threads go on.
 */
module MultiLane {

  const LANES: nat := 32

  function Sum(s: seq<int>): (r: int) {
    if s == [] then 0 else s[0] + Sum(s[1..])
  }

  lemma {:induction false} SumUpdate(s: seq<int>, k: nat, v: int)
    requires k < |s|
    ensures Sum(s[k := v]) == Sum(s) - s[k] + v
    decreases |s|
  {
    if k == 0 {
      assert s[k := v][1..] == s[1..];
    } else {
      assert s[k := v][1..] == s[1..][k - 1 := v];
      SumUpdate(s[1..], k - 1, v);
    }
  }

  lemma {:induction false} SumLast(s: seq<int>, n: nat)
    requires n < |s|
    ensures Sum(s[..n + 1]) == Sum(s[..n]) + s[n]
    decreases n
  {
    assert s[..n + 1][1..] == s[1..][..n];
    if n > 0 {
      assert s[..n][1..] == s[1..][..n - 1];
      SumLast(s[1..], n - 1);
    }
  }

  // ---------------------------------------------------------------------------------------
  // The class, between concurrent uses
  // ---------------------------------------------------------------------------------------

  class MultiLaneAtomic {
    const atomics: array<int>

    ghost predicate Valid() {
      atomics.Length == LANES
    }

    ghost function Total(): (r: int)
      reads atomics
    {
      Sum(atomics[..])
    }

    constructor ()
      ensures Valid() && fresh(atomics) && Total() == 0
    {
      atomics := new int[LANES](_ => 0);
      new;
      SumOfZeros(atomics[..], 0);
      assert atomics[0..] == atomics[..];
    }

    /** Threads get their lanes in the order in which they first come. */
    method FetchAdd(thread: nat, arg: int) returns (was: int)
      requires Valid()
      modifies atomics
      ensures was == old(atomics[thread % LANES])
      ensures atomics[..] == old(atomics[..])[thread % LANES := was + arg]
      ensures Total() == old(Total()) + arg
    {
      SumUpdate(atomics[..], thread % LANES, atomics[thread % LANES] + arg);
      was := atomics[thread % LANES];
      atomics[thread % LANES] := was + arg;
    }

    /** `fetch_sub`. */
    method FetchSub(thread: nat, arg: int) returns (was: int)
      requires Valid()
      modifies atomics
      ensures was == old(atomics[thread % LANES])
      ensures atomics[..] == old(atomics[..])[thread % LANES := was - arg]
      ensures Total() == old(Total()) - arg
    {
      was := FetchAdd(thread, -arg);
    }

    method Load() returns (result: int)
      requires Valid()
      ensures result == Total()
    {
      result := 0;
      for k := 0 to atomics.Length
        invariant result == Sum(atomics[..][..k])
      {
        SumLast(atomics[..], k);
        result := result + atomics[k];
      }
      assert atomics[..][..atomics.Length] == atomics[..];
    }

    /** The first lane takes the value, all others become 0. */
    method Store(desired: int)
      requires Valid()
      modifies atomics
      ensures Total() == desired
      ensures atomics[0] == desired && forall k :: 1 <= k < LANES ==> atomics[k] == 0
    {
      var value := desired;
      for k := 0 to atomics.Length
        invariant value == if k == 0 then desired else 0
        invariant forall j :: 0 <= j < k ==> atomics[j] == if j == 0 then desired else 0
      {
        atomics[k] := value;
        value := 0;
      }
      SumOfZeros(atomics[..], 1);
      assert atomics[1..] == atomics[..][1..];
    }
  }

  lemma {:induction false} SumOfZeros(s: seq<int>, k: nat)
    requires k <= |s| && forall j :: k <= j < |s| ==> s[j] == 0
    ensures Sum(s[k..]) == 0
    decreases |s| - k
  {
    if k < |s| {
      SumOfZeros(s, k + 1);
      assert s[k..][1..] == s[k + 1..];
    }
  }

  /** One add: which thread, how much. */
  datatype Addition = Addition(thread: nat, arg: int)

  function Amount(adds: seq<Addition>): (r: int) {
    if adds == [] then 0 else Amount(adds[..|adds| - 1]) + adds[|adds| - 1].arg
  }

  /** Without concurrent writers a load returns the last stored value and all adds since. */
  method Count(counter: MultiLaneAtomic, stored: int, adds: seq<Addition>) returns (result: int)
    requires counter.Valid()
    modifies counter.atomics
    ensures result == stored + Amount(adds)
  {
    counter.Store(stored);
    for k := 0 to |adds|
      invariant counter.Total() == stored + Amount(adds[..k])
    {
      var _ := counter.FetchAdd(adds[k].thread, adds[k].arg);
      assert adds[..k + 1][..k] == adds[..k];
    }
    assert adds[..|adds|] == adds;
    result := counter.Load();
  }

  // ---------------------------------------------------------------------------------------
  // Concurrent use
  // ---------------------------------------------------------------------------------------

  /** A load under way: the lane to be read next, and the sum of those before it. */
  datatype Loading = Loading(next: nat, result: int)

  datatype State = State(lanes: seq<int>, loads: map<nat, Loading>)

  /** Atomic steps; adding, subtracting and each write of a `store` change one lane. */
  datatype Event = Change(lane: nat, delta: int) | Begin(id: nat) | Read(id: nat)

  function Step(s: State, e: Event): (r: State) {
    match e
    case Change(lane, delta) => if lane < |s.lanes| then s.(lanes := s.lanes[lane := s.lanes[lane] + delta]) else s
    case Begin(id) => s.(loads := s.loads[id := Loading(0, 0)])
    case Read(id) =>
      if id in s.loads && s.loads[id].next < |s.lanes| then
        var l := s.loads[id];
        s.(loads := s.loads[id := Loading(l.next + 1, l.result + s.lanes[l.next])])
      else s
  }

  function Run(s: State, t: seq<Event>): (r: State)
    decreases |t|
  {
    if t == [] then s else Run(Step(s, t[0]), t[1..])
  }

  /** What the trace adds to lanes the load has still to read, and to lanes it has passed. */
  function Seen(s: State, id: nat, t: seq<Event>): (r: int)
    requires id in s.loads
    decreases |t|
  {
    if t == [] then 0
    else
      (if t[0].Change? && s.loads[id].next <= t[0].lane < |s.lanes| then t[0].delta else 0)
      + Seen(Step(s, t[0]), id, t[1..])
  }

  function Missed(s: State, id: nat, t: seq<Event>): (r: int)
    requires id in s.loads
    decreases |t|
  {
    if t == [] then 0
    else
      (if t[0].Change? && t[0].lane < |s.lanes| && t[0].lane < s.loads[id].next then t[0].delta else 0)
      + Missed(Step(s, t[0]), id, t[1..])
  }

  /** What the load returns if it reads the rest of the lanes at once. */
  function Prospect(s: State, id: nat): (r: int)
    requires id in s.loads && s.loads[id].next <= |s.lanes|
  {
    s.loads[id].result + Sum(s.lanes[s.loads[id].next..])
  }

  lemma ChangeShows(lanes: seq<int>, next: nat, lane: nat, delta: int)
    requires next <= |lanes| && lane < |lanes|
    ensures var after := lanes[lane := lanes[lane] + delta];
            && Sum(after) == Sum(lanes) + delta
            && Sum(after[next..]) == Sum(lanes[next..]) + if next <= lane then delta else 0
  {
    var v := lanes[lane] + delta;
    SumUpdate(lanes, lane, v);
    if next <= lane {
      assert lanes[lane := v][next..] == lanes[next..][lane - next := v];
      SumUpdate(lanes[next..], lane - next, v);
    } else {
      assert lanes[lane := v][next..] == lanes[next..];
    }
  }

  lemma StepAccounts(s: State, id: nat, e: Event)
    requires id in s.loads && s.loads[id].next <= |s.lanes| && e != Begin(id)
    ensures var s' := Step(s, e); id in s'.loads && s'.loads[id].next <= |s'.lanes| == |s.lanes|
    ensures Prospect(Step(s, e), id) == Prospect(s, id) + Seen(s, id, [e])
    ensures Sum(Step(s, e).lanes) == Sum(s.lanes) + Seen(s, id, [e]) + Missed(s, id, [e])
  {
    var next := s.loads[id].next;
    SeenOnce(s, id, e);
    if e.Change? && e.lane < |s.lanes| {
      ChangeShows(s.lanes, next, e.lane, e.delta);
    } else if e == Read(id) && next < |s.lanes| {
      ReadMovesOn(s.lanes, next);
    }
  }

  lemma SeenOnce(s: State, id: nat, e: Event)
    requires id in s.loads && id in Step(s, e).loads
    ensures var next := s.loads[id].next; var hit := e.Change? && e.lane < |s.lanes|;
            && Seen(s, id, [e]) == (if hit && next <= e.lane then e.delta else 0)
            && Missed(s, id, [e]) == (if hit && e.lane < next then e.delta else 0)
  {
    assert [e][1..] == [];
  }

  lemma ReadMovesOn(lanes: seq<int>, next: nat)
    requires next < |lanes|
    ensures Sum(lanes[next..]) == lanes[next] + Sum(lanes[next + 1..])
  {
    assert lanes[next..][1..] == lanes[next + 1..];
  }

  lemma {:induction false} RunAccounts(s: State, id: nat, t: seq<Event>)
    requires id in s.loads && s.loads[id].next <= |s.lanes| && Begin(id) !in t
    ensures var s' := Run(s, t); id in s'.loads && s'.loads[id].next <= |s'.lanes| == |s.lanes|
    ensures Prospect(Run(s, t), id) == Prospect(s, id) + Seen(s, id, t)
    ensures Sum(Run(s, t).lanes) == Sum(s.lanes) + Seen(s, id, t) + Missed(s, id, t)
    decreases |t|
  {
    if t != [] {
      StepAccounts(s, id, t[0]);
      RunAccounts(Step(s, t[0]), id, t[1..]);
    }
  }

  ghost predicate Finished(s: State, id: nat) {
    id in s.loads && s.loads[id].next == |s.lanes|
  }

  /**
   * A load that begins in `s` and is through after `t` returns the total at its beginning and
   * every change to a lane it had not read yet; it returns the total at its end exactly when
   * the changes behind its back cancel out.
   */
  lemma LoadIsExact(s: State, id: nat, t: seq<Event>)
    requires Begin(id) !in t && Finished(Run(Step(s, Begin(id)), t), id)
    ensures var s0, s' := Step(s, Begin(id)), Run(Step(s, Begin(id)), t);
            && s'.loads[id].result == Sum(s.lanes) + Seen(s0, id, t)
            && Sum(s'.lanes) == s'.loads[id].result + Missed(s0, id, t)
  {
    var s0 := Step(s, Begin(id));
    RunAccounts(s0, id, t);
    assert s0.lanes[0..] == s.lanes;
    var s' := Run(s0, t);
    assert s'.lanes[|s'.lanes|..] == [];
  }

  ghost predicate OnlyIncrements(t: seq<Event>) {
    forall k :: 0 <= k < |t| && t[k].Change? ==> t[k].delta >= 0
  }

  lemma {:induction false} IncrementsAddUp(s: State, id: nat, t: seq<Event>)
    requires id in s.loads && OnlyIncrements(t)
    ensures Seen(s, id, t) >= 0 && Missed(s, id, t) >= 0
    decreases |t|
  {
    if t != [] {
      IncrementsAddUp(Step(s, t[0]), id, t[1..]);
    }
  }

  /** Among increments, a load returns a value between the totals at its beginning and its end. */
  lemma LoadIsBetween(s: State, id: nat, t: seq<Event>)
    requires Begin(id) !in t && Finished(Run(Step(s, Begin(id)), t), id) && OnlyIncrements(t)
    ensures var s' := Run(Step(s, Begin(id)), t);
            Sum(s.lanes) <= s'.loads[id].result <= Sum(s'.lanes)
  {
    LoadIsExact(s, id, t);
    IncrementsAddUp(Step(s, Begin(id)), id, t);
  }

  /** Increments are needed: a 1 moved from a lane ahead of a load to one behind it is missed. */
  lemma MovingIsMissed() returns (s: State, t: seq<Event>)
    ensures Begin(0) !in t && Finished(Run(Step(s, Begin(0)), t), 0)
    ensures var s' := Run(Step(s, Begin(0)), t); Sum(s.lanes) == 1 == Sum(s'.lanes) && s'.loads[0].result == 0
  {
    s, t := State([0, 1], map[]), [Read(0), Change(0, 1), Change(1, -1), Read(0)];
    var s1 := Step(Step(s, Begin(0)), Read(0));
    var s3 := Step(Step(s1, Change(0, 1)), Change(1, -1));
    assert s1 == State([0, 1], map[0 := Loading(1, 0)]) && s3 == State([1, 0], map[0 := Loading(1, 0)]);
    var end := Step(s3, Read(0));
    assert Run(end, []) == end && t[3..] == [Read(0)] && [Read(0)][1..] == [];
    assert Run(s3, t[3..]) == end;
    assert t[2..][1..] == t[3..] && t[1..][1..] == t[2..];
    assert Run(s1, t[1..]) == end;
    assert [0, 1][1..] == [1] && [1][1..] == [] && [1, 0][1..] == [0] && [0][1..] == [];
  }
}
