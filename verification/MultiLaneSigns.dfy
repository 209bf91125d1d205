/**
 * When a load that overlaps changes can be trusted: whatever the interleaving, its result lies
 * between the totals at its beginning and end exactly if the changes go one way only.
 */
module MultiLaneSigns {
  import opened MultiLane

  /** The changes a trace makes, in their order. */
  function Changes(t: seq<Event>): (changes: seq<Event>)
    ensures forall e :: e in changes <==> e in t && e.Change?
  {
    if t == [] then [] else (if t[0].Change? then [t[0]] else []) + Changes(t[1..])
  }

  ghost predicate Between(a: int, x: int, b: int) {
    a <= x <= b || b <= x <= a
  }

  /** The load `id`, begun in `s` and interleaved with others' steps as in `t`, is through. */
  ghost predicate Completes(s: State, id: nat, t: seq<Event>) {
    Begin(id) !in t && Finished(Run(Step(s, Begin(id)), t), id)
  }

  ghost predicate ReadsBetween(s: State, id: nat, t: seq<Event>)
    requires Completes(s, id, t)
  {
    var s' := Run(Step(s, Begin(id)), t);
    Between(Sum(s.lanes), s'.loads[id].result, Sum(s'.lanes))
  }

  /** Every way to interleave the load with exactly these changes keeps the result between the totals. */
  ghost predicate Trustworthy(s: State, id: nat, changes: multiset<Event>) {
    forall t :: Completes(s, id, t) && multiset(Changes(t)) == changes ==> ReadsBetween(s, id, t)
  }

  /** A change of one of the first `n` lanes. */
  predicate InRange(n: nat, e: Event) {
    e.Change? && e.lane < n
  }

  predicate Rises(e: Event) {
    e.Change? && e.delta > 0
  }

  predicate Falls(e: Event) {
    e.Change? && e.delta < 0
  }

  // ---------------------------------------------------------------------------------------
  // One way only
  // ---------------------------------------------------------------------------------------

  lemma {:induction false} DecrementsAddUp(s: State, id: nat, t: seq<Event>)
    requires id in s.loads && forall e :: e in t ==> !Rises(e)
    ensures Seen(s, id, t) <= 0 && Missed(s, id, t) <= 0
    decreases |t|
  {
    if t != [] {
      assert t[0] in t;
      DecrementsAddUp(Step(s, t[0]), id, t[1..]);
    }
  }

  lemma OneWayIsTrustworthy(s: State, id: nat, t: seq<Event>)
    requires Completes(s, id, t)
    requires (forall e :: e in t ==> !Falls(e)) || (forall e :: e in t ==> !Rises(e))
    ensures ReadsBetween(s, id, t)
  {
    LoadIsExact(s, id, t);
    if forall e :: e in t ==> !Rises(e) {
      DecrementsAddUp(Step(s, Begin(id)), id, t);
    } else {
      forall k | 0 <= k < |t| && t[k].Change? ensures t[k].delta >= 0 {
        assert t[k] in t;
      }
      IncrementsAddUp(Step(s, Begin(id)), id, t);
    }
  }

  // ---------------------------------------------------------------------------------------
  // Both ways: up before the first read, down after the last
  // ---------------------------------------------------------------------------------------

  function Total(q: seq<Event>): (sum: int) {
    if q == [] then 0 else (if q[0].Change? then q[0].delta else 0) + Total(q[1..])
  }

  function Reads(id: nat, n: nat): (events: seq<Event>) {
    if n == 0 then [] else [Read(id)] + Reads(id, n - 1)
  }

  lemma {:induction false} RunJoins(s: State, a: seq<Event>, b: seq<Event>)
    ensures Run(s, a + b) == Run(Run(s, a), b)
    decreases |a|
  {
    if a == [] {
      assert a + b == b;
    } else {
      assert (a + b)[0] == a[0] && (a + b)[1..] == a[1..] + b;
      RunJoins(Step(s, a[0]), a[1..], b);
    }
  }

  lemma {:induction false} RunChanges(s: State, q: seq<Event>)
    requires forall e :: e in q ==> InRange(|s.lanes|, e)
    ensures Run(s, q).loads == s.loads && |Run(s, q).lanes| == |s.lanes|
    ensures Sum(Run(s, q).lanes) == Sum(s.lanes) + Total(q)
    decreases |q|
  {
    if q != [] {
      assert q[0] in q;
      SumUpdate(s.lanes, q[0].lane, s.lanes[q[0].lane] + q[0].delta);
      RunChanges(Step(s, q[0]), q[1..]);
    }
  }

  lemma {:induction false} RunReads(s: State, id: nat, n: nat)
    requires id in s.loads && s.loads[id].next + n == |s.lanes|
    ensures var s' := Run(s, Reads(id, n)); s'.lanes == s.lanes && Finished(s', id)
    ensures Run(s, Reads(id, n)).loads[id].result == s.loads[id].result + Sum(s.lanes[s.loads[id].next..])
    decreases n
  {
    var next := s.loads[id].next;
    if n > 0 {
      assert s.lanes[next..][1..] == s.lanes[next + 1..];
      RunReads(Step(s, Read(id)), id, n - 1);
      assert Reads(id, n)[1..] == Reads(id, n - 1);
    } else {
      assert s.lanes[next..] == [];
    }
  }

  lemma {:induction false} ChangesOfReads(id: nat, n: nat, q: seq<Event>)
    ensures Changes(Reads(id, n) + q) == Changes(q)
    ensures forall e :: e in Reads(id, n) ==> e == Read(id)
    decreases n
  {
    if n == 0 {
      assert Reads(id, n) + q == q;
    } else {
      assert (Reads(id, n) + q)[1..] == Reads(id, n - 1) + q;
      ChangesOfReads(id, n - 1, q);
    }
  }

  lemma ChangesNext(e: Event, t: seq<Event>)
    ensures Changes([e] + t) == (if e.Change? then [e] else []) + Changes(t)
  {
    assert ([e] + t)[1..] == t;
  }

  lemma {:induction false} ChangesOfChanges(q: seq<Event>, t: seq<Event>)
    requires forall e :: e in q ==> e.Change?
    ensures Changes(q + t) == q + Changes(t)
    decreases |q|
  {
    if q == [] {
      assert q + t == t;
    } else {
      assert q[0] in q && q + t == [q[0]] + (q[1..] + t);
      ChangesNext(q[0], q[1..] + t);
      ChangesOfChanges(q[1..], t);
      assert q == [q[0]] + q[1..];
    }
  }

  lemma {:induction false} SortedBySign(changes: multiset<Event>) returns (up: seq<Event>, down: seq<Event>)
    requires forall e :: e in changes ==> e.Change?
    ensures multiset(up + down) == changes
    ensures forall e :: e in up ==> e in changes && !Falls(e)
    ensures forall e :: e in down ==> e in changes && Falls(e)
    decreases |changes|
  {
    if changes == multiset{} {
      return [], [];
    }
    var e :| e in changes;
    up, down := SortedBySign(changes - multiset{e});
    if Falls(e) {
      down := down + [e];
    } else {
      up := up + [e];
    }
  }

  lemma {:induction false} SignOfTotal(q: seq<Event>, e: Event)
    requires e in q
    ensures Rises(e) && (forall x :: x in q ==> !Falls(x)) ==> Total(q) > 0
    ensures Falls(e) && (forall x :: x in q ==> !Rises(x)) ==> Total(q) < 0
    decreases |q|
  {
    assert q == [q[0]] + q[1..] && q[0] in q;
    if e == q[0] {
      TotalOneWay(q[1..]);
    } else {
      SignOfTotal(q[1..], e);
    }
  }

  lemma {:induction false} TotalOneWay(q: seq<Event>)
    ensures (forall x :: x in q ==> !Falls(x)) ==> Total(q) >= 0
    ensures (forall x :: x in q ==> !Rises(x)) ==> Total(q) <= 0
    decreases |q|
  {
    if q != [] {
      assert q[0] in q;
      TotalOneWay(q[1..]);
    }
  }

  /** All rises, then the whole load, then all falls: the load returns more than it ever should. */
  lemma BothWaysMislead(s: State, id: nat, changes: multiset<Event>) returns (t: seq<Event>)
    requires s.lanes != [] && forall e :: e in changes ==> InRange(|s.lanes|, e)
    requires exists e :: e in changes && Rises(e)
    requires exists e :: e in changes && Falls(e)
    ensures Completes(s, id, t) && multiset(Changes(t)) == changes && !ReadsBetween(s, id, t)
  {
    var up, down := SortedBySign(changes);
    var r :| r in changes && Rises(r);
    var f :| f in changes && Falls(f);
    SignsOfSorted(changes, up, down, r, f);
    SortedMislead(s, id, up, down);
    t := up + (Reads(id, |s.lanes|) + down);
  }

  lemma SortedMislead(s: State, id: nat, up: seq<Event>, down: seq<Event>)
    requires forall e :: e in up ==> InRange(|s.lanes|, e)
    requires forall e :: e in down ==> InRange(|s.lanes|, e)
    requires Total(up) > 0 > Total(down)
    ensures var t := up + (Reads(id, |s.lanes|) + down);
            Completes(s, id, t) && Changes(t) == up + down && !ReadsBetween(s, id, t)
  {
    forall e | e in up + down ensures e.Change? {
      assert e in up || e in down;
    }
    ChangesOfSorted(id, |s.lanes|, up, down);
    NoBeginIn(id, |s.lanes|, up, down);
    MisleadingRun(s, id, up, down);
  }

  lemma ChangesOfSorted(id: nat, n: nat, up: seq<Event>, down: seq<Event>)
    requires forall e :: e in up + down ==> e.Change?
    ensures Changes(up + (Reads(id, n) + down)) == up + down
  {
    forall e | e in up ensures e.Change? { assert e in up + down; }
    forall e | e in down ensures e.Change? { assert e in up + down; }
    ChangesOfChanges(up, Reads(id, n) + down);
    ChangesOfReads(id, n, down);
    ChangesOfChanges(down, []);
    assert down + [] == down;
  }

  lemma SignsOfSorted(changes: multiset<Event>, up: seq<Event>, down: seq<Event>, r: Event, f: Event)
    requires multiset(up + down) == changes && r in changes && f in changes && Rises(r) && Falls(f)
    requires (forall e :: e in up ==> !Falls(e)) && (forall e :: e in down ==> Falls(e))
    ensures Total(up) > 0 > Total(down)
  {
    assert r in up + down && f in up + down;
    SignOfTotal(up, r);
    SignOfTotal(down, f);
  }

  lemma NoBeginIn(id: nat, n: nat, up: seq<Event>, down: seq<Event>)
    requires forall e :: e in up + down ==> e.Change?
    ensures Begin(id) !in up + (Reads(id, n) + down)
  {
    ChangesOfReads(id, n, down);
    forall e | e in up + (Reads(id, n) + down) ensures e != Begin(id) {
      assert e in Reads(id, n) || e in up + down;
    }
  }

  lemma MisleadingRun(s: State, id: nat, up: seq<Event>, down: seq<Event>)
    requires forall e :: e in up ==> InRange(|s.lanes|, e)
    requires forall e :: e in down ==> InRange(|s.lanes|, e)
    ensures var s' := Run(Step(s, Begin(id)), up + (Reads(id, |s.lanes|) + down));
            && Finished(s', id) && s'.loads[id].result == Sum(s.lanes) + Total(up)
            && Sum(s'.lanes) == Sum(s.lanes) + Total(up) + Total(down)
  {
    var s0 := Step(s, Begin(id));
    var s1 := Run(s0, up);
    var s2 := Run(s1, Reads(id, |s.lanes|));
    RunChanges(s0, up);
    assert s1.lanes[0..] == s1.lanes;
    RunReads(s1, id, |s.lanes|);
    RunChanges(s2, down);
    RunJoins(s0, up, Reads(id, |s.lanes|) + down);
    RunJoins(s1, Reads(id, |s.lanes|), down);
  }

  /** The exact condition: the result can be trusted if and only if no rise meets a fall. */
  lemma TrustworthyIffOneWay(s: State, id: nat, changes: multiset<Event>)
    requires s.lanes != [] && forall e :: e in changes ==> InRange(|s.lanes|, e)
    ensures Trustworthy(s, id, changes)
       <==> !((exists e :: e in changes && Rises(e)) && (exists e :: e in changes && Falls(e)))
  {
    if (exists e :: e in changes && Rises(e)) && (exists e :: e in changes && Falls(e)) {
      var t := BothWaysMislead(s, id, changes);
    } else {
      forall t | Completes(s, id, t) && multiset(Changes(t)) == changes ensures ReadsBetween(s, id, t) {
        forall e: Event ensures e in t && e.Change? <==> e in changes {
          assert e in Changes(t) <==> e in multiset(Changes(t));
        }
        OneWayIsTrustworthy(s, id, t);
      }
    }
  }
}
