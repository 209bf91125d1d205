/** What repeated `operator+=` costs in recopied bytes. */
module StringGrowth {
  import opened SmallString

  /** The shape after appending pieces of the given lengths, one after the other. */
  function AppendAll(s: Shape, lengths: seq<nat>): (r: Shape) {
    if lengths == [] then s else Grown(AppendAll(s, lengths[..|lengths| - 1]), lengths[|lengths| - 1])
  }

  /** A shape a valid string can have. */
  predicate Sound(s: Shape) {
    if s.onHeap then LAST < s.size < s.capacity < WORD else s.size < LEN == s.capacity
  }

  /** While capacities are below half the word, what was recopied is covered by the current capacity. */
  predicate Covered(s: Shape) {
    && Sound(s) && s.recopied <= 2 * s.size + LAST
    && (s.onHeap ==> s.recopied <= s.capacity + LAST) && (!s.onHeap ==> s.recopied == 0)
  }

  /** The one size at which the capacity may already have wrapped around without harm. */
  predicate AtLimit(s: Shape) {
    Sound(s) && s.onHeap && s.size == WORD / 2 && s.recopied <= 2 * s.size + LAST
  }

  lemma GrownCovered(s: Shape, n: nat)
    requires Covered(s) || AtLimit(s)
    requires s.size + n <= WORD / 2
    ensures Covered(Grown(s, n)) || AtLimit(Grown(s, n))
  {
    if s.onHeap && s.capacity <= s.size + n < WORD / 2 {
      assert Twice(s.capacity) == 2 * s.capacity;
    }
  }

  lemma {:induction false} SizesAdd(s: Shape, lengths: seq<nat>)
    ensures s.size <= AppendAll(s, lengths).size
    ensures forall k :: 0 <= k <= |lengths| ==> AppendAll(s, lengths[..k]).size <= AppendAll(s, lengths).size
  {
    if lengths == [] {
      assert lengths[..0] == [];
    } else {
      var init := lengths[..|lengths| - 1];
      SizesAdd(s, init);
      forall k | 0 <= k <= |lengths| ensures AppendAll(s, lengths[..k]).size <= AppendAll(s, lengths).size {
        if k < |lengths| { assert lengths[..k] == init[..k]; } else { assert lengths[..k] == lengths; }
      }
    }
  }

  lemma {:induction false} GrowthCovered(s: Shape, lengths: seq<nat>)
    requires Sound(s) && s.recopied == 0 && AppendAll(s, lengths).size <= WORD / 2
    ensures Covered(AppendAll(s, lengths)) || AtLimit(AppendAll(s, lengths))
  {
    if lengths != [] {
      var init := lengths[..|lengths| - 1];
      SizesAdd(s, lengths);
      GrowthCovered(s, init);
      GrownCovered(AppendAll(s, init), lengths[|lengths| - 1]);
    }
  }

  /** A string that has never grown, however it was built, and appends to it. */
  predicate Linear(s: Shape, lengths: seq<nat>) {
    var r := AppendAll(s, lengths); r.recopied <= 2 * r.size + LAST
  }

  ghost predicate LinearUpTo(n: nat) {
    forall s: Shape, lengths: seq<nat> ::
      Sound(s) && s.recopied == 0 && AppendAll(s, lengths).size <= n ==> Linear(s, lengths)
  }

  /** Above 2^31 characters the doubled capacity wraps around to 0, and growth goes on one byte at a time. */
  lemma GrowthPastHalfTheWord() returns (s: Shape, lengths: seq<nat>)
    ensures Sound(s) && s.recopied == 0 && AppendAll(s, lengths).size == WORD / 2 + 1
    ensures !Linear(s, lengths)
  {
    s, lengths := Shape(true, WORD / 4 - 1, WORD / 4, 0), [1, WORD / 4 - 1, 1, 1];
    var s1 := Grown(s, 1);
    var s2 := Grown(s1, WORD / 4 - 1);
    var s3 := Grown(s2, 1);
    assert s1 == Shape(true, WORD / 4, WORD / 2, WORD / 4 - 1);
    assert s2 == Shape(true, WORD / 2 - 1, WORD / 2, WORD / 4 - 1);
    assert s3 == Shape(true, WORD / 2, WORD / 2 + 1, WORD / 4 + WORD / 2 - 2);
    assert lengths[..3][..2] == [1, WORD / 4 - 1] && [1, WORD / 4 - 1][..1] == [1] && [1][..0] == [];
    assert AppendAll(s, [1]) == s1;
    assert AppendAll(s, [1, WORD / 4 - 1]) == s2;
    assert AppendAll(s, lengths[..3]) == s3;
  }

  /**
   * Any sequence of appends recopies at most twice the final length plus 23 bytes, exactly as
   * long as final lengths stay within 2^31.
   */
  lemma GrowthIsLinear(n: nat)
    ensures LinearUpTo(n) <==> n <= WORD / 2
  {
    if n <= WORD / 2 {
      forall s: Shape, lengths: seq<nat> | Sound(s) && s.recopied == 0 && AppendAll(s, lengths).size <= n
        ensures Linear(s, lengths)
      {
        GrowthCovered(s, lengths);
      }
    } else {
      var s, lengths := GrowthPastHalfTheWord();
      assert !Linear(s, lengths) && AppendAll(s, lengths).size <= n;
    }
  }
}
