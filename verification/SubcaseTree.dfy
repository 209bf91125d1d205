/**
 * A test body as the tree of its subcases, the leaves a full exploration owes to the user,
 * and the exploration that doctest's re-run loop actually performs, written as one traversal.
 */
module SubcaseTree {
  import opened SubcaseHash

  datatype Tree = Node(sig: Signature, children: seq<Tree>)

  type Forest = seq<Tree>

  /** The hash of a path, as a value: nothing about the traversal depends on which hash it is. */
  type PathKey = Path -> Word

  /** No two siblings carry the same signature, at any level. */
  ghost predicate Distinct(f: Forest)
    decreases f
  {
    && (forall i, j :: 0 <= i < j < |f| ==> f[i].sig != f[j].sig)
    && (forall i :: 0 <= i < |f| ==> Distinct(f[i].children))
  }

  // ---------------------------------------------------------------------------------------
  // What should be run
  // ---------------------------------------------------------------------------------------

  /** The leaf paths of `f` under prefix `p`, in depth-first order. A body without subcases is one leaf. */
  function Leaves(p: Path, f: Forest): (r: seq<Path>)
    decreases f, 1, 0
  {
    if f == [] then [p] else LeavesFrom(p, f, 0)
  }

  function LeavesFrom(p: Path, f: Forest, i: nat): (r: seq<Path>)
    requires i <= |f|
    decreases f, 0, |f| - i
  {
    if i == |f| then []
    else Leaves(p + [f[i].sig], f[i].children) + LeavesFrom(p, f, i + 1)
  }

  /** `path` leads from the top of `f` to a subcase that contains no further subcase. */
  ghost predicate EndsInLeaf(f: Forest, path: Path)
    decreases |path|
  {
    if path == [] then f == []
    else exists i :: 0 <= i < |f| && f[i].sig == path[0] && EndsInLeaf(f[i].children, path[1..])
  }

  // ---------------------------------------------------------------------------------------
  // What is run
  // ---------------------------------------------------------------------------------------

  datatype Visit = Visit(leaves: seq<Path>, seen: set<Word>)

  /**
   * Exploring a body that has been entered: its first subcase is entered unconditionally, each
   * later one only if the hash of its path is not yet in the set of finished hashes.
   */
  function Explore(h: PathKey, p: Path, f: Forest, seen: set<Word>): (v: Visit)
    decreases f, 1, 0
  {
    if f == [] then Visit([p], seen + {h(p)})
    else
      var first := Explore(h, p + [f[0].sig], f[0].children, seen);
      var rest := ExploreFrom(h, p, f, 1, first.seen);
      Visit(first.leaves + rest.leaves, rest.seen)
  }

  function ExploreFrom(h: PathKey, p: Path, f: Forest, i: nat, seen: set<Word>): (v: Visit)
    requires i <= |f|
    decreases f, 0, |f| - i
  {
    if i == |f| then Visit([], seen)
    else if h(p + [f[i].sig]) in seen then ExploreFrom(h, p, f, i + 1, seen)
    else
      var here := Explore(h, p + [f[i].sig], f[i].children, seen);
      var rest := ExploreFrom(h, p, f, i + 1, here.seen);
      Visit(here.leaves + rest.leaves, rest.seen)
  }

  // ---------------------------------------------------------------------------------------
  // When the two agree
  // ---------------------------------------------------------------------------------------

  /**
   * A depth-first walk of the tree, reduced to what matters for the hash set: a leaf that
   * finishes, and a subcase with an earlier sibling that is offered for a later run.
   */
  datatype Event = Finished(path: Path) | Offered(path: Path)

  function Walk(p: Path, f: Forest): (ev: seq<Event>)
    decreases f, 1, 0
  {
    if f == [] then [Finished(p)]
    else Walk(p + [f[0].sig], f[0].children) + WalkFrom(p, f, 1)
  }

  function WalkFrom(p: Path, f: Forest, i: nat): (ev: seq<Event>)
    requires i <= |f|
    decreases f, 0, |f| - i
  {
    if i == |f| then []
    else [Offered(p + [f[i].sig])] + Walk(p + [f[i].sig], f[i].children) + WalkFrom(p, f, i + 1)
  }

  ghost predicate ClashAt(h: PathKey, ev: seq<Event>, i: nat, j: nat) {
    i < j < |ev| && ev[i].Finished? && ev[j].Offered? && h(ev[i].path) == h(ev[j].path)
  }

  /** Some subcase hashes to the same word as a leaf that precedes it in the walk. */
  ghost predicate Clash(h: PathKey, ev: seq<Event>) {
    exists i, j :: ClashAt(h, ev, i, j)
  }

  ghost predicate HitAt(h: PathKey, ev: seq<Event>, j: nat, seen: set<Word>) {
    j < |ev| && ev[j].Offered? && h(ev[j].path) in seen
  }

  /** The same question, asked of the part of the walk that starts with `seen` already recorded. */
  ghost predicate ClashWith(h: PathKey, ev: seq<Event>, seen: set<Word>) {
    Clash(h, ev) || exists j :: HitAt(h, ev, j, seen)
  }

  ghost function Recorded(h: PathKey, ev: seq<Event>): (r: set<Word>) {
    set i | 0 <= i < |ev| && ev[i].Finished? :: h(ev[i].path)
  }

  lemma RecordedSplits(h: PathKey, a: seq<Event>, b: seq<Event>)
    ensures Recorded(h, a + b) == Recorded(h, a) + Recorded(h, b)
  {
    var ab := a + b;
    forall w | w in Recorded(h, a) ensures w in Recorded(h, ab) {
      var i :| 0 <= i < |a| && a[i].Finished? && h(a[i].path) == w;
      assert ab[i] == a[i];
    }
    forall w | w in Recorded(h, b) ensures w in Recorded(h, ab) {
      var i :| 0 <= i < |b| && b[i].Finished? && h(b[i].path) == w;
      assert ab[|a| + i] == b[i];
    }
    forall w | w in Recorded(h, ab) ensures w in Recorded(h, a) + Recorded(h, b) {
      var i :| 0 <= i < |ab| && ab[i].Finished? && h(ab[i].path) == w;
      assert ab[i] == if i < |a| then a[i] else b[i - |a|];
    }
  }

  lemma ClashInLeft(h: PathKey, a: seq<Event>, b: seq<Event>, seen: set<Word>)
    requires ClashWith(h, a, seen)
    ensures ClashWith(h, a + b, seen)
  {
    if i: nat, j: nat :| ClashAt(h, a, i, j) {
      assert ClashAt(h, a + b, i, j);
    } else {
      var j: nat :| HitAt(h, a, j, seen);
      assert HitAt(h, a + b, j, seen);
    }
  }

  lemma ClashInRight(h: PathKey, a: seq<Event>, b: seq<Event>, seen: set<Word>)
    requires ClashWith(h, b, seen + Recorded(h, a))
    ensures ClashWith(h, a + b, seen)
  {
    if i: nat, j: nat :| ClashAt(h, b, i, j) {
      assert ClashAt(h, a + b, |a| + i, |a| + j);
    } else {
      var j: nat :| HitAt(h, b, j, seen + Recorded(h, a));
      if h(b[j].path) in seen {
        assert HitAt(h, a + b, |a| + j, seen);
      } else {
        var i :| 0 <= i < |a| && a[i].Finished? && h(a[i].path) == h(b[j].path);
        assert ClashAt(h, a + b, i, |a| + j);
      }
    }
  }

  lemma ClashParts(h: PathKey, a: seq<Event>, b: seq<Event>, seen: set<Word>)
    requires ClashWith(h, a + b, seen)
    ensures ClashWith(h, a, seen) || ClashWith(h, b, seen + Recorded(h, a))
  {
    var ab := a + b;
    if i: nat, j: nat :| ClashAt(h, ab, i, j) {
      if j < |a| {
        assert ClashAt(h, a, i, j);
      } else if i < |a| {
        assert ab[i] == a[i] && ab[j] == b[j - |a|];
        assert HitAt(h, b, j - |a|, seen + Recorded(h, a));
      } else {
        assert ClashAt(h, b, i - |a|, j - |a|);
      }
    } else {
      var j: nat :| HitAt(h, ab, j, seen);
      if j < |a| { assert HitAt(h, a, j, seen); }
      else { assert HitAt(h, b, j - |a|, seen + Recorded(h, a)); }
    }
  }

  lemma ClashSplits(h: PathKey, a: seq<Event>, b: seq<Event>, seen: set<Word>)
    ensures ClashWith(h, a + b, seen) <==> ClashWith(h, a, seen) || ClashWith(h, b, seen + Recorded(h, a))
    ensures Recorded(h, a + b) == Recorded(h, a) + Recorded(h, b)
  {
    RecordedSplits(h, a, b);
    if ClashWith(h, a + b, seen) { ClashParts(h, a, b, seen); }
    if ClashWith(h, a, seen) { ClashInLeft(h, a, b, seen); }
    if ClashWith(h, b, seen + Recorded(h, a)) { ClashInRight(h, a, b, seen); }
  }

  /** What one exploration of `f` from the set `seen` amounts to. */
  ghost predicate Faithful(h: PathKey, v: Visit, all: seq<Path>, ev: seq<Event>, seen: set<Word>) {
    && |v.leaves| <= |all|
    && (if ClashWith(h, ev, seen) then |v.leaves| < |all| else v == Visit(all, seen + Recorded(h, ev)))
  }

  lemma LeavesNonempty(p: Path, f: Forest)
    ensures |Leaves(p, f)| > 0
    decreases f
  {
    if f != [] { LeavesNonempty(p + [f[0].sig], f[0].children); }
  }

  lemma FaithfulJoin(h: PathKey, v: Visit, all: seq<Path>, ev: seq<Event>,
                     v': Visit, all': seq<Path>, ev': seq<Event>, seen: set<Word>)
    requires Faithful(h, v, all, ev, seen) && Faithful(h, v', all', ev', v.seen)
    ensures Faithful(h, Visit(v.leaves + v'.leaves, v'.seen), all + all', ev + ev', seen)
  {
    ClashSplits(h, ev, ev', seen);
  }

  lemma {:induction false} ExploreFaithful(h: PathKey, p: Path, f: Forest, seen: set<Word>)
    ensures Faithful(h, Explore(h, p, f, seen), Leaves(p, f), Walk(p, f), seen)
    decreases f, 1, 0
  {
    if f == [] {
      assert Recorded(h, [Finished(p)]) == {h(p)} by {
        assert [Finished(p)][0].Finished?;
      }
    } else {
      var q, g := p + [f[0].sig], f[0].children;
      ExploreFaithful(h, q, g, seen);
      var v := Explore(h, q, g, seen);
      ExploreFromFaithful(h, p, f, 1, v.seen);
      FaithfulJoin(h, v, Leaves(q, g), Walk(q, g),
                   ExploreFrom(h, p, f, 1, v.seen), LeavesFrom(p, f, 1), WalkFrom(p, f, 1), seen);
    }
  }

  lemma {:induction false} ExploreFromFaithful(h: PathKey, p: Path, f: Forest, i: nat, seen: set<Word>)
    requires i <= |f|
    ensures Faithful(h, ExploreFrom(h, p, f, i, seen), LeavesFrom(p, f, i), WalkFrom(p, f, i), seen)
    decreases f, 0, |f| - i
  {
    if i < |f| {
      var q, g := p + [f[i].sig], f[i].children;
      OfferFaithful(h, q, seen);
      if h(q) in seen {
        LeavesNonempty(q, g);
        ExploreFromFaithful(h, p, f, i + 1, seen);
        ClashSplits(h, [Offered(q)], Walk(q, g), seen);
        ClashSplits(h, [Offered(q)] + Walk(q, g), WalkFrom(p, f, i + 1), seen);
      } else {
        var v := Explore(h, q, g, seen);
        ExploreFaithful(h, q, g, seen);
        FaithfulJoin(h, Visit([], seen), [], [Offered(q)], v, Leaves(q, g), Walk(q, g), seen);
        assert [] + v.leaves == v.leaves && [] + Leaves(q, g) == Leaves(q, g);
        ExploreFromFaithful(h, p, f, i + 1, v.seen);
        FaithfulJoin(h, v, Leaves(q, g), [Offered(q)] + Walk(q, g),
                     ExploreFrom(h, p, f, i + 1, v.seen), LeavesFrom(p, f, i + 1), WalkFrom(p, f, i + 1), seen);
      }
    } else {
      assert Recorded(h, []) == {};
    }
  }

  lemma OfferFaithful(h: PathKey, q: Path, seen: set<Word>)
    ensures h(q) !in seen ==> Faithful(h, Visit([], seen), [], [Offered(q)], seen)
    ensures h(q) in seen ==> ClashWith(h, [Offered(q)], seen)
  {
    assert Recorded(h, [Offered(q)]) == {};
    assert h(q) in seen ==> HitAt(h, [Offered(q)], 0, seen);
  }

  /**
   * The exploration runs exactly the leaves of the tree, each in its place, if and only if no
   * subcase hashes to the same word as a leaf before it; otherwise it runs strictly fewer.
   */
  lemma ExploresAllLeaves(h: PathKey, f: Forest)
    ensures Explore(h, [], f, {}).leaves == Leaves([], f) <==> !Clash(h, Walk([], f))
    ensures Clash(h, Walk([], f)) ==> |Explore(h, [], f, {}).leaves| < |Leaves([], f)|
  {
    ExploreFaithful(h, [], f, {});
  }

  // ---------------------------------------------------------------------------------------
  // Each leaf once
  // ---------------------------------------------------------------------------------------

  lemma {:induction false} LeavesExtend(p: Path, f: Forest, i: nat)
    requires i <= |f|
    ensures forall l :: l in LeavesFrom(p, f, i) ==>
              p < l && exists k :: i <= k < |f| && f[k].sig == l[|p|] && l in Leaves(p + [f[k].sig], f[k].children)
    decreases f, 0, |f| - i
  {
    if i < |f| {
      LeavesExtend(p, f, i + 1);
      var q, g := p + [f[i].sig], f[i].children;
      LeavesBelow(q, g);
      forall l | l in LeavesFrom(p, f, i)
        ensures p < l && exists k :: i <= k < |f| && f[k].sig == l[|p|] && l in Leaves(p + [f[k].sig], f[k].children)
      {
        if l in Leaves(q, g) {
          assert q <= l;
          assert l[..|q|][|p|] == f[i].sig;
          assert p <= l by { assert l[..|p|] == l[..|q|][..|p|] == p; }
        } else {
          assert l in LeavesFrom(p, f, i + 1);
        }
      }
    }
  }

  lemma {:induction false} LeavesBelow(p: Path, f: Forest)
    ensures forall l :: l in Leaves(p, f) ==> p <= l
    decreases f, 1, 0
  {
    if f != [] { LeavesExtend(p, f, 0); }
  }

  ghost predicate NoDuplicates(s: seq<Path>) {
    forall a, b :: 0 <= a < b < |s| ==> s[a] != s[b]
  }

  lemma {:induction false} LeavesOnce(p: Path, f: Forest)
    requires Distinct(f)
    ensures NoDuplicates(Leaves(p, f))
    decreases f, 1, 0
  {
    if f != [] { LeavesFromOnce(p, f, 0); }
  }

  lemma {:induction false} LeavesFromOnce(p: Path, f: Forest, i: nat)
    requires Distinct(f) && i <= |f|
    ensures NoDuplicates(LeavesFrom(p, f, i))
    decreases f, 0, |f| - i
  {
    if i < |f| {
      var q, g := p + [f[i].sig], f[i].children;
      LeavesOnce(q, g);
      LeavesFromOnce(p, f, i + 1);
      var here, rest := Leaves(q, g), LeavesFrom(p, f, i + 1);
      LeavesExtend(p, f, i + 1);
      forall l | l in here ensures l !in rest {
        LeavesBelow(q, g);
        assert q <= l;
        assert l[..|q|][|p|] == f[i].sig;
      }
      assert forall a, b :: 0 <= a < |here| && 0 <= b < |rest| ==> here[a] in here && rest[b] in rest;
    }
  }

  /** `Leaves` lists exactly the paths that end in a leaf. */
  lemma {:induction false} LeavesComplete(p: Path, f: Forest, path: Path)
    ensures EndsInLeaf(f, path) <==> p + path in Leaves(p, f)
    decreases f, |path|
  {
    if f == [] {
      assert path == [] ==> p + path == p;
      assert path != [] ==> |p + path| != |p|;
    } else {
      LeavesExtend(p, f, 0);
      if EndsInLeaf(f, path) {
        assert path != [];
        var i :| 0 <= i < |f| && f[i].sig == path[0] && EndsInLeaf(f[i].children, path[1..]);
        LeavesComplete(p + [f[i].sig], f[i].children, path[1..]);
        assert (p + [f[i].sig]) + path[1..] == p + path;
        ChildLeaves(p, f, 0, i, p + path);
      }
      if p + path in Leaves(p, f) {
        var k :| 0 <= k < |f| && f[k].sig == (p + path)[|p|] && p + path in Leaves(p + [f[k].sig], f[k].children);
        assert (p + [f[k].sig]) + path[1..] == p + path;
        LeavesComplete(p + [f[k].sig], f[k].children, path[1..]);
      }
    }
  }

  lemma {:induction false} ChildLeaves(p: Path, f: Forest, i: nat, k: nat, l: Path)
    requires i <= k < |f| && l in Leaves(p + [f[k].sig], f[k].children)
    ensures l in LeavesFrom(p, f, i)
    decreases k - i
  {
    if i < k { ChildLeaves(p, f, i + 1, k, l); }
  }
}
