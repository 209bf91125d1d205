/**
 * doctest's subcase engine: the constructor and destructor of `Subcase`, a test body that
 * meets its subcases in program order, and the loop that re-runs the body until no subcase
 * has been put aside for a next run.
 */
module SubcaseEngine {
  import opened Common
  import opened SubcaseHash
  import opened SubcaseTree

  // ---------------------------------------------------------------------------------------
  // One run, as a function of where it starts
  // ---------------------------------------------------------------------------------------

  /** The position of the first subcase in `f` with signature `sig`, or `|f|`. */
  function IndexOf(f: Forest, sig: Signature): (j: nat)
    ensures j <= |f|
    ensures j < |f| ==> f[j].sig == sig
  {
    if f == [] then 0 else if f[0].sig == sig then 0 else 1 + IndexOf(f[1..], sig)
  }

  /** The position of the subcase a run enters below `p` when it has been sent to `next`. */
  function Child(p: Path, f: Forest, next: Path): (j: nat) {
    if |next| <= |p| then 0 else IndexOf(f, next[|p|])
  }

  /** `next` names a path that exists in `f` below `p`, or stops at `p` or above. */
  ghost predicate Target(p: Path, f: Forest, next: Path)
    decreases f
  {
    |next| <= |p| ||
    var j := IndexOf(f, next[|p|]);
    j < |f| && p + [f[j].sig] <= next && Target(p + [f[j].sig], f[j].children, next)
  }

  /** The leaf a run reaches. */
  ghost function Reached(p: Path, f: Forest, next: Path): (l: Path)
    requires Target(p, f, next)
    ensures p <= l && (f != [] ==> p < l)
    decreases f
  {
    if f == [] then p
    else var j := Child(p, f, next); Reached(p + [f[j].sig], f[j].children, next)
  }

  /** The first subcase from position `i` on whose path hash is not in `seen`; `[]` if there is none. */
  ghost function FirstFresh(h: PathKey, p: Path, f: Forest, i: nat, seen: set<Word>): (n: Path)
    requires i <= |f|
    ensures n == [] || (p < n && |n| == |p| + 1)
    decreases |f| - i
  {
    if i == |f| then []
    else if h(p + [f[i].sig]) !in seen then p + [f[i].sig]
    else FirstFresh(h, p, f, i + 1, seen)
  }

  lemma FreshNext(h: PathKey, p: Path, f: Forest, i: nat, seen: set<Word>)
    requires i < |f|
    ensures var path := p + [f[i].sig];
            FirstFresh(h, p, f, i, seen) == if h(path) in seen then FirstFresh(h, p, f, i + 1, seen) else path
  {
  }

  /** What a run puts aside for the next one: the deepest fresh subcase after the leaf it reached. */
  ghost function PutAside(h: PathKey, p: Path, f: Forest, next: Path, seen: set<Word>): (n: Path)
    requires Target(p, f, next)
    ensures n == [] || p < n
    decreases f
  {
    if f == [] then []
    else
      var j := Child(p, f, next);
      var deeper := PutAside(h, p + [f[j].sig], f[j].children, next, seen);
      if deeper != [] then deeper else FirstFresh(h, p, f, j + 1, seen)
  }

  /** Behind the leaf a run has reached, `put` and the fresh subcases from `i` on settle what is put aside. */
  ghost predicate Settles(h: PathKey, p: Path, f: Forest, next: Path, seen: set<Word>, i: nat, put: Path)
    requires Target(p, f, next) && i <= |f|
  {
    && (put == [] || |put| > |p|)
    && PutAside(h, p, f, next, seen) == if put != [] then put else FirstFresh(h, p, f, i, seen)
  }

  lemma EntersChild(p: Path, f: Forest, next: Path, i: nat)
    requires Distinct(f) && Target(p, f, next) && i < |f|
    ensures var j := Child(p, f, next); var leaf := Reached(p, f, next);
            && j < |f| && Target(p + [f[j].sig], f[j].children, next)
            && |leaf| > |p| && leaf[|p|] == f[j].sig && leaf[..|p|] == p
            && leaf == Reached(p + [f[j].sig], f[j].children, next)
            && (i == j <==> f[i].sig == f[j].sig)
            && (|next| <= |p| ==> j == 0) && (|next| > |p| ==> next[|p|] == f[j].sig)
  {
    var j := Child(p, f, next);
    var leaf := Reached(p + [f[j].sig], f[j].children, next);
    assert p + [f[j].sig] <= leaf;
    assert leaf[..|p|] == (p + [f[j].sig])[..|p|] == p;
  }

  lemma Deepest(h: PathKey, p: Path, f: Forest, next: Path, seen: set<Word>)
    requires f != [] && Target(p, f, next)
    ensures var j := Child(p, f, next);
            Settles(h, p, f, next, seen, j + 1, PutAside(h, p + [f[j].sig], f[j].children, next, seen))
  {
  }

  /** A subcase behind the leaf is put aside if it is the first fresh one and nothing is deeper. */
  lemma Settled(h: PathKey, p: Path, f: Forest, next: Path, seen: set<Word>, i: nat, put: Path)
    requires Target(p, f, next) && i < |f| && Settles(h, p, f, next, seen, i, put)
    ensures var path := p + [f[i].sig];
            Settles(h, p, f, next, seen, i + 1, if |put| <= |p| && h(path) !in seen then path else put)
  {
    FreshNext(h, p, f, i, seen);
  }

  /** What remains of the exploration when the next run is sent to `next`. */
  ghost function Resume(h: PathKey, p: Path, f: Forest, next: Path, seen: set<Word>): (v: Visit)
    requires Target(p, f, next)
    decreases f
  {
    if f == [] then Visit([p], seen + {h(p)})
    else
      var j := Child(p, f, next);
      var here := Resume(h, p + [f[j].sig], f[j].children, next, seen);
      var rest := ExploreFrom(h, p, f, j + 1, here.seen);
      Visit(here.leaves + rest.leaves, rest.seen)
  }

  lemma {:induction false} ResumeFromTop(h: PathKey, p: Path, f: Forest, next: Path, seen: set<Word>)
    requires |next| <= |p|
    ensures Resume(h, p, f, next, seen) == Explore(h, p, f, seen)
    decreases f
  {
    if f != [] { ResumeFromTop(h, p + [f[0].sig], f[0].children, next, seen); }
  }

  lemma {:induction false} IndexIsUnique(f: Forest, j: nat)
    requires j < |f| && forall i, k :: 0 <= i < k < |f| ==> f[i].sig != f[k].sig
    ensures IndexOf(f, f[j].sig) == j
  {
    if j > 0 {
      assert f[0].sig != f[j].sig;
      IndexIsUnique(f[1..], j - 1);
    }
  }

  /** Sending a run to the first fresh subcase from `i` on resumes the exploration at `i`. */
  lemma {:induction false} ResumeAtFresh(h: PathKey, p: Path, f: Forest, i: nat, seen: set<Word>)
    requires Distinct(f) && i <= |f|
    ensures var n := FirstFresh(h, p, f, i, seen);
            if n == [] then ExploreFrom(h, p, f, i, seen) == Visit([], seen)
            else Target(p, f, n) && Resume(h, p, f, n, seen) == ExploreFrom(h, p, f, i, seen)
    decreases |f| - i
  {
    if i < |f| {
      var n := p + [f[i].sig];
      if h(n) in seen {
        ResumeAtFresh(h, p, f, i + 1, seen);
      } else {
        IndexIsUnique(f, i);
        ResumeFromTop(h, n, f[i].children, n, seen);
      }
    }
  }

  /** What a run from `next` into `f`, with `seen` recorded before it, leaves behind. */
  ghost predicate Peels(h: PathKey, p: Path, f: Forest, next: Path, seen: set<Word>)
    requires Target(p, f, next)
  {
    var leaf := Reached(p, f, next);
    var seen' := seen + {h(leaf)};
    PeelsTo(h, p, f, Resume(h, p, f, next, seen), leaf, seen', PutAside(h, p, f, next, seen'))
  }

  ghost predicate PeelsTo(h: PathKey, p: Path, f: Forest, v: Visit, leaf: Path, seen': set<Word>, n: Path) {
    if n == [] then v == Visit([leaf], seen')
    else Target(p, f, n) && v == Visit([leaf] + Resume(h, p, f, n, seen').leaves, Resume(h, p, f, n, seen').seen)
  }

  lemma PeelStaysBelow(h: PathKey, p: Path, f: Forest, j: nat, v: Visit, leaf: Path, seen': set<Word>, n: Path)
    requires j < |f| && IndexOf(f, f[j].sig) == j && p + [f[j].sig] < n
    requires PeelsTo(h, p + [f[j].sig], f[j].children, v, leaf, seen', n)
    ensures var rest := ExploreFrom(h, p, f, j + 1, v.seen);
            PeelsTo(h, p, f, Visit(v.leaves + rest.leaves, rest.seen), leaf, seen', n)
  {
    ResumeBelow(h, p, f, j, n, seen');
    Assoc([leaf], Resume(h, p + [f[j].sig], f[j].children, n, seen').leaves, ExploreFrom(h, p, f, j + 1, v.seen).leaves);
  }

  lemma ResumeBelow(h: PathKey, p: Path, f: Forest, j: nat, n: Path, seen: set<Word>)
    requires j < |f| && IndexOf(f, f[j].sig) == j && p + [f[j].sig] < n
    requires Target(p + [f[j].sig], f[j].children, n)
    ensures Target(p, f, n)
    ensures var deep := Resume(h, p + [f[j].sig], f[j].children, n, seen);
            var rest := ExploreFrom(h, p, f, j + 1, deep.seen);
            Resume(h, p, f, n, seen) == Visit(deep.leaves + rest.leaves, rest.seen)
  {
    assert n[|p|] == f[j].sig by { assert (p + [f[j].sig])[|p|] == n[|p|]; }
    assert Child(p, f, n) == j;
  }

  /** One run peels exactly one leaf off the remaining exploration and leaves the rest to the next run. */
  lemma {:induction false} RunPeelsLeaf(h: PathKey, p: Path, f: Forest, next: Path, seen: set<Word>)
    requires Distinct(f) && Target(p, f, next)
    ensures Peels(h, p, f, next, seen)
    decreases f
  {
    if f != [] {
      var j := Child(p, f, next);
      var q, g := p + [f[j].sig], f[j].children;
      RunPeelsLeaf(h, q, g, next, seen);
      var v := Resume(h, q, g, next, seen);
      var leaf := Reached(q, g, next);
      var seen' := seen + {h(leaf)};
      var deeper := PutAside(h, q, g, next, seen');
      if deeper == [] {
        ResumeAtFresh(h, p, f, j + 1, seen');
      } else {
        IndexIsUnique(f, j);
        PeelStaysBelow(h, p, f, j, v, leaf, seen', deeper);
      }
    }
  }

  ghost function Remaining(h: PathKey, f: Forest, next: Path, seen: set<Word>): (r: seq<Path>)
    requires Target([], f, next)
  {
    Resume(h, [], f, next, seen).leaves
  }

  /** The next-run path and the finished hashes after a run from the top of the body. */
  ghost function After(h: PathKey, f: Forest, next: Path, seen: set<Word>): (Path, set<Word>)
    requires Target([], f, next)
  {
    if f == [] then (next, seen)
    else var seen' := seen + {h(Reached([], f, next))}; (PutAside(h, [], f, next, seen'), seen')
  }

  /** A run moves one leaf from what remains of `all` to what has been run. */
  lemma RunFromTop(h: PathKey, f: Forest, next: Path, seen: set<Word>, runs: seq<Path>, all: seq<Path>)
    requires Distinct(f) && Target([], f, next) && (f == [] ==> next == [])
    requires all == runs + Remaining(h, f, next, seen)
    ensures var (n, seen') := After(h, f, next, seen);
            && Target([], f, n)
            && (f == [] ==> n == [])
            && all == (runs + [Reached([], f, next)]) + if n == [] then [] else Remaining(h, f, n, seen')
  {
    var leaf := Reached([], f, next);
    var (n, seen') := After(h, f, next, seen);
    if f != [] { RunPeelsLeaf(h, [], f, next, seen); }
    var left := if n == [] then [] else Remaining(h, f, n, seen');
    assert Remaining(h, f, next, seen) == [leaf] + left;
    Assoc(runs, [leaf], left);
  }

  // ---------------------------------------------------------------------------------------
  // The engine
  // ---------------------------------------------------------------------------------------

  class Engine {
    var reachedLeaf: bool
    var subcaseStack: Path
    var nextSubcaseStack: Path
    var fullyTraversedSubcases: set<Word>
    var currentSubcaseDepth: nat

    /** `PathHash` as a value, so that proofs about runs need not look inside it. */
    ghost const key: PathKey

    ghost predicate Valid() {
      forall path {:trigger PathHash(path)} :: key(path) == PathHash(path)
    }

    constructor ()
      ensures Valid() && key == PathHash && nextSubcaseStack == []
    {
      key := PathHash;
      reachedLeaf, subcaseStack, nextSubcaseStack := false, [], [];
      fullyTraversedSubcases, currentSubcaseDepth := {}, 0;
    }

    /** `Subcase::Subcase`; the result is `m_entered`. */
    method Construct(sig: Signature) returns (entered: bool)
      requires Valid()
      requires reachedLeaf ==> currentSubcaseDepth < |subcaseStack|
      modifies this
      ensures reachedLeaf == old(reachedLeaf) && fullyTraversedSubcases == old(fullyTraversedSubcases)
      ensures currentSubcaseDepth == old(currentSubcaseDepth) + if entered then 1 else 0
      ensures !reachedLeaf ==>
                && nextSubcaseStack == old(nextSubcaseStack)
                && (entered <==> |nextSubcaseStack| <= |old(subcaseStack)|
                                 || nextSubcaseStack[|old(subcaseStack)|] == sig)
                && subcaseStack == old(subcaseStack) + if entered then [sig] else []
      ensures reachedLeaf ==>
                && subcaseStack == old(subcaseStack)
                && (entered <==> subcaseStack[old(currentSubcaseDepth)] == sig)
      ensures reachedLeaf && !entered ==>
                var path := subcaseStack[..currentSubcaseDepth] + [sig];
                nextSubcaseStack ==
                  if |old(nextSubcaseStack)| <= currentSubcaseDepth && key(path) !in fullyTraversedSubcases
                  then path else old(nextSubcaseStack)
      ensures reachedLeaf && entered ==> nextSubcaseStack == old(nextSubcaseStack)
    {
      entered := false;
      if !reachedLeaf {
        if |nextSubcaseStack| <= |subcaseStack| || nextSubcaseStack[|subcaseStack|] == sig {
          subcaseStack := subcaseStack + [sig];
          currentSubcaseDepth := currentSubcaseDepth + 1;
          entered := true;
        }
      } else {
        if subcaseStack[currentSubcaseDepth] == sig {
          currentSubcaseDepth := currentSubcaseDepth + 1;
          entered := true;
        } else if |nextSubcaseStack| <= currentSubcaseDepth {
          var prefixHash := HashPrefix(subcaseStack, currentSubcaseDepth);
          var sigHash := HashSignature(sig);
          HashExtends(subcaseStack[..currentSubcaseDepth], sig);
          if Mix(prefixHash, sigHash) !in fullyTraversedSubcases {
            nextSubcaseStack := subcaseStack[..currentSubcaseDepth] + [sig];
          }
        }
      }
    }

    /** `Subcase::~Subcase` of a subcase that was entered. */
    method Destroy()
      requires Valid()
      requires currentSubcaseDepth > 0
      modifies this
      ensures currentSubcaseDepth == old(currentSubcaseDepth) - 1
      ensures subcaseStack == old(subcaseStack)
      ensures reachedLeaf
      ensures nextSubcaseStack == if old(reachedLeaf) then old(nextSubcaseStack) else []
      ensures fullyTraversedSubcases == old(fullyTraversedSubcases)
                + if !old(reachedLeaf) || old(nextSubcaseStack) == [] then {key(subcaseStack)} else {}
    {
      currentSubcaseDepth := currentSubcaseDepth - 1;
      if !reachedLeaf {
        var h := HashPrefix(subcaseStack, |subcaseStack|);
        assert subcaseStack[..|subcaseStack|] == subcaseStack;
        fullyTraversedSubcases := fullyTraversedSubcases + {h};
        nextSubcaseStack := [];
        reachedLeaf := true;
      } else if nextSubcaseStack == [] {
        var h := HashPrefix(subcaseStack, |subcaseStack|);
        assert subcaseStack[..|subcaseStack|] == subcaseStack;
        fullyTraversedSubcases := fullyTraversedSubcases + {h};
      }
    }

    /**
     * The body below the entered path `p`: its subcases `f`, in program order. A body with
     * subcases reaches one leaf, records its hash, and puts aside the deepest fresh subcase
     * after it; a body without any changes nothing.
     */
    method RunBody(f: Forest, ghost p: Path)
      requires Valid()
      requires Distinct(f) && Target(p, f, nextSubcaseStack)
      requires !reachedLeaf && subcaseStack == p && currentSubcaseDepth == |p|
      modifies this
      ensures currentSubcaseDepth == |p|
      ensures reachedLeaf == (f != [])
      ensures subcaseStack == Reached(p, f, old(nextSubcaseStack))
      ensures fullyTraversedSubcases == old(fullyTraversedSubcases) + if f == [] then {} else {key(subcaseStack)}
      ensures nextSubcaseStack == if f == [] then old(nextSubcaseStack)
                                  else PutAside(key, p, f, old(nextSubcaseStack), fullyTraversedSubcases)
      decreases f, 1
    {
      ghost var next0, seen0 := nextSubcaseStack, fullyTraversedSubcases;
      for i := 0 to |f|
        invariant Standing(p, f, next0, seen0, i)
      {
        Meet(f, i, p, next0, seen0);
      }
    }

    /** Before the subcase at `i`, in a run sent to `next` that has recorded `seen` so far. */
    ghost predicate Standing(p: Path, f: Forest, next: Path, seen: set<Word>, i: nat)
      requires Target(p, f, next) && i <= |f|
      reads this
    {
      var leaf := Reached(p, f, next);
      && currentSubcaseDepth == |p|
      && if i <= Child(p, f, next)
         then !reachedLeaf && subcaseStack == p && nextSubcaseStack == next && fullyTraversedSubcases == seen
         else
           && reachedLeaf && subcaseStack == leaf && fullyTraversedSubcases == seen + {key(leaf)}
           && Settles(key, p, f, next, seen + {key(leaf)}, i, nextSubcaseStack)
    }

    /** One subcase of a body. */
    method Meet(f: Forest, i: nat, ghost p: Path, ghost next: Path, ghost seen: set<Word>)
      requires Valid()
      requires Distinct(f) && Target(p, f, next) && i < |f| && Standing(p, f, next, seen, i)
      modifies this
      ensures Standing(p, f, next, seen, i + 1)
      decreases f, 0
    {
      EntersChild(p, f, next, i);
      var entered := Construct(f[i].sig);
      if entered {
        RunBody(f[i].children, p + [f[i].sig]);
        Destroy();
        Deepest(key, p, f, next, seen + {key(Reached(p, f, next))});
      } else if i > Child(p, f, next) {
        Settled(key, p, f, next, seen + {key(Reached(p, f, next))}, i, old(nextSubcaseStack));
      }
    }

    /** One pass of the re-run loop: the per-run fields are reset and the test body is executed. */
    method RunOnce(f: Forest)
      requires Valid()
      requires Distinct(f) && Target([], f, nextSubcaseStack)
      modifies this
      ensures subcaseStack == Reached([], f, old(nextSubcaseStack))
      ensures (nextSubcaseStack, fullyTraversedSubcases)
           == After(key, f, old(nextSubcaseStack), old(fullyTraversedSubcases))
    {
      ghost var next, seen := nextSubcaseStack, fullyTraversedSubcases;
      reachedLeaf := false;
      subcaseStack := [];
      currentSubcaseDepth := 0;
      RunBody(f, []);
      assert After(key, f, next, seen).1 == fullyTraversedSubcases;
    }

    /**
     * The re-run loop of `Context::run` for one test case: it terminates, and the leaves its
     * runs reach are those of the exploration, in order.
     */
    method RunTest(f: Forest) returns (runs: seq<Path>)
      requires Valid()
      requires Distinct(f)
      requires nextSubcaseStack == []
      modifies this
      ensures runs == Explore(key, [], f, {}).leaves
      ensures nextSubcaseStack == []
    {
      fullyTraversedSubcases := {};
      runs := [];
      var runTest := true;
      ghost var all := Explore(key, [], f, {}).leaves;
      ResumeFromTop(key, [], f, [], {});
      while runTest
        invariant Target([], f, nextSubcaseStack)
        invariant f == [] ==> nextSubcaseStack == []
        invariant all == runs + if runTest then Remaining(key, f, nextSubcaseStack, fullyTraversedSubcases) else []
        invariant !runTest ==> nextSubcaseStack == []
        decreases runTest, |all| - |runs|
      {
        RunFromTop(key, f, nextSubcaseStack, fullyTraversedSubcases, runs, all);
        RunOnce(f);
        runs := runs + [subcaseStack];
        if nextSubcaseStack == [] { runTest := false; }
      }
    }
  }
}
