/**
 * What a user of SUBCASE can rely on: every leaf is run exactly once, in program order,
 * precisely when no hash clash occurs along the walk; and an ordinary test shape for which a
 * clash is certain, whatever the subcases are called.
 */
module SubcaseTheorems {
  import opened SubcaseHash
  import opened SubcaseHashLaws
  import opened SubcaseTree
  import opened SubcaseEngine

  /** Running one test case with a fresh engine. */
  method RunTestCase(f: Forest) returns (runs: seq<Path>)
    requires Distinct(f)
    ensures runs == Leaves([], f) <==> !Clash(PathHash, Walk([], f))
    ensures Clash(PathHash, Walk([], f)) ==> |runs| < |Leaves([], f)|
    ensures !Clash(PathHash, Walk([], f)) ==>
              NoDuplicates(runs) && forall path :: EndsInLeaf(f, path) <==> path in runs
    ensures forall path, rows :: f == Nest(path, rows) && EasilyTold(rows) ==> runs == Leaves([], f)
  {
    var engine := new Engine();
    runs := engine.RunTest(f);
    ExploresAllLeaves(engine.key, f);
    LeavesOnce([], f);
    forall path ensures EndsInLeaf(f, path) <==> path in Leaves([], f) {
      LeavesComplete([], f, path);
      assert [] + path == path;
    }
    forall path, rows | f == Nest(path, rows) && EasilyTold(rows) ensures !Clash(PathHash, Walk([], f)) {
      RowsDoNotClash(path, rows);
    }
  }

  /** Subcases nested one inside the other, with `inner` at the bottom. */
  function Nest(path: Path, inner: Forest): (f: Forest) {
    if path == [] then inner else [Node(path[0], Nest(path[1..], inner))]
  }

  lemma {:induction false} WalkNest(p: Path, path: Path, inner: Forest)
    ensures Walk(p, Nest(path, inner)) == Walk(p + path, inner)
    decreases |path|
  {
    if path == [] {
      assert p + path == p;
    } else {
      WalkNest(p + [path[0]], path[1..], inner);
      assert (p + [path[0]]) + path[1..] == p + path;
      var f := Nest(path, inner);
      assert Walk(p, f) == Walk(p + [path[0]], f[0].children) + WalkFrom(p, f, 1);
    }
  }

  // ---------------------------------------------------------------------------------------
  // Rows of leaves, however deep
  // ---------------------------------------------------------------------------------------

  /** Subcases without subcases of their own. */
  ghost predicate Row(f: Forest) {
    f != [] && forall i :: 0 <= i < |f| ==> f[i].children == []
  }

  /** A row in which any two differ in the line alone, or in one character of name or file. */
  ghost predicate EasilyTold(f: Forest) {
    Row(f) && forall i, j :: 0 <= i < j < |f| ==> ToldApart(f[i].sig, f[j].sig)
  }

  ghost predicate Repeated(f: Forest) {
    exists i, j :: 0 <= i < j < |f| && SignatureHash(f[i].sig) == SignatureHash(f[j].sig)
  }

  lemma {:induction false} WalkRowFrom(p: Path, f: Forest, i: nat)
    requires Row(f) && i <= |f|
    ensures var ev := WalkFrom(p, f, i);
            && |ev| == 2 * (|f| - i)
            && (forall j :: i <= j < |f| ==> ev[2 * (j - i)] == Offered(p + [f[j].sig]))
            && (forall j :: i <= j < |f| ==> ev[2 * (j - i) + 1] == Finished(p + [f[j].sig]))
    decreases |f| - i
  {
    if i < |f| {
      WalkRowFrom(p, f, i + 1);
      var here := p + [f[i].sig];
      assert Walk(here, f[i].children) == [Finished(here)];
      assert WalkFrom(p, f, i) == [Offered(here), Finished(here)] + WalkFrom(p, f, i + 1);
    }
  }

  lemma WalkRow(p: Path, f: Forest)
    requires Row(f)
    ensures var ev := Walk(p, f);
            && |ev| == 2 * |f| - 1
            && (forall j :: 0 <= j < |f| ==> ev[2 * j] == Finished(p + [f[j].sig]))
            && (forall j :: 1 <= j < |f| ==> ev[2 * j - 1] == Offered(p + [f[j].sig]))
  {
    WalkRowFrom(p, f, 1);
    var first := p + [f[0].sig];
    assert Walk(first, f[0].children) == [Finished(first)];
    var ev, rest := Walk(p, f), WalkFrom(p, f, 1);
    assert ev == [Finished(first)] + rest;
    forall j | 1 <= j < |f| ensures ev[2 * j] == Finished(p + [f[j].sig]) && ev[2 * j - 1] == Offered(p + [f[j].sig]) {
      assert ev[2 * j] == rest[2 * (j - 1) + 1] && ev[2 * j - 1] == rest[2 * (j - 1)];
    }
  }

  lemma RepeatedClashes(p: Path, f: Forest, i: nat, j: nat)
    requires Row(f) && i < j < |f| && SignatureHash(f[i].sig) == SignatureHash(f[j].sig)
    ensures Clash(PathHash, Walk(p, f))
  {
    WalkRow(p, f);
    SiblingsHashApart(p, f[i].sig, f[j].sig);
    assert ClashAt(PathHash, Walk(p, f), 2 * i, 2 * j - 1);
  }

  lemma EventOfRow(p: Path, f: Forest, a: nat)
    requires Row(f) && a < |Walk(p, f)|
    ensures a / 2 < |f| && (a + 1) / 2 < |f|
    ensures Walk(p, f)[a] == if a % 2 == 0 then Finished(p + [f[a / 2].sig]) else Offered(p + [f[(a + 1) / 2].sig])
  {
    WalkRow(p, f);
    Halves(a);
    RowEvent(p, f, a, (a + 1) / 2);
  }

  lemma Halves(a: nat)
    ensures if a % 2 == 0 then a == 2 * (a / 2) && (a + 1) / 2 == a / 2
            else a == 2 * ((a + 1) / 2) - 1 && (a + 1) / 2 == a / 2 + 1
  {
  }

  lemma RowEvent(p: Path, f: Forest, a: nat, j: nat)
    requires Row(f) && a < 2 * |f| - 1 && (a == 2 * j || a == 2 * j - 1)
    ensures j < |f| && |Walk(p, f)| == 2 * |f| - 1
    ensures Walk(p, f)[a] == if a == 2 * j then Finished(p + [f[j].sig]) else Offered(p + [f[j].sig])
  {
    WalkRow(p, f);
  }

  lemma ClashIsRepeated(p: Path, f: Forest, a: nat, b: nat)
    requires Row(f) && ClashAt(PathHash, Walk(p, f), a, b)
    ensures Repeated(f)
  {
    EventOfRow(p, f, a);
    EventOfRow(p, f, b);
    SiblingsHashApart(p, f[a / 2].sig, f[(b + 1) / 2].sig);
  }

  /** In a row nothing clashes unless two signatures have one hash. */
  lemma RowClashes(p: Path, f: Forest)
    requires Row(f)
    ensures Clash(PathHash, Walk(p, f)) <==> Repeated(f)
  {
    if Repeated(f) {
      var i, j :| 0 <= i < j < |f| && SignatureHash(f[i].sig) == SignatureHash(f[j].sig);
      RepeatedClashes(p, f, i, j);
    }
    if Clash(PathHash, Walk(p, f)) {
      var a, b :| ClashAt(PathHash, Walk(p, f), a, b);
      ClashIsRepeated(p, f, a, b);
    }
  }

  /** At the bottom of any nest, subcases that are easily told apart are all run. */
  lemma RowsDoNotClash(path: Path, rows: Forest)
    requires EasilyTold(rows)
    ensures !Clash(PathHash, Walk([], Nest(path, rows)))
  {
    WalkNest([], path, rows);
    assert [] + path == path;
    RowClashes(path, rows);
    forall i, j | 0 <= i < j < |rows| ensures SignatureHash(rows[i].sig) != SignatureHash(rows[j].sig) {
      SignaturesHashApart(rows[i].sig, rows[j].sig);
    }
  }

  // ---------------------------------------------------------------------------------------
  // A shape that is not run completely
  // ---------------------------------------------------------------------------------------

  lemma {:induction false} NestDistinct(path: Path, inner: Forest)
    requires Distinct(inner)
    ensures Distinct(Nest(path, inner))
    decreases |path|
  {
    if path != [] { NestDistinct(path[1..], inner); }
  }

  /** Two subcases that call the same helper, in which two leaves lie below `shared`. */
  function SharedHelper(a: Signature, b: Signature, shared: Path, x: Signature, y: Signature): (f: Forest) {
    var helper := Nest(shared, [Node(x, []), Node(y, [])]);
    [Node(a, helper), Node(b, helper)]
  }

  lemma WalkTwoLeaves(p: Path, x: Signature, y: Signature)
    ensures Walk(p, [Node(x, []), Node(y, [])]) == [Finished(p + [x]), Offered(p + [y]), Finished(p + [y])]
  {
    var f := [Node(x, []), Node(y, [])];
    assert WalkFrom(p, f, 2) == [];
    assert WalkFrom(p, f, 1) == [Offered(p + [y])] + [Finished(p + [y])] + [];
  }

  lemma WalkTwoSubcases(a: Signature, b: Signature, helper: Forest)
    ensures Walk([], [Node(a, helper), Node(b, helper)]) == Walk([a], helper) + [Offered([b])] + Walk([b], helper)
  {
    var f := [Node(a, helper), Node(b, helper)];
    assert [] + [a] == [a] && [] + [b] == [b];
    assert WalkFrom([], f, 2) == [];
    assert WalkFrom([], f, 1) == [Offered([b])] + Walk([b], helper) + [];
  }

  lemma WalkSharedHelper(a: Signature, b: Signature, shared: Path, x: Signature, y: Signature)
    ensures var walk := Walk([], SharedHelper(a, b, shared, x, y));
            |walk| == 7 && walk[2] == Finished([a] + shared + [y]) && walk[5] == Offered([b] + shared + [y])
  {
    var inner := [Node(x, []), Node(y, [])];
    WalkNest([a], shared, inner);
    WalkNest([b], shared, inner);
    WalkTwoLeaves([a] + shared, x, y);
    WalkTwoLeaves([b] + shared, x, y);
    WalkTwoSubcases(a, b, Nest(shared, inner));
  }

  lemma SharedHelperClash(h: PathKey, a: Signature, b: Signature, shared: Path, x: Signature, y: Signature)
    requires h([a] + shared + [y]) == h([b] + shared + [y])
    ensures var f := SharedHelper(a, b, shared, x, y);
            |Explore(h, [], f, {}).leaves| < |Leaves([], f)|
  {
    WalkSharedHelper(a, b, shared, x, y);
    var f := SharedHelper(a, b, shared, x, y);
    assert ClashAt(h, Walk([], f), 2, 5);
    ExploresAllLeaves(h, f);
  }

  /**
   * If the helper nests twelve subcases or more above its two leaves, the second leaf is not
   * run below the second subcase: the hash no longer tells it from the one below the first.
   */
  lemma SharedHelperMissesLeaf(a: Signature, b: Signature, shared: Path, x: Signature, y: Signature)
    requires a != b && x != y && |shared| >= 12
    ensures Distinct(SharedHelper(a, b, shared, x, y))
    ensures var f := SharedHelper(a, b, shared, x, y);
            |Explore(PathHash, [], f, {}).leaves| < |Leaves([], f)|
  {
    NestDistinct(shared, [Node(x, []), Node(y, [])]);
    LeafForgotten(a, b, shared, y);
    SharedHelperClash(PathHash, a, b, shared, x, y);
  }

  lemma LeafForgotten(a: Signature, b: Signature, shared: Path, y: Signature)
    requires |shared| >= 12
    ensures PathHash([a] + shared + [y]) == PathHash([b] + shared + [y])
  {
    HashForgetsIn([a] + shared + [y], [b] + shared + [y], [a], [b], shared + [y]);
  }

  lemma HashForgetsIn(x: Path, x': Path, p: Path, p': Path, s: Path)
    requires |s| >= 13 && x == p + s && x' == p' + s
    ensures PathHash(x) == PathHash(x')
  {
    HashForgets(p, p', s);
  }
}
