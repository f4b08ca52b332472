/** Reachability in a finite graph of blocks. */
module Graph {

  /** The blocks that each block refers to. */
  type Graph = map<int, set<int>>

  ghost predicate Path(g: Graph, p: seq<int>) {
    && p != []
    && (forall i :: 0 <= i < |p| ==> p[i] in g)
    && forall i, j :: 0 <= i && j == i + 1 && j < |p| ==> p[j] in g[p[i]]
  }

  /** Some chain of references leads from a root to x. */
  ghost predicate Reach(g: Graph, roots: set<int>, x: int) {
    exists p :: Path(g, p) && p[0] in roots && p[|p| - 1] == x
  }

  ghost predicate Closed(g: Graph, s: set<int>) {
    forall x :: x in s && x in g ==> forall y :: y in g[x] && y in g ==> y in s
  }

  /** A path grows by one edge at its end. */
  lemma PathSnoc(g: Graph, front: seq<int>, x: int)
    requires front != []
    ensures Path(g, front + [x]) <==> Path(g, front) && x in g && x in g[front[|front| - 1]]
  {
    var p := front + [x];
    assert p[|front| - 1] == front[|front| - 1] && p[|front|] == x;
    if Path(g, p) {
      forall i | 0 <= i < |front| ensures front[i] in g { assert p[i] == front[i]; }
      forall i, j | 0 <= i && j == i + 1 && j < |front| ensures front[j] in g[front[i]] { assert p[j] in g[p[i]]; }
    }
  }

  lemma ReachRoot(g: Graph, roots: set<int>, x: int)
    requires x in roots && x in g
    ensures Reach(g, roots, x)
  {
    var p := [x];
    assert Path(g, p) && p[0] in roots && p[|p| - 1] == x;
  }

  lemma ReachStep(g: Graph, roots: set<int>, x: int, y: int)
    requires Reach(g, roots, x) && x in g && y in g[x] && y in g
    ensures Reach(g, roots, y)
  {
    var p :| Path(g, p) && p[0] in roots && p[|p| - 1] == x;
    var q := p + [y];
    assert forall i :: 0 <= i < |p| ==> q[i] == p[i];
    assert Path(g, q) && q[0] in roots && q[|q| - 1] == y;
  }

  lemma {:induction false} PathInClosed(g: Graph, s: set<int>, p: seq<int>, i: nat)
    requires Closed(g, s) && Path(g, p) && p[0] in s && i < |p|
    ensures p[i] in s
  {
    if i > 0 {
      PathInClosed(g, s, p, i - 1);
      var x, y := p[i - 1], p[i];
      assert x in s && x in g && y in g[x] && y in g;
    }
  }

  /** The reachable blocks lie in every closed set that holds the roots. */
  lemma ReachInClosed(g: Graph, roots: set<int>, s: set<int>, x: int)
    requires Closed(g, s) && (forall r :: r in roots && r in g ==> r in s) && Reach(g, roots, x)
    ensures x in s
  {
    var p :| Path(g, p) && p[0] in roots && p[|p| - 1] == x;
    var r := p[0];
    assert r in roots && r in g;
    PathInClosed(g, s, p, |p| - 1);
  }
}
