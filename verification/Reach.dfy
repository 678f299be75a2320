/** Reachability in a finite graph, and the argument every closure walk of the scripts ends with. */
module Reach {
  /** A node without an entry has no successors. */
  type Graph<T> = map<T, seq<T>>

  function Next<T>(g: Graph<T>, x: T): seq<T> {
    if x in g then g[x] else []
  }

  /** A path with at least one node, each followed by a successor. */
  ghost predicate Path<T>(g: Graph<T>, p: seq<T>) {
    p != [] && forall i | 0 <= i < |p| - 1 :: p[i + 1] in Next(g, p[i])
  }

  ghost predicate Reachable<T(!new)>(g: Graph<T>, roots: seq<T>, x: T) {
    exists p :: Path(g, p) && p[0] in roots && p[|p| - 1] == x
  }

  ghost predicate AllReachable<T(!new)>(g: Graph<T>, roots: seq<T>, xs: set<T>) {
    forall x | x in xs :: Reachable(g, roots, x)
  }

  /** Every successor of the set's nodes is in the set or in what is still to do. */
  ghost predicate Closed<T>(g: Graph<T>, xs: set<T>, todo: seq<T>) {
    forall x, y | x in xs && y in Next(g, x) :: y in xs || y in todo
  }

  lemma RootReachable<T(!new)>(g: Graph<T>, roots: seq<T>, x: T)
    requires x in roots
    ensures Reachable(g, roots, x)
  {
    assert Path(g, [x]);
  }

  lemma NextReachable<T(!new)>(g: Graph<T>, roots: seq<T>, x: T, y: T)
    requires Reachable(g, roots, x) && y in Next(g, x)
    ensures Reachable(g, roots, y)
  {
    var p :| Path(g, p) && p[0] in roots && p[|p| - 1] == x;
    var q := p + [y];
    assert Path(g, q);
    assert q[0] == p[0];
  }

  lemma {:induction false} PathStays<T>(g: Graph<T>, xs: set<T>, p: seq<T>, i: nat)
    requires Closed(g, xs, []) && Path(g, p) && p[0] in xs && i < |p|
    ensures p[i] in xs
  {
    if i > 0 {
      PathStays(g, xs, p, i - 1);
      assert p[i] in Next(g, p[i - 1]);
    }
  }

  /** A set of reachable nodes that holds the roots and every successor holds exactly the reachable ones. */
  lemma ClosedIsReachable<T(!new)>(g: Graph<T>, roots: seq<T>, xs: set<T>, x: T)
    requires Closed(g, xs, []) && AllReachable(g, roots, xs) && forall r | r in roots :: r in xs
    ensures x in xs <==> Reachable(g, roots, x)
  {
    if Reachable(g, roots, x) {
      var p :| Path(g, p) && p[0] in roots && p[|p| - 1] == x;
      PathStays(g, xs, p, |p| - 1);
    }
  }
}
