/** Finite directed graphs and path reachability, shared by every traversal in the project. */
module Graphs {

  /** Successors by node. A node that is not a key has no outgoing edge. */
  type Graph<N(==)> = map<N, set<N>>

  ghost predicate IsPath<N>(g: Graph<N>, p: seq<N>) {
    |p| > 0 && forall i | 0 <= i < |p| - 1 :: p[i] in g && p[i + 1] in g[p[i]]
  }

  ghost predicate PathBetween<N>(g: Graph<N>, p: seq<N>, a: N, b: N) {
    IsPath(g, p) && p[0] == a && p[|p| - 1] == b
  }

  /** `b` can be reached from `a` by zero or more edges. */
  ghost predicate Reaches<N(!new)>(g: Graph<N>, a: N, b: N) {
    exists p :: PathBetween(g, p, a, b)
  }

  /** `b` can be reached from `a` by one or more edges. */
  ghost predicate ReachesStrictly<N(!new)>(g: Graph<N>, a: N, b: N) {
    a in g && exists c :: c in g[a] && Reaches(g, c, b)
  }

  ghost predicate HasCycle<N(!new)>(g: Graph<N>) {
    exists a :: ReachesStrictly(g, a, a)
  }

  /** Everything reachable from a set of seeds. */
  ghost predicate ReachableFrom<N(!new)>(g: Graph<N>, seeds: set<N>, b: N) {
    exists a :: a in seeds && Reaches(g, a, b)
  }

  lemma ReachesRefl<N(!new)>(g: Graph<N>, a: N)
    ensures Reaches(g, a, a)
  {
    assert PathBetween(g, [a], a, a);
  }

  lemma PathAppend<N>(g: Graph<N>, p: seq<N>, q: seq<N>, a: N, b: N, c: N)
    requires PathBetween(g, p, a, b) && PathBetween(g, q, b, c)
    ensures PathBetween(g, p + q[1..], a, c)
  {
    var r := p + q[1..];
    forall i | 0 <= i < |r| - 1 ensures r[i] in g && r[i + 1] in g[r[i]] {
      if i >= |p| - 1 {
        assert r[i] == q[i - |p| + 1] && r[i + 1] == q[i - |p| + 2];
      }
    }
    assert |q| == 1 ==> r == p;
  }

  lemma ReachesTrans<N(!new)>(g: Graph<N>, a: N, b: N, c: N)
    requires Reaches(g, a, b) && Reaches(g, b, c)
    ensures Reaches(g, a, c)
  {
    var p :| PathBetween(g, p, a, b);
    var q :| PathBetween(g, q, b, c);
    PathAppend(g, p, q, a, b, c);
  }

  lemma ReachesStep<N(!new)>(g: Graph<N>, a: N, b: N)
    requires a in g && b in g[a]
    ensures Reaches(g, a, b)
  {
    assert PathBetween(g, [a, b], a, b);
  }

  /** A path that starts in a set closed under edges never leaves it. */
  lemma {:induction false} ClosedPath<N>(g: Graph<N>, closed: set<N>, p: seq<N>, i: nat)
    requires IsPath(g, p) && p[0] in closed && i < |p|
    requires forall a | a in closed && a in g :: g[a] <= closed
    ensures p[i] in closed
  {
    if i > 0 {
      ClosedPath(g, closed, p, i - 1);
    }
  }
}
