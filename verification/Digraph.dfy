/** Finite directed graphs, used for the reference graph of a Fluent bundle and
    for the import graph of a configuration. On an acyclic part of a graph the
    number of reachable nodes falls along every edge, which is what lets a
    recursion without a guard terminate. */
module Digraph {

  type Graph<!N(!new)> = map<N, set<N>>

  /** Every edge ends in a node. */
  ghost predicate Closed<N(!new)>(g: Graph<N>) {
    forall u | u in g :: g[u] <= g.Keys
  }

  /** A walk of at least one edge. */
  ghost predicate Walk<N(!new)>(g: Graph<N>, p: seq<N>) {
    && |p| >= 2
    && forall i | 0 <= i < |p| - 1 :: p[i] in g && p[i + 1] in g[p[i]]
  }

  ghost predicate Reaches<N(!new)>(g: Graph<N>, u: N, v: N) {
    exists p: seq<N> :: Walk(g, p) && p[0] == u && p[|p| - 1] == v
  }

  ghost function Reach<N(!new)>(g: Graph<N>, u: N): set<N> {
    set v | v in g && Reaches(g, u, v)
  }

  /** No cycle can be entered from u. */
  ghost predicate AcyclicFrom<N(!new)>(g: Graph<N>, u: N) {
    && !Reaches(g, u, u)
    && forall v | v in g && Reaches(g, u, v) :: !Reaches(g, v, v)
  }

  lemma {:induction false} EdgeReaches<N(!new)>(g: Graph<N>, u: N, v: N)
    requires u in g && v in g[u]
    ensures Reaches(g, u, v)
  {
    assert Walk(g, [u, v]);
  }

  lemma {:induction false} ReachesTransitive<N(!new)>(g: Graph<N>, u: N, v: N, w: N)
    requires Reaches(g, u, v) && Reaches(g, v, w)
    ensures Reaches(g, u, w)
  {
    var p :| Walk(g, p) && p[0] == u && p[|p| - 1] == v;
    var q :| Walk(g, q) && q[0] == v && q[|q| - 1] == w;
    var r := p + q[1..];
    assert Walk(g, r) by {
      forall i | 0 <= i < |r| - 1
        ensures r[i] in g && r[i + 1] in g[r[i]]
      {
        if i >= |p| - 1 {
          assert r[i] == q[i - (|p| - 1)] && r[i + 1] == q[i + 1 - (|p| - 1)];
        }
      }
    }
    assert r[0] == u && r[|r| - 1] == w;
  }

  /** Following an edge out of an acyclic part stays in it and leaves fewer
      nodes to reach. */
  lemma {:induction false} Descend<N(!new)>(g: Graph<N>, u: N, v: N)
    requires Closed(g) && u in g && v in g[u] && AcyclicFrom(g, u)
    ensures AcyclicFrom(g, v)
    ensures Reach(g, v) < Reach(g, u) && |Reach(g, v)| < |Reach(g, u)|
  {
    EdgeReaches(g, u, v);
    forall w | w in g && Reaches(g, v, w)
      ensures Reaches(g, u, w)
    {
      ReachesTransitive(g, u, v, w);
    }
    assert v in Reach(g, u) && v !in Reach(g, v);
    Smaller(Reach(g, v), Reach(g, u));
  }

  lemma {:induction false} Smaller<N>(a: set<N>, b: set<N>)
    requires a < b
    ensures |a| < |b|
  {
    var d := b - a;
    assert b == a + d && a !! d && d != {};
  }

  /** The first edge of a walk, and what is left of it. */
  lemma {:induction false} FirstStep<N(!new)>(g: Graph<N>, u: N, w: N) returns (v: N)
    requires Reaches(g, u, w)
    ensures u in g && v in g[u]
    ensures v == w || Reaches(g, v, w)
  {
    var p :| Walk(g, p) && p[0] == u && p[|p| - 1] == w;
    v := p[1];
    if |p| > 2 {
      var q := p[1..];
      assert Walk(g, q) && q[0] == v && q[|q| - 1] == w;
    }
  }

  // ----- stacks -----

  ghost predicate NoRepeats<N(!new)>(s: seq<N>) {
    forall i, j | 0 <= i < j < |s| :: s[i] != s[j]
  }

  /** A stack without repeats is no longer than the set it draws from. */
  lemma {:induction false} StackFits<N(!new)>(s: seq<N>, within: set<N>)
    requires NoRepeats(s) && forall i | 0 <= i < |s| :: s[i] in within
    ensures |s| <= |within|
    decreases s
  {
    if s != [] {
      var last, rest := s[|s| - 1], s[..|s| - 1];
      forall i | 0 <= i < |rest| ensures rest[i] in within - {last} {
        assert rest[i] == s[i];
      }
      StackFits(rest, within - {last});
    }
  }
}
