/**
 Finite dependency graphs: walks, cycles, and dependency-respecting orders.  Both schedulers of
 the repository are measured against the notions defined here.
*/
module Graphs {

  /** `deps[n]` holds the direct dependencies of `n`; only those that are nodes count as edges. */
  datatype Graph = Graph(deps: map<string, set<string>>) {
    ghost predicate Edge(n: string, d: string) {
      n in deps && d in deps && d in deps[n]
    }

    /** A walk along dependency edges. */
    ghost predicate Walk(w: seq<string>) {
      |w| > 0 && w[0] in deps && forall k :: 0 < k < |w| ==> EdgeInto(w, k)
    }

    ghost predicate EdgeInto(w: seq<string>, k: int)
      requires 0 < k < |w|
    {
      Edge(w[k - 1], w[k])
    }

    /** Some dependency cycle can be reached from `n`: a walk from `n` visits a node twice. */
    ghost predicate ReachesCycle(n: string) {
      exists w: seq<string>, i, j :: Walk(w) && w[0] == n && 0 <= i < j < |w| && w[i] == w[j]
    }

    ghost predicate Acyclic() {
      forall n :: n in deps ==> !ReachesCycle(n)
    }
  }

  ghost predicate DependsInto(g: Graph, n: string, nodes: set<string>) {
    exists d :: d in nodes && g.Edge(n, d)
  }

  ghost predicate NoDuplicates(s: seq<string>) {
    forall i, j :: 0 <= i < j < |s| ==> s[i] != s[j]
  }

  /** The members of a sequence of ids. */
  function IdSet(s: seq<string>): set<string> {
    set x | x in s
  }

  /** Every dependency of a listed node is listed, and earlier. */
  ghost predicate DependenciesFirst(g: Graph, order: seq<string>) {
    forall i, d :: 0 <= i < |order| && g.Edge(order[i], d) ==> d in order[..i]
  }

  /** `order` lists every node exactly once, dependencies first. */
  ghost predicate Topological(g: Graph, order: seq<string>) {
    NoDuplicates(order) && IdSet(order) == g.deps.Keys && DependenciesFirst(g, order)
  }

  /** Along a walk from a listed node the positions strictly decrease, so no node can recur. */
  lemma ListedNodeReachesNoCycle(g: Graph, order: seq<string>, n: string)
    requires NoDuplicates(order) && DependenciesFirst(g, order)
    requires n in order
    ensures !g.ReachesCycle(n)
  {
    if g.ReachesCycle(n) {
      var w: seq<string>, i, j :| g.Walk(w) && w[0] == n && 0 <= i < j < |w| && w[i] == w[j];
      var p :| 0 <= p < |order| && order[p] == n;
      p := WalkDescends(g, order, w, 0, i, p);
      var q := WalkDescends(g, order, w, i, j, p);
    }
  }

  /** Following a walk from index `a` to `b`, starting at position `p`, ends at a position `q <= p - (b - a)`. */
  lemma {:induction false} WalkDescends(g: Graph, order: seq<string>, w: seq<string>, a: nat, b: nat, p: nat)
    returns (q: nat)
    requires DependenciesFirst(g, order) && g.Walk(w)
    requires a <= b < |w| && p < |order| && order[p] == w[a]
    ensures q < |order| && order[q] == w[b] && q <= p - (b - a)
    decreases b - a
  {
    if a == b {
      q := p;
    } else {
      assert g.EdgeInto(w, a + 1);
      assert w[a + 1] in order[..p];
      var r :| 0 <= r < p && order[..p][r] == w[a + 1];
      q := WalkDescends(g, order, w, a + 1, b, r);
    }
  }

  /** In a set where every member depends on a member, one can walk on for ever, hence into a cycle. */
  lemma StuckNodeReachesCycle(g: Graph, stuck: set<string>, n: string)
    requires stuck <= g.deps.Keys && n in stuck
    requires forall x :: x in stuck ==> DependsInto(g, x, stuck)
    ensures g.ReachesCycle(n)
  {
    var w := WalkInside(g, stuck, n, |stuck|);
    if NoDuplicates(w) {
      DistinctCount(w);
      SubsetSize(IdSet(w), stuck);
    }
  }

  lemma {:induction false} WalkInside(g: Graph, stuck: set<string>, n: string, len: nat) returns (w: seq<string>)
    requires stuck <= g.deps.Keys && n in stuck
    requires forall x :: x in stuck ==> DependsInto(g, x, stuck)
    ensures g.Walk(w) && |w| == len + 1 && w[0] == n
    ensures forall k :: 0 <= k < |w| ==> w[k] in stuck
  {
    if len == 0 {
      w := [n];
    } else {
      var v := WalkInside(g, stuck, n, len - 1);
      assert DependsInto(g, v[len - 1], stuck);
      var d :| d in stuck && g.Edge(v[len - 1], d);
      w := v + [d];
      WalkOneMore(g, v, d);
    }
  }

  lemma WalkOneMore(g: Graph, v: seq<string>, d: string)
    requires g.Walk(v) && v != [] && g.Edge(v[|v| - 1], d)
    ensures g.Walk(v + [d])
  {
    var w := v + [d];
    forall k | 0 < k < |w|
      ensures g.EdgeInto(w, k)
    {
      assert k < |v| ==> g.EdgeInto(v, k);
    }
  }

  lemma {:induction false} DistinctCount(s: seq<string>)
    requires NoDuplicates(s)
    ensures |IdSet(s)| == |s|
  {
    if s == [] {
      assert IdSet(s) == {};
    } else {
      var t := s[..|s| - 1];
      DistinctCount(t);
      assert IdSet(s) == IdSet(t) + {s[|s| - 1]};
    }
  }

  lemma {:induction false} SubsetSize<T>(a: set<T>, b: set<T>)
    requires a <= b
    ensures |a| <= |b|
  {
    if a != {} {
      var x :| x in a;
      SubsetSize(a - {x}, b - {x});
    }
  }
}
