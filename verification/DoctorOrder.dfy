/**
 Ordering the diagnostic checks: an in-degree table and a first-in first-out queue.  Unlike the phase
 scheduler it never refuses: checks caught behind a dependency cycle are silently left out.
*/
module DoctorOrder {
  import opened Graphs
  import opened PhaseOrder

  datatype Check = Check(id: string, name: string, dependsOn: seq<string>, appliesIn: set<Mode>)

  datatype Link = Link(dep: string, dependent: string)

  /** `id_to_check`: of several checks with one id the last one counts. */
  function CheckById(checks: seq<Check>): (m: map<string, Check>)
    ensures forall id :: id in m <==> exists c :: c in checks && c.id == id
    ensures forall id :: id in m ==> m[id] in checks && m[id].id == id
  {
    if checks == [] then map[]
    else
      var last := checks[|checks| - 1];
      CheckById(checks[..|checks| - 1])[last.id := last]
  }

  /** The dependency edges inside the set, one per declaration, in declaration order. */
  function LinksOf(c: Check, known: set<string>, n: nat): seq<Link>
    requires n <= |c.dependsOn|
  {
    if n == 0 then []
    else
      LinksOf(c, known, n - 1) +
      if c.dependsOn[n - 1] in known then [Link(c.dependsOn[n - 1], c.id)] else []
  }

  function Links(checks: seq<Check>, known: set<string>): seq<Link> {
    if checks == [] then []
    else
      var last := checks[|checks| - 1];
      Links(checks[..|checks| - 1], known) + LinksOf(last, known, |last.dependsOn|)
  }

  function LinkGraph(links: seq<Link>, known: set<string>): Graph {
    Graph(map n | n in known :: set l | l in links && l.dependent == n :: l.dep)
  }

  function CheckGraph(checks: seq<Check>): Graph {
    LinkGraph(Links(checks, CheckById(checks).Keys), CheckById(checks).Keys)
  }

  /** The dependents of `d`, once per link, in link order: `adjacency[d]`. */
  function Dependents(links: seq<Link>, d: string): seq<string> {
    if links == [] then []
    else
      var last := links[|links| - 1];
      Dependents(links[..|links| - 1], d) + if last.dep == d then [last.dependent] else []
  }

  /** How many links into `n` start outside `done`. */
  function Pending(links: seq<Link>, done: set<string>, n: string): nat {
    if links == [] then 0
    else
      var last := links[|links| - 1];
      Pending(links[..|links| - 1], done, n) + if last.dependent == n && last.dep !in done then 1 else 0
  }

  function Occurrences(s: seq<string>, n: string): nat {
    if s == [] then 0
    else Occurrences(s[..|s| - 1], n) + if s[|s| - 1] == n then 1 else 0
  }

  lemma {:induction false} OccurrencesConcat(a: seq<string>, b: seq<string>, n: string)
    ensures Occurrences(a + b, n) == Occurrences(a, n) + Occurrences(b, n)
  {
    if b == [] {
      assert a + b == a;
    } else {
      OccurrencesConcat(a, b[..|b| - 1], n);
      assert (a + b)[..|a + b| - 1] == a + b[..|b| - 1];
    }
  }

  lemma OccurrencesOfOne(x: string, n: string)
    ensures Occurrences([x], n) == if x == n then 1 else 0
  {
    assert [x][..0] == [];
  }

  /** Completing `d` releases each dependent once per link. */
  lemma {:induction false} Completing(links: seq<Link>, done: set<string>, d: string, n: string)
    requires d !in done
    ensures Pending(links, done, n) == Pending(links, done + {d}, n) + Occurrences(Dependents(links, d), n)
  {
    if links != [] {
      Completing(links[..|links| - 1], done, d, n);
      var last := links[|links| - 1];
      if last.dep == d {
        OccurrencesConcat(Dependents(links[..|links| - 1], d), [last.dependent], n);
        OccurrencesOfOne(last.dependent, n);
      } else {
        assert Dependents(links, d) == Dependents(links[..|links| - 1], d);
      }
    }
  }

  lemma {:induction false} PendingZero(links: seq<Link>, done: set<string>, n: string)
    ensures Pending(links, done, n) == 0 <==> forall l :: l in links && l.dependent == n ==> l.dep in done
  {
    if links != [] {
      PendingZero(links[..|links| - 1], done, n);
      assert links == links[..|links| - 1] + [links[|links| - 1]];
    }
  }

  lemma {:induction false} LinksAreKnown(checks: seq<Check>, known: set<string>)
    requires forall c :: c in checks ==> c.id in known
    ensures forall l :: l in Links(checks, known) ==> l.dep in known && l.dependent in known
    ensures forall l :: l in Links(checks, known) <==>
              l.dep in known && exists c :: c in checks && c.id == l.dependent && l.dep in c.dependsOn
  {
    if checks != [] {
      var front, last := checks[..|checks| - 1], checks[|checks| - 1];
      assert checks == front + [last];
      LinksAreKnown(front, known);
      LinksOfCheck(last, known, |last.dependsOn|);
      assert last.dependsOn[..|last.dependsOn|] == last.dependsOn;
      forall l
        ensures l in Links(checks, known) <==>
                l.dep in known && exists c :: c in checks && c.id == l.dependent && l.dep in c.dependsOn
      {
        assert l in Links(checks, known) <==> l in Links(front, known) || l in LinksOf(last, known, |last.dependsOn|);
      }
    }
  }

  lemma {:induction false} LinksOfCheck(c: Check, known: set<string>, n: nat)
    requires n <= |c.dependsOn|
    ensures forall l :: l in LinksOf(c, known, n) <==>
                        l.dependent == c.id && l.dep in known && l.dep in c.dependsOn[..n]
  {
    if n > 0 {
      LinksOfCheck(c, known, n - 1);
      assert c.dependsOn[..n] == c.dependsOn[..n - 1] + [c.dependsOn[n - 1]];
    }
  }

  function Lookup(m: map<string, seq<string>>, key: string): seq<string> {
    if key in m then m[key] else []
  }

  /** The two tables describe the links seen so far. */
  ghost predicate Tables(
    links: seq<Link>, known: set<string>, inDegree: map<string, nat>, adjacency: map<string, seq<string>>)
  {
    && inDegree.Keys == known
    && (forall n :: n in known ==> inDegree[n] == Pending(links, {}, n))
    && (forall d :: Lookup(adjacency, d) == Dependents(links, d))
  }

  /** Where the sort stands between two rounds. */
  ghost predicate QueueInvariant(
    links: seq<Link>, known: set<string>, inDegree: map<string, nat>, sorted: seq<string>, queue: seq<string>)
  {
    && inDegree.Keys == known
    && NoDuplicates(sorted + queue) && IdSet(sorted + queue) <= known
    && (forall n :: n in known ==> inDegree[n] == Pending(links, IdSet(sorted), n))
    && (forall n :: n in known ==> (inDegree[n] == 0 <==> n in sorted + queue))
    && DependenciesFirst(LinkGraph(links, known), sorted)
  }

  /** In mid-round: `current` is emitted and the links to `rest` are still to be counted down. */
  ghost predicate RoundInvariant(
    links: seq<Link>, known: set<string>, inDegree: map<string, nat>, sorted: seq<string>, queue: seq<string>,
    rest: seq<string>)
  {
    && inDegree.Keys == known
    && NoDuplicates(sorted + queue) && IdSet(sorted + queue) <= known
    && (forall n :: n in known ==> inDegree[n] == Pending(links, IdSet(sorted), n) + Occurrences(rest, n))
    && (forall n :: n in known ==> (inDegree[n] == 0 <==> n in sorted + queue))
  }

  lemma AppendLink(links: seq<Link>, l: Link)
    ensures forall n :: Pending(links + [l], {}, n) == Pending(links, {}, n) + if l.dependent == n then 1 else 0
    ensures forall d :: Dependents(links + [l], d) == Dependents(links, d) + if l.dep == d then [l.dependent] else []
  {
    assert (links + [l])[..|links|] == links;
  }

  lemma AppendToTables(links: seq<Link>, known: set<string>, inDegree: map<string, nat>,
    adjacency: map<string, seq<string>>, l: Link)
    requires Tables(links, known, inDegree, adjacency) && l.dependent in known
    ensures Tables(links + [l], known, inDegree[l.dependent := inDegree[l.dependent] + 1],
                   adjacency[l.dep := Lookup(adjacency, l.dep) + [l.dependent]])
  {
    AppendLink(links, l);
    var adjacency' := adjacency[l.dep := Lookup(adjacency, l.dep) + [l.dependent]];
    forall d
      ensures Lookup(adjacency', d) == Dependents(links + [l], d)
    {
      assert Lookup(adjacency', d) == if d == l.dep then Lookup(adjacency, d) + [l.dependent] else Lookup(adjacency, d);
    }
  }

  lemma NextLink(links: seq<Link>, c: Check, known: set<string>, j: nat)
    requires j < |c.dependsOn|
    ensures var seen := links + LinksOf(c, known, j);
            links + LinksOf(c, known, j + 1) ==
            if c.dependsOn[j] in known then seen + [Link(c.dependsOn[j], c.id)] else seen
  {}

  method AddLinks(c: Check, known: set<string>, ghost links: seq<Link>,
                  inDegree0: map<string, nat>, adjacency0: map<string, seq<string>>)
    returns (inDegree: map<string, nat>, adjacency: map<string, seq<string>>)
    requires c.id in known && Tables(links, known, inDegree0, adjacency0)
    ensures Tables(links + LinksOf(c, known, |c.dependsOn|), known, inDegree, adjacency)
  {
    inDegree, adjacency := inDegree0, adjacency0;
    ghost var seen := links;
    for j := 0 to |c.dependsOn|
      invariant seen == links + LinksOf(c, known, j)
      invariant Tables(seen, known, inDegree, adjacency)
    {
      var dep := c.dependsOn[j];
      NextLink(links, c, known, j);
      if dep in known {
        AppendToTables(seen, known, inDegree, adjacency, Link(dep, c.id));
        adjacency, inDegree := adjacency[dep := Lookup(adjacency, dep) + [c.id]], inDegree[c.id := inDegree[c.id] + 1];
        seen := seen + [Link(dep, c.id)];
      }
    }
  }

  method BuildTables(checks: seq<Check>, byId: map<string, Check>)
    returns (inDegree: map<string, nat>, adjacency: map<string, seq<string>>)
    requires byId == CheckById(checks)
    ensures Tables(Links(checks, byId.Keys), byId.Keys, inDegree, adjacency)
  {
    inDegree := map id | id in byId :: 0;
    adjacency := map[];
    for i := 0 to |checks|
      invariant Tables(Links(checks[..i], byId.Keys), byId.Keys, inDegree, adjacency)
    {
      assert checks[..i + 1][..i] == checks[..i];
      inDegree, adjacency := AddLinks(checks[i], byId.Keys, Links(checks[..i], byId.Keys), inDegree, adjacency);
    }
    assert checks[..|checks|] == checks;
  }

  /** The checks without pending dependencies, in the order their ids first appear. */
  method InitialQueue(checks: seq<Check>, inDegree: map<string, nat>) returns (queue: seq<string>)
    requires forall c :: c in checks ==> c.id in inDegree
    ensures NoDuplicates(queue)
    ensures forall n :: n in queue <==> n in inDegree && inDegree[n] == 0 && exists c :: c in checks && c.id == n
  {
    queue := [];
    for i := 0 to |checks|
      invariant NoDuplicates(queue)
      invariant forall n :: n in queue <==>
                            n in inDegree && inDegree[n] == 0 && exists c :: c in checks[..i] && c.id == n
    {
      assert checks[..i + 1] == checks[..i] + [checks[i]];
      if inDegree[checks[i].id] == 0 && checks[i].id !in queue {
        queue := queue + [checks[i].id];
      }
    }
    assert checks[..|checks|] == checks;
  }

  lemma StartQueue(
    links: seq<Link>, known: set<string>, inDegree: map<string, nat>, adjacency: map<string, seq<string>>,
    queue: seq<string>)
    requires Tables(links, known, inDegree, adjacency) && NoDuplicates(queue)
    requires forall n :: n in queue <==> n in known && inDegree[n] == 0
    ensures QueueInvariant(links, known, inDegree, [], queue)
  {
    assert [] + queue == queue;
    assert IdSet([]) == {};
  }

  /** Taking `queue[0]` off the queue opens a round in which its dependents are counted down. */
  lemma OpenRound(
    links: seq<Link>, known: set<string>, inDegree: map<string, nat>, sorted: seq<string>, queue: seq<string>)
    requires QueueInvariant(links, known, inDegree, sorted, queue) && queue != []
    ensures RoundInvariant(links, known, inDegree, sorted + [queue[0]], queue[1..], Dependents(links, queue[0]))
    ensures DependenciesFirst(LinkGraph(links, known), sorted + [queue[0]])
    ensures |sorted| < |known|
  {
    var current := queue[0];
    var all := sorted + queue;
    assert all == (sorted + [current]) + queue[1..];
    assert all[|sorted|] == current;
    assert current in IdSet(all);
    assert current !in sorted by {
      forall i | 0 <= i < |sorted|
        ensures sorted[i] != current
      {
        assert all[i] != all[|sorted|];
      }
    }
    assert IdSet(sorted + [current]) == IdSet(sorted) + {current};
    forall n | n in known
      ensures inDegree[n] == Pending(links, IdSet(sorted + [current]), n) + Occurrences(Dependents(links, current), n)
    {
      Completing(links, IdSet(sorted), current, n);
    }
    EmittedInOrder(links, known, sorted, current);
    DistinctCount(all);
    SubsetSize(IdSet(all), known);
  }

  lemma EmittedInOrder(links: seq<Link>, known: set<string>, sorted: seq<string>, current: string)
    requires DependenciesFirst(LinkGraph(links, known), sorted)
    requires current in known && Pending(links, IdSet(sorted), current) == 0
    ensures DependenciesFirst(LinkGraph(links, known), sorted + [current])
  {
    var g, order := LinkGraph(links, known), sorted + [current];
    PendingZero(links, IdSet(sorted), current);
    forall i, d | 0 <= i < |order| && g.Edge(order[i], d)
      ensures d in order[..i]
    {
      assert order[..i] == sorted[..i];
      if i == |sorted| {
        assert sorted[..i] == sorted;
      }
    }
  }

  lemma CloseRound(
    links: seq<Link>, known: set<string>, inDegree: map<string, nat>, sorted: seq<string>, queue: seq<string>)
    requires RoundInvariant(links, known, inDegree, sorted, queue, [])
    requires DependenciesFirst(LinkGraph(links, known), sorted)
    ensures QueueInvariant(links, known, inDegree, sorted, queue)
  {}

  lemma {:induction false} DependentsAreKnown(links: seq<Link>, known: set<string>, d: string)
    requires forall l :: l in links ==> l.dependent in known
    ensures forall n :: n in Dependents(links, d) ==> n in known
  {
    if links != [] {
      DependentsAreKnown(links[..|links| - 1], known, d);
      assert links == links[..|links| - 1] + [links[|links| - 1]];
    }
  }

  /** The inner loop: counts every dependent down once per link and queues those that reach zero. */
  method CountDown(neighbors: seq<string>, ghost links: seq<Link>, ghost known: set<string>, ghost sorted: seq<string>,
                   inDegree0: map<string, nat>, queue0: seq<string>)
    returns (inDegree: map<string, nat>, queue: seq<string>)
    requires RoundInvariant(links, known, inDegree0, sorted, queue0, neighbors)
    requires forall n :: n in neighbors ==> n in known
    ensures RoundInvariant(links, known, inDegree, sorted, queue, [])
  {
    inDegree, queue := inDegree0, queue0;
    assert neighbors[0..] == neighbors;
    for k := 0 to |neighbors|
      invariant RoundInvariant(links, known, inDegree, sorted, queue, neighbors[k..])
    {
      var neighbor := neighbors[k];
      OneDown(links, known, inDegree, sorted, queue, neighbors[k..]);
      inDegree := inDegree[neighbor := inDegree[neighbor] - 1];
      if inDegree[neighbor] == 0 {
        queue := queue + [neighbor];
      }
      assert neighbors[k..][1..] == neighbors[k + 1..];
    }
  }

  lemma OneDown(
    links: seq<Link>, known: set<string>, inDegree: map<string, nat>, sorted: seq<string>, queue: seq<string>,
    rest: seq<string>)
    requires RoundInvariant(links, known, inDegree, sorted, queue, rest)
    requires rest != [] && rest[0] in known
    ensures inDegree[rest[0]] > 0
    ensures var inDegree' := inDegree[rest[0] := inDegree[rest[0]] - 1];
            RoundInvariant(links, known, inDegree', sorted,
                           if inDegree'[rest[0]] == 0 then queue + [rest[0]] else queue, rest[1..])
  {
    var n := rest[0];
    assert rest == [n] + rest[1..];
    forall m
      ensures Occurrences(rest, m) == Occurrences(rest[1..], m) + if m == n then 1 else 0
    {
      OccurrencesConcat([n], rest[1..], m);
      OccurrencesOfOne(n, m);
    }
    var all := sorted + queue;
    assert n !in all;
    assert sorted + (queue + [n]) == all + [n];
    assert IdSet(all + [n]) == IdSet(all) + {n};
  }

  /** When the queue runs dry, what was emitted is exactly what cannot reach a cycle. */
  lemma QueueRanDry(links: seq<Link>, known: set<string>, inDegree: map<string, nat>, sorted: seq<string>)
    requires QueueInvariant(links, known, inDegree, sorted, [])
    requires forall l :: l in links ==> l.dep in known && l.dependent in known
    ensures NoDuplicates(sorted) && DependenciesFirst(LinkGraph(links, known), sorted)
    ensures forall n :: n in sorted <==> n in known && !LinkGraph(links, known).ReachesCycle(n)
  {
    var g := LinkGraph(links, known);
    assert sorted + [] == sorted;
    var stuck := known - IdSet(sorted);
    forall n | n in stuck
      ensures DependsInto(g, n, stuck)
    {
      PendingZero(links, IdSet(sorted), n);
      var l :| l in links && l.dependent == n && l.dep !in IdSet(sorted);
      assert g.Edge(n, l.dep);
    }
    forall n | n in stuck
      ensures g.ReachesCycle(n)
    {
      StuckNodeReachesCycle(g, stuck, n);
    }
    forall n | n in sorted
      ensures n in known && !g.ReachesCycle(n)
    {
      assert n in IdSet(sorted);
      ListedNodeReachesNoCycle(g, sorted, n);
    }
  }

  /**
   Emits each check at most once, dependencies first, and exactly the checks from which no dependency
   cycle can be reached.
  */
  method TopologicalSort(checks: seq<Check>) returns (sorted: seq<Check>)
    ensures NoDuplicates(CheckIds(sorted)) && DependenciesFirst(CheckGraph(checks), CheckIds(sorted))
    ensures forall n :: n in CheckIds(sorted) <==> n in CheckById(checks) && !CheckGraph(checks).ReachesCycle(n)
    ensures forall c :: c in sorted ==> c.id in CheckById(checks) && CheckById(checks)[c.id] == c
  {
    var byId := CheckById(checks);
    ghost var links := Links(checks, byId.Keys);
    LinksAreKnown(checks, byId.Keys);
    var inDegree, adjacency := BuildTables(checks, byId);
    var queue := InitialQueue(checks, inDegree);
    StartQueue(links, byId.Keys, inDegree, adjacency, queue);
    var sortedIds: seq<string> := [];
    while queue != []
      invariant QueueInvariant(links, byId.Keys, inDegree, sortedIds, queue)
      decreases |byId.Keys| - |sortedIds|
    {
      OpenRound(links, byId.Keys, inDegree, sortedIds, queue);
      DependentsAreKnown(links, byId.Keys, queue[0]);
      var current := queue[0];
      queue := queue[1..];
      sortedIds := sortedIds + [current];
      inDegree, queue := CountDown(Lookup(adjacency, current), links, byId.Keys, sortedIds, inDegree, queue);
      CloseRound(links, byId.Keys, inDegree, sortedIds, queue);
    }
    QueueRanDry(links, byId.Keys, inDegree, sortedIds);
    sorted := Resolve(sortedIds, byId);
    ResolvedIds(checks, sortedIds);
  }

  function Resolve(ids: seq<string>, byId: map<string, Check>): seq<Check>
    requires forall n :: n in ids ==> n in byId
  {
    seq(|ids|, i requires 0 <= i < |ids| => assert ids[i] in ids; byId[ids[i]])
  }

  lemma ResolvedIds(checks: seq<Check>, ids: seq<string>)
    requires forall n :: n in ids ==> n in CheckById(checks)
    ensures CheckIds(Resolve(ids, CheckById(checks))) == ids
    ensures forall c :: c in Resolve(ids, CheckById(checks)) ==>
                          c.id in CheckById(checks) && CheckById(checks)[c.id] == c
  {
    var sorted := Resolve(ids, CheckById(checks));
    forall i | 0 <= i < |sorted|
      ensures sorted[i].id == ids[i] && CheckById(checks)[ids[i]] == sorted[i]
    {
      assert ids[i] in ids;
    }
  }

  function CheckIds(checks: seq<Check>): seq<string> {
    seq(|checks|, i requires 0 <= i < |checks| => checks[i].id)
  }

  /** All checks are emitted exactly when the dependency graph has no cycle. */
  lemma {:induction false} AllEmittedIffAcyclic(checks: seq<Check>, sorted: seq<Check>)
    requires forall n :: n in CheckIds(sorted) <==> n in CheckById(checks) && !CheckGraph(checks).ReachesCycle(n)
    ensures CheckGraph(checks).Acyclic() <==> IdSet(CheckIds(sorted)) == CheckById(checks).Keys
  {
    assert forall n :: n in IdSet(CheckIds(sorted)) <==> n in CheckIds(sorted);
  }
}
