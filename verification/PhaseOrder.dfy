/**
 Ordering the setup phases by their dependencies: a ready-set scan with ties broken by id.
*/
module PhaseOrder {
  import opened Options
  import opened StringOrder
  import opened Graphs

  datatype Mode = SeparateUser | OperatorRootless

  /** The scheduling data of a phase; its callbacks are supplied separately, by id. */
  datatype Phase = Phase(id: string, dependsOn: seq<string>, appliesIn: set<Mode>, hasRollback: bool)

  datatype OrderResult =
    | Ordered(phases: seq<Phase>)
    | UnknownDependency(phase: string, dep: string)
    | DependencyCycle(ids: seq<string>)

  function Ids(phases: seq<Phase>): seq<string> {
    seq(|phases|, i requires 0 <= i < |phases| => phases[i].id)
  }

  /** The dictionary keyed by id: of several phases with one id the last one counts. */
  function ById(phases: seq<Phase>): (m: map<string, Phase>)
    ensures forall id :: id in m ==> m[id] in phases && m[id].id == id
    ensures forall p :: p in phases ==> p.id in m
  {
    if phases == [] then map[]
    else
      var last := phases[|phases| - 1];
      ById(phases[..|phases| - 1])[last.id := last]
  }

  function PhaseGraph(phases: seq<Phase>): Graph {
    var byId := ById(phases);
    Graph(map id | id in byId :: IdSet(byId[id].dependsOn))
  }

  predicate NamesUnknown(phases: seq<Phase>, p: Phase, dep: string) {
    p in phases && dep in p.dependsOn && dep !in ById(phases)
  }

  predicate StrictlySorted(ids: seq<string>) {
    forall i, j :: 0 <= i < j < |ids| ==> StrLess(ids[i], ids[j])
  }

  lemma {:induction false} LeastIdExists(ids: set<string>) returns (least: string)
    requires ids != {}
    ensures least in ids && forall y :: y in ids ==> y == least || StrLess(least, y)
  {
    var x :| x in ids;
    if ids == {x} {
      least := x;
    } else {
      var rest := LeastIdExists(ids - {x});
      StrLessTrichotomy(x, rest);
      least := if StrLess(x, rest) then x else rest;
      forall y | y in ids
        ensures y == least || StrLess(least, y)
      {
        if y != x && y != rest && least == x {
          StrLessTransitive(x, rest, y);
        }
      }
    }
  }

  predicate IsLeastId(ids: set<string>, x: string) {
    x in ids && forall y :: y in ids ==> y == x || StrLess(x, y)
  }

  function LeastId(ids: set<string>): (x: string)
    requires ids != {}
    ensures IsLeastId(ids, x)
  {
    assert exists x :: IsLeastId(ids, x) by {
      var l := LeastIdExists(ids);
      assert IsLeastId(ids, l);
    }
    assert forall x, y :: IsLeastId(ids, x) && IsLeastId(ids, y) ==> x == y by {
      forall x, y | IsLeastId(ids, x) && IsLeastId(ids, y)
        ensures x == y
      {
        StrLessTrichotomy(x, y);
      }
    }
    var x :| IsLeastId(ids, x);
    x
  }

  /** The ids in ascending order. */
  function SortedIds(ids: set<string>): (r: seq<string>)
    ensures StrictlySorted(r) && IdSet(r) == ids
  {
    if ids == {} then []
    else
      var x := LeastId(ids);
      var rest := SortedIds(ids - {x});
      assert IdSet([x] + rest) == {x} + IdSet(rest);
      assert forall y :: y in rest ==> y in IdSet(rest);
      [x] + rest
  }

  predicate IsReady(p: Phase, placed: set<string>, known: set<string>) {
    forall d :: d in p.dependsOn ==> d in placed || d !in known
  }

  /** The phases that could run next, in the order they are listed. */
  function Ready(remaining: seq<Phase>, placed: set<string>, known: set<string>): (r: seq<Phase>)
    ensures forall p :: p in r <==> p in remaining && IsReady(p, placed, known)
    ensures r != [] ==> exists k :: 0 <= k < |remaining| && remaining[k] == r[0]
                                 && forall j :: 0 <= j < k ==> !IsReady(remaining[j], placed, known)
  {
    if remaining == [] then []
    else if IsReady(remaining[0], placed, known) then [remaining[0]] + Ready(remaining[1..], placed, known)
    else
      var r := Ready(remaining[1..], placed, known);
      assert r != [] ==>
          exists k :: 0 <= k < |remaining| && remaining[k] == r[0]
                   && forall j :: 0 <= j < k ==> !IsReady(remaining[j], placed, known) by {
        if r != [] {
          var k :| 0 <= k < |remaining[1..]| && remaining[1..][k] == r[0]
                && forall j :: 0 <= j < k ==> !IsReady(remaining[1..][j], placed, known);
          assert remaining[k + 1] == r[0];
          forall j | 0 <= j < k + 1
            ensures !IsReady(remaining[j], placed, known)
          {
            assert j > 0 ==> remaining[j] == remaining[1..][j - 1];
          }
        }
      }
      r
  }

  /** `list.remove`: drops the first occurrence. */
  function Remove(s: seq<Phase>, p: Phase): seq<Phase> {
    if s == [] then [] else if s[0] == p then s[1..] else [s[0]] + Remove(s[1..], p)
  }

  ghost predicate ReadyId(g: Graph, placed: seq<string>, n: string) {
    n in g.deps && n !in placed && forall d :: g.Edge(n, d) ==> d in placed
  }

  /** The choice at position `i` is the least id that could come next. */
  ghost predicate GreedyAt(g: Graph, order: seq<string>, i: nat)
    requires i < |order|
  {
    forall n :: ReadyId(g, order[..i], n) ==> n == order[i] || StrLess(order[i], n)
  }

  /** Least among all dependency-respecting orders, compared id by id. */
  ghost predicate LeastTopological(g: Graph, order: seq<string>) {
    Topological(g, order) && forall t :: Topological(g, t) ==> SeqAtMost(order, t)
  }

  lemma {:induction false} FirstDifference(a: seq<string>, b: seq<string>) returns (i: nat)
    requires |a| == |b| && a != b
    ensures i < |a| && a[i] != b[i] && a[..i] == b[..i]
  {
    if a[0] != b[0] {
      i := 0;
    } else {
      assert a == [a[0]] + a[1..] && b == [b[0]] + b[1..];
      i := FirstDifference(a[1..], b[1..]);
      assert a[..i + 1] == [a[0]] + a[1..][..i];
      assert b[..i + 1] == [b[0]] + b[1..][..i];
      i := i + 1;
    }
  }

  /** Always taking the least ready id gives the least order. */
  lemma {:induction false} GreedyIsLeast(g: Graph, order: seq<string>, t: seq<string>)
    requires Topological(g, order) && Topological(g, t)
    requires forall i :: 0 <= i < |order| ==> GreedyAt(g, order, i)
    ensures SeqAtMost(order, t)
  {
    DistinctCount(order);
    DistinctCount(t);
    if order != t {
      var i := FirstDifference(order, t);
      assert GreedyAt(g, order, i);
      assert t[i] in IdSet(t);
      assert ReadyId(g, order[..i], t[i]);
    }
  }

  /** There is at most one least order, so the outcome of the sort is a function of the graph alone. */
  lemma {:induction false} LeastTopologicalUnique(g: Graph, a: seq<string>, b: seq<string>)
    requires LeastTopological(g, a) && LeastTopological(g, b)
    ensures a == b
  {
    SeqAtMostAntisymmetric(a, b);
  }

  ghost predicate ListsUnknown(phases: seq<Phase>) {
    exists p, d :: NamesUnknown(phases, p, d)
  }

  /** The ids placed so far form a dependency-respecting prefix, chosen greedily. */
  ghost predicate GreedyPrefix(g: Graph, order: seq<string>) {
    && NoDuplicates(order) && DependenciesFirst(g, order)
    && forall i :: 0 <= i < |order| ==> GreedyAt(g, order, i)
  }

  lemma GreedyExtends(g: Graph, order: seq<string>, n: string)
    requires GreedyPrefix(g, order) && ReadyId(g, order, n)
    requires forall m :: ReadyId(g, order, m) ==> m == n || StrLess(n, m)
    ensures GreedyPrefix(g, order + [n])
  {
    var order' := order + [n];
    assert order'[..|order|] == order;
    forall i | 0 <= i < |order|
      ensures order'[..i] == order[..i]
    {}
    forall i | 0 <= i < |order'|
      ensures GreedyAt(g, order', i)
    {
      if i < |order| {
        assert GreedyAt(g, order, i);
      }
    }
  }

  ghost predicate AreEntries(ps: seq<Phase>, byId: map<string, Phase>) {
    forall p :: p in ps ==> p.id in byId && byId[p.id] == p
  }

  /** Every id is either placed or still waiting, and the waiting ones are sorted. */
  ghost predicate Accounted(done: seq<string>, waiting: seq<string>, placed: set<string>, all: set<string>) {
    && IdSet(done) == placed
    && StrictlySorted(waiting)
    && placed !! IdSet(waiting)
    && placed + IdSet(waiting) == all
  }

  /** What the sort leaves behind and what it has placed, at every step. */
  ghost predicate SortInvariant(phases: seq<Phase>, ordered: seq<Phase>, remaining: seq<Phase>, placed: set<string>) {
    && Accounted(Ids(ordered), Ids(remaining), placed, ById(phases).Keys)
    && AreEntries(ordered, ById(phases)) && AreEntries(remaining, ById(phases))
    && GreedyPrefix(PhaseGraph(phases), Ids(ordered))
  }

  lemma {:induction false} RemoveCutsOut(s: seq<Phase>, k: nat)
    requires k < |s| && forall j :: 0 <= j < k ==> s[j] != s[k]
    ensures Remove(s, s[k]) == s[..k] + s[k + 1..]
  {
    if k > 0 {
      RemoveCutsOut(s[1..], k - 1);
      assert s[..k] == [s[0]] + s[1..][..k - 1];
    }
  }

  lemma CutIds(ids: seq<string>, k: nat)
    requires k < |ids| && StrictlySorted(ids)
    ensures StrictlySorted(ids[..k] + ids[k + 1..])
    ensures forall j :: 0 <= j < |ids| && j != k ==> ids[j] != ids[k]
    ensures ids[k] !in ids[..k] + ids[k + 1..]
    ensures IdSet(ids) == IdSet(ids[..k] + ids[k + 1..]) + {ids[k]}
  {
    forall j | 0 <= j < |ids| && j != k
      ensures ids[j] != ids[k]
    {
      StrLessTrichotomy(ids[j], ids[k]);
    }
    assert forall x :: x in ids <==> x in ids[..k] || x == ids[k] || x in ids[k + 1..] by {
      assert ids == ids[..k] + [ids[k]] + ids[k + 1..];
    }
  }

  lemma RemoveFromSorted(s: seq<Phase>, k: nat)
    requires k < |s| && StrictlySorted(Ids(s))
    ensures Remove(s, s[k]) == s[..k] + s[k + 1..]
  {
    CutIds(Ids(s), k);
    forall j | 0 <= j < k
      ensures s[j] != s[k]
    {
      assert Ids(s)[j] != Ids(s)[k];
    }
    RemoveCutsOut(s, k);
  }

  lemma CutOutOfSorted(s: seq<Phase>, k: nat)
    requires k < |s| && StrictlySorted(Ids(s))
    ensures Remove(s, s[k]) == s[..k] + s[k + 1..]
    ensures Ids(Remove(s, s[k])) == Ids(s)[..k] + Ids(s)[k + 1..]
  {
    RemoveFromSorted(s, k);
    IdsOfCut(s, k);
  }

  lemma IdsOfCut(s: seq<Phase>, k: nat)
    requires k < |s|
    ensures Ids(s[..k] + s[k + 1..]) == Ids(s)[..k] + Ids(s)[k + 1..]
  {}

  lemma MovingKeepsAccount(
    done: seq<string>, waiting: seq<string>, placed: set<string>, all: set<string>, k: nat)
    requires Accounted(done, waiting, placed, all) && k < |waiting|
    ensures Accounted(done + [waiting[k]], waiting[..k] + waiting[k + 1..], placed + {waiting[k]}, all)
  {
    CutIds(waiting, k);
    assert waiting[k] in IdSet(waiting);
    var cut := waiting[..k] + waiting[k + 1..];
    assert waiting[k] !in IdSet(cut);
    assert IdSet(done + [waiting[k]]) == IdSet(done) + {waiting[k]};
  }

  lemma CutKeepsEntries(remaining: seq<Phase>, k: nat, byId: map<string, Phase>)
    requires k < |remaining| && AreEntries(remaining, byId)
    ensures AreEntries(remaining[..k] + remaining[k + 1..], byId)
  {
    assert forall p :: p in remaining[..k] + remaining[k + 1..] ==> p in remaining;
  }

  lemma PlacingKeepsSorting(
    phases: seq<Phase>, ordered: seq<Phase>, remaining: seq<Phase>, placed: set<string>, k: nat)
    requires SortInvariant(phases, ordered, remaining, placed)
    requires k < |remaining| && IsReady(remaining[k], placed, ById(phases).Keys)
    requires forall j :: 0 <= j < k ==> !IsReady(remaining[j], placed, ById(phases).Keys)
    ensures |Remove(remaining, remaining[k])| < |remaining|
    ensures SortInvariant(phases, ordered + [remaining[k]], Remove(remaining, remaining[k]), placed + {remaining[k].id})
  {
    FirstReadyIsLeast(phases, ordered, remaining, placed, k);
    GreedyExtends(PhaseGraph(phases), Ids(ordered), remaining[k].id);
    MovingKeepsAccount(Ids(ordered), Ids(remaining), placed, ById(phases).Keys, k);
    CutOutOfSorted(remaining, k);
    CutKeepsEntries(remaining, k, ById(phases));
    Placed(phases, ordered, remaining[k], Remove(remaining, remaining[k]), placed);
  }

  lemma Placed(phases: seq<Phase>, ordered: seq<Phase>, p: Phase, rest: seq<Phase>, placed: set<string>)
    requires Accounted(Ids(ordered) + [p.id], Ids(rest), placed + {p.id}, ById(phases).Keys)
    requires AreEntries(ordered, ById(phases)) && AreEntries([p], ById(phases)) && AreEntries(rest, ById(phases))
    requires GreedyPrefix(PhaseGraph(phases), Ids(ordered) + [p.id])
    ensures SortInvariant(phases, ordered + [p], rest, placed + {p.id})
  {
    assert Ids(ordered + [p]) == Ids(ordered) + [p.id];
  }

  lemma FirstReadyIsLeast(
    phases: seq<Phase>, ordered: seq<Phase>, remaining: seq<Phase>, placed: set<string>, k: nat)
    requires SortInvariant(phases, ordered, remaining, placed)
    requires k < |remaining| && IsReady(remaining[k], placed, ById(phases).Keys)
    requires forall j :: 0 <= j < k ==> !IsReady(remaining[j], placed, ById(phases).Keys)
    ensures ReadyId(PhaseGraph(phases), Ids(ordered), remaining[k].id)
    ensures forall n :: ReadyId(PhaseGraph(phases), Ids(ordered), n) ==>
                          n == remaining[k].id || StrLess(remaining[k].id, n)
  {
    var g, ids := PhaseGraph(phases), Ids(remaining);
    assert forall d :: d in placed <==> d in Ids(ordered) by {
      assert forall d :: d in IdSet(Ids(ordered)) <==> d in Ids(ordered);
    }
    assert remaining[k].id in IdSet(ids) by { assert ids[k] in ids; }
    assert remaining[k] in remaining;
    forall n | ReadyId(g, Ids(ordered), n)
      ensures n == remaining[k].id || StrLess(remaining[k].id, n)
    {
      assert n !in IdSet(Ids(ordered));
      assert n in IdSet(ids);
      var m :| 0 <= m < |ids| && ids[m] == n;
      forall d | d in remaining[m].dependsOn && d in ById(phases)
        ensures d in placed
      {
        assert g.Edge(n, d);
        assert d in IdSet(Ids(ordered));
      }
      assert IsReady(remaining[m], placed, ById(phases).Keys);
      assert k <= m;
      assert k < m ==> StrLess(ids[k], ids[m]);
    }
  }

  lemma StuckDependsOnStuck(
    phases: seq<Phase>, ordered: seq<Phase>, remaining: seq<Phase>, placed: set<string>, n: string)
    requires SortInvariant(phases, ordered, remaining, placed)
    requires Ready(remaining, placed, ById(phases).Keys) == [] && n in Ids(remaining)
    ensures DependsInto(PhaseGraph(phases), n, IdSet(Ids(remaining)))
  {
    var k :| 0 <= k < |remaining| && Ids(remaining)[k] == n;
    assert remaining[k] in remaining;
    assert !IsReady(remaining[k], placed, ById(phases).Keys);
    var d :| d in remaining[k].dependsOn && d !in placed && d in ById(phases);
    assert PhaseGraph(phases).Edge(n, d);
  }

  /** When nothing is ready, the phases left over are exactly those that can reach a cycle. */
  lemma StuckPhases(phases: seq<Phase>, ordered: seq<Phase>, remaining: seq<Phase>, placed: set<string>)
    requires SortInvariant(phases, ordered, remaining, placed)
    requires remaining != [] && Ready(remaining, placed, ById(phases).Keys) == []
    ensures forall n :: n in Ids(remaining) <==> n in ById(phases) && PhaseGraph(phases).ReachesCycle(n)
    ensures !PhaseGraph(phases).Acyclic()
  {
    var g, stuck := PhaseGraph(phases), IdSet(Ids(remaining));
    forall n | n in stuck
      ensures DependsInto(g, n, stuck)
    {
      StuckDependsOnStuck(phases, ordered, remaining, placed, n);
    }
    forall n | n in stuck
      ensures g.ReachesCycle(n)
    {
      StuckNodeReachesCycle(g, stuck, n);
    }
    forall n | n in IdSet(Ids(ordered))
      ensures !g.ReachesCycle(n)
    {
      ListedNodeReachesNoCycle(g, Ids(ordered), n);
    }
    assert Ids(remaining)[0] in stuck;
  }

  lemma AllPlaced(phases: seq<Phase>, ordered: seq<Phase>, placed: set<string>)
    requires SortInvariant(phases, ordered, [], placed)
    ensures LeastTopological(PhaseGraph(phases), Ids(ordered)) && PhaseGraph(phases).Acyclic()
  {
    var g := PhaseGraph(phases);
    assert IdSet(Ids([])) == {};
    forall t | Topological(g, t)
      ensures SeqAtMost(Ids(ordered), t)
    {
      GreedyIsLeast(g, Ids(ordered), t);
    }
    forall n | n in g.deps
      ensures !g.ReachesCycle(n)
    {
      assert n in IdSet(Ids(ordered));
      ListedNodeReachesNoCycle(g, Ids(ordered), n);
    }
  }

  /** The first of `deps` that is no key of `byId`. */
  method FirstUnknown(deps: seq<string>, byId: map<string, Phase>) returns (dep: Option<string>)
    ensures dep.None? <==> forall d :: d in deps ==> d in byId
    ensures dep.Some? ==> dep.value in deps && dep.value !in byId
  {
    for j := 0 to |deps|
      invariant forall d :: d in deps[..j] ==> d in byId
    {
      if deps[j] !in byId {
        return Some(deps[j]);
      }
    }
    assert deps[..|deps|] == deps;
    return None;
  }

  /** The strict-mode guard: the first dependency, in list order, that names no phase. */
  method FindUnknown(phases: seq<Phase>, byId: map<string, Phase>) returns (found: bool, phase: string, dep: string)
    requires byId == ById(phases)
    ensures found <==> ListsUnknown(phases)
    ensures found ==> exists p :: NamesUnknown(phases, p, dep) && p.id == phase
  {
    for i := 0 to |phases|
      invariant forall j, d :: 0 <= j < i && d in phases[j].dependsOn ==> d in byId
    {
      var unknown := FirstUnknown(phases[i].dependsOn, byId);
      if unknown.Some? {
        assert NamesUnknown(phases, phases[i], unknown.value);
        return true, phases[i].id, unknown.value;
      }
    }
    NoneUnknown(phases);
    return false, "", "";
  }

  lemma NoneUnknown(phases: seq<Phase>)
    requires forall j, d :: 0 <= j < |phases| && d in phases[j].dependsOn ==> d in ById(phases)
    ensures !ListsUnknown(phases)
  {
    forall p, d
      ensures !NamesUnknown(phases, p, d)
    {
      if p in phases {
        var j :| 0 <= j < |phases| && phases[j] == p;
      }
    }
  }

  lemma NothingPlaced(phases: seq<Phase>, remaining: seq<Phase>)
    requires |remaining| == |SortedIds(ById(phases).Keys)|
    requires forall i :: 0 <= i < |remaining| ==> remaining[i] == ById(phases)[SortedIds(ById(phases).Keys)[i]]
    ensures SortInvariant(phases, [], remaining, {})
  {
    assert Ids(remaining) == SortedIds(ById(phases).Keys);
    AllWait(Ids(remaining), ById(phases).Keys);
  }

  lemma AllWait(waiting: seq<string>, all: set<string>)
    requires StrictlySorted(waiting) && IdSet(waiting) == all
    ensures Accounted(Ids([]), waiting, {}, all)
  {
    assert IdSet(Ids([])) == {};
  }

  method OrderPhases(phases: seq<Phase>, allowExternalDeps: bool) returns (r: OrderResult)
    ensures r.UnknownDependency? <==> !allowExternalDeps && ListsUnknown(phases)
    ensures r.UnknownDependency? ==> exists p :: NamesUnknown(phases, p, r.dep) && p.id == r.phase
    ensures r.DependencyCycle? <==> !(!allowExternalDeps && ListsUnknown(phases)) && !PhaseGraph(phases).Acyclic()
    ensures r.DependencyCycle? ==>
              StrictlySorted(r.ids) &&
              forall n :: n in r.ids <==> n in ById(phases) && PhaseGraph(phases).ReachesCycle(n)
    ensures r.Ordered? ==>
              LeastTopological(PhaseGraph(phases), Ids(r.phases)) &&
              AreEntries(r.phases, ById(phases))
  {
    var byId := ById(phases);
    if !allowExternalDeps {
      var found, phase, dep := FindUnknown(phases, byId);
      if found {
        return UnknownDependency(phase, dep);
      }
    }
    var ordered: seq<Phase> := [];
    var placed: set<string> := {};
    var sorted := SortedIds(byId.Keys);
    var remaining := seq(|sorted|, i requires 0 <= i < |sorted| => assert sorted[i] in IdSet(sorted); byId[sorted[i]]);
    NothingPlaced(phases, remaining);
    while remaining != []
      invariant SortInvariant(phases, ordered, remaining, placed)
      decreases |remaining|
    {
      var ready := Ready(remaining, placed, byId.Keys);
      if ready == [] {
        StuckPhases(phases, ordered, remaining, placed);
        return DependencyCycle(Ids(remaining));
      }
      var next := ready[0];
      ghost var k :| 0 <= k < |remaining| && remaining[k] == next
                  && forall j :: 0 <= j < k ==> !IsReady(remaining[j], placed, byId.Keys);
      assert next in ready;
      PlacingKeepsSorting(phases, ordered, remaining, placed, k);
      ordered := ordered + [next];
      placed := placed + {next.id};
      remaining := Remove(remaining, next);
    }
    AllPlaced(phases, ordered, placed);
    return Ordered(ordered);
  }
}
