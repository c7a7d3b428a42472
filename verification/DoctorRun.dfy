/**
 Running the diagnostic checks in order, with mode gating and cascading skips.  A check's own `run`
 is an arbitrary function of the check.
*/
module DoctorRun {
  import opened Graphs
  import opened PhaseOrder
  import PhaseRunner
  import opened DoctorOrder

  datatype Status = Pass | FailStatus | Skip | Warn

  datatype CheckResult = CheckResult(status: Status, name: string, detail: string)

  predicate Cascades(s: Status) {
    s.FailStatus? || s.Skip?
  }

  function Keep(deps: seq<string>, bad: set<string>): (r: seq<string>)
    ensures r == [] <==> forall d :: d in deps ==> d !in bad
  {
    if deps == [] then []
    else (if deps[0] in bad then [deps[0]] else []) + Keep(deps[1..], bad)
  }

  function CommaJoin(s: seq<string>): string {
    if s == [] then "" else if |s| == 1 then s[0] else s[0] + ", " + CommaJoin(s[1..])
  }

  /** The ids among the first `n` checks whose result cascades; mode-skipped checks never count. */
  function BadIds(sorted: seq<Check>, output: seq<CheckResult>, mode: Mode, n: nat): (r: set<string>)
    requires n <= |sorted| && n <= |output|
    ensures forall d :: d in r <==>
              exists j :: 0 <= j < n && sorted[j].id == d && mode in sorted[j].appliesIn && Cascades(output[j].status)
  {
    set j | 0 <= j < n && mode in sorted[j].appliesIn && Cascades(output[j].status) :: sorted[j].id
  }

  predicate Runs(c: Check, mode: Mode, bad: set<string>) {
    mode in c.appliesIn && Keep(c.dependsOn, bad) == []
  }

  /** What a check reports when the checks in `bad` have ended in a failure or a skip. */
  function Report(run: Check -> CheckResult, c: Check, mode: Mode, bad: set<string>): CheckResult {
    if mode !in c.appliesIn then CheckResult(Skip, c.name, "skipped (" + PhaseRunner.ModeValue(mode) + ")")
    else if Keep(c.dependsOn, bad) != [] then
      CheckResult(Skip, c.name, "skipped (requires: " + CommaJoin(Keep(c.dependsOn, bad)) + ")")
    else run(c)
  }

  /** The ids of the checks that run, in order, when `bad` is the final set of cascading ids. */
  function RunIds(sorted: seq<Check>, mode: Mode, bad: set<string>): seq<string> {
    if sorted == [] then []
    else
      var last := sorted[|sorted| - 1];
      RunIds(sorted[..|sorted| - 1], mode, bad) + if Runs(last, mode, bad) then [last.id] else []
  }

  /** Dependencies inside the list come strictly earlier. */
  ghost predicate CheckSchedule(sorted: seq<Check>) {
    && NoDuplicates(CheckIds(sorted))
    && forall i, j :: 0 <= i < |sorted| && 0 <= j < |sorted| && sorted[j].id in sorted[i].dependsOn ==> j < i
  }

  lemma SortedChecksAreASchedule(checks: seq<Check>, sorted: seq<Check>)
    requires NoDuplicates(CheckIds(sorted)) && DependenciesFirst(CheckGraph(checks), CheckIds(sorted))
    requires forall c :: c in sorted ==> c.id in CheckById(checks) && CheckById(checks)[c.id] == c
    ensures CheckSchedule(sorted)
  {
    var ids, known := CheckIds(sorted), CheckById(checks).Keys;
    LinksAreKnown(checks, known);
    forall i, j | 0 <= i < |sorted| && 0 <= j < |sorted| && sorted[j].id in sorted[i].dependsOn
      ensures j < i
    {
      assert sorted[i] in sorted && sorted[j] in sorted;
      assert sorted[i] in checks;
      assert Link(ids[j], ids[i]) in Links(checks, known);
      assert CheckGraph(checks).Edge(ids[i], ids[j]);
      var k :| 0 <= k < i && ids[..i][k] == ids[j];
      assert k == j;
    }
  }

  lemma {:induction false} KeepAgrees(deps: seq<string>, a: set<string>, b: set<string>)
    requires forall d :: d in deps ==> (d in a <==> d in b)
    ensures Keep(deps, a) == Keep(deps, b)
  {
    if deps != [] {
      KeepAgrees(deps[1..], a, b);
    }
  }

  /** What has ended badly when a check's turn comes is all that will ever matter to it. */
  lemma BadInTime(sorted: seq<Check>, output: seq<CheckResult>, mode: Mode, i: nat)
    requires CheckSchedule(sorted) && i < |sorted| && |output| == |sorted|
    ensures Keep(sorted[i].dependsOn, BadIds(sorted, output, mode, i)) ==
            Keep(sorted[i].dependsOn, BadIds(sorted, output, mode, |sorted|))
  {
    KeepAgrees(sorted[i].dependsOn, BadIds(sorted, output, mode, i), BadIds(sorted, output, mode, |sorted|));
  }

  /** The run so far: reports and calls follow from the bad ids known at each turn. */
  ghost predicate RunInvariant(
    run: Check -> CheckResult, sorted: seq<Check>, mode: Mode, n: nat, output: seq<CheckResult>, calls: seq<string>)
  {
    && n == |output| <= |sorted|
    && (forall i :: 0 <= i < n ==> output[i] == Report(run, sorted[i], mode, BadIds(sorted, output, mode, i)))
    && calls == CallsSoFar(sorted, mode, output, n)
  }

  ghost function CallsSoFar(sorted: seq<Check>, mode: Mode, output: seq<CheckResult>, n: nat): seq<string>
    requires n <= |sorted| && n <= |output|
  {
    if n == 0 then []
    else
      CallsSoFar(sorted, mode, output, n - 1) +
      if Runs(sorted[n - 1], mode, BadIds(sorted, output, mode, n - 1)) then [sorted[n - 1].id] else []
  }

  lemma {:induction false} CallsFinally(sorted: seq<Check>, mode: Mode, output: seq<CheckResult>, n: nat)
    requires CheckSchedule(sorted) && n <= |sorted| == |output|
    ensures CallsSoFar(sorted, mode, output, n) == RunIds(sorted[..n], mode, BadIds(sorted, output, mode, |sorted|))
  {
    if n > 0 {
      CallsFinally(sorted, mode, output, n - 1);
      BadInTime(sorted, output, mode, n - 1);
      assert sorted[..n][..n - 1] == sorted[..n - 1];
    }
  }

  lemma {:induction false} CallsUnaffected(
    sorted: seq<Check>, mode: Mode, output: seq<CheckResult>, r: CheckResult, n: nat)
    requires n <= |output| < |sorted|
    ensures CallsSoFar(sorted, mode, output + [r], n) == CallsSoFar(sorted, mode, output, n)
    ensures BadIds(sorted, output + [r], mode, n) == BadIds(sorted, output, mode, n)
  {
    assert BadIds(sorted, output + [r], mode, n) == BadIds(sorted, output, mode, n);
    if n > 0 {
      CallsUnaffected(sorted, mode, output, r, n - 1);
    }
  }

  lemma ReportAppended(
    run: Check -> CheckResult, sorted: seq<Check>, mode: Mode, output: seq<CheckResult>, calls: seq<string>)
    requires |output| < |sorted| && RunInvariant(run, sorted, mode, |output|, output, calls)
    ensures var n, bad := |output|, BadIds(sorted, output, mode, |output|);
            RunInvariant(run, sorted, mode, n + 1, output + [Report(run, sorted[n], mode, bad)],
                         calls + if Runs(sorted[n], mode, bad) then [sorted[n].id] else [])
  {
    var n := |output|;
    var r := Report(run, sorted[n], mode, BadIds(sorted, output, mode, n));
    forall i | 0 <= i <= n
      ensures BadIds(sorted, output + [r], mode, i) == BadIds(sorted, output, mode, i)
    {
      CallsUnaffected(sorted, mode, output, r, i);
    }
    CallsUnaffected(sorted, mode, output, r, n);
  }

  /** After the last check, the bad ids known at each turn may be replaced by the final ones. */
  lemma RunIsFinal(
    run: Check -> CheckResult, sorted: seq<Check>, mode: Mode, output: seq<CheckResult>, calls: seq<string>)
    requires CheckSchedule(sorted) && RunInvariant(run, sorted, mode, |sorted|, output, calls)
    ensures var bad := BadIds(sorted, output, mode, |sorted|);
            && (forall i :: 0 <= i < |sorted| ==> output[i] == Report(run, sorted[i], mode, bad))
            && calls == RunIds(sorted, mode, bad)
  {
    forall i | 0 <= i < |sorted|
      ensures output[i] == Report(run, sorted[i], mode, BadIds(sorted, output, mode, |sorted|))
    {
      BadInTime(sorted, output, mode, i);
    }
    CallsFinally(sorted, mode, output, |sorted|);
    assert sorted[..|sorted|] == sorted;
  }

  /** The tables of the loop record exactly the results so far and which of them were mode skips. */
  ghost predicate ResultTables(
    sorted: seq<Check>, mode: Mode, n: nat, output: seq<CheckResult>,
    results: map<string, CheckResult>, modeSkipped: set<string>)
  {
    && n <= |sorted| && n == |output|
    && (forall id :: id in results <==> Among(sorted, n, id))
    && (forall j :: 0 <= j < n ==> results[sorted[j].id] == output[j])
    && modeSkipped <= results.Keys
    && (forall j :: 0 <= j < n ==> (sorted[j].id in modeSkipped <==> mode !in sorted[j].appliesIn))
  }

  function FailedDeps(deps: seq<string>, results: map<string, CheckResult>, modeSkipped: set<string>): seq<string> {
    if deps == [] then []
    else
      (if deps[0] in results && deps[0] !in modeSkipped && Cascades(results[deps[0]].status) then [deps[0]] else [])
      + FailedDeps(deps[1..], results, modeSkipped)
  }

  lemma {:induction false} FailedDepsAreBad(
    deps: seq<string>, sorted: seq<Check>, mode: Mode, n: nat, output: seq<CheckResult>,
    results: map<string, CheckResult>, modeSkipped: set<string>)
    requires ResultTables(sorted, mode, n, output, results, modeSkipped)
    ensures FailedDeps(deps, results, modeSkipped) == Keep(deps, BadIds(sorted, output, mode, n))
  {
    if deps != [] {
      FailedDepsAreBad(deps[1..], sorted, mode, n, output, results, modeSkipped);
    }
  }

  predicate Among(sorted: seq<Check>, n: nat, id: string)
    requires n <= |sorted|
  {
    exists j :: 0 <= j < n && sorted[j].id == id
  }

  lemma OneMoreAmong(sorted: seq<Check>, n: nat)
    requires CheckSchedule(sorted) && n < |sorted|
    ensures forall id :: Among(sorted, n + 1, id) <==> Among(sorted, n, id) || id == sorted[n].id
    ensures forall j :: 0 <= j < n ==> sorted[j].id != sorted[n].id
  {
    forall j | 0 <= j < n
      ensures sorted[j].id != sorted[n].id
    {
      assert CheckIds(sorted)[j] != CheckIds(sorted)[n];
    }
    forall id | Among(sorted, n + 1, id)
      ensures Among(sorted, n, id) || id == sorted[n].id
    {
      var j :| 0 <= j < n + 1 && sorted[j].id == id;
    }
    assert Among(sorted, n + 1, sorted[n].id);
  }

  lemma RecordResult(
    sorted: seq<Check>, mode: Mode, output: seq<CheckResult>,
    results: map<string, CheckResult>, modeSkipped: set<string>, r: CheckResult)
    requires CheckSchedule(sorted) && |output| < |sorted|
    requires ResultTables(sorted, mode, |output|, output, results, modeSkipped)
    ensures ResultTables(sorted, mode, |output| + 1, output + [r], results[sorted[|output|].id := r],
                         if mode in sorted[|output|].appliesIn then modeSkipped
                         else modeSkipped + {sorted[|output|].id})
  {
    OneMoreAmong(sorted, |output|);
  }

  /**
   Runs the checks in dependency order.  With `bad` the ids of the applicable checks that ended in a failure
   or a skip, every check reports as `Report` says, and the checks that run, each once and in order, are
   those whose mode applies and none of whose dependencies is in `bad`.
  */
  method RunChecks(checks: seq<Check>, mode: Mode, run: Check -> CheckResult)
    returns (sorted: seq<Check>, output: seq<CheckResult>, calls: seq<string>)
    ensures forall n :: n in CheckIds(sorted) <==> n in CheckById(checks) && !CheckGraph(checks).ReachesCycle(n)
    ensures CheckSchedule(sorted) && |output| == |sorted|
    ensures var bad := BadIds(sorted, output, mode, |sorted|);
            && (forall i :: 0 <= i < |sorted| ==> output[i] == Report(run, sorted[i], mode, bad))
            && calls == RunIds(sorted, mode, bad)
  {
    sorted := TopologicalSort(checks);
    SortedChecksAreASchedule(checks, sorted);
    var results: map<string, CheckResult> := map[];
    var modeSkipped: set<string> := {};
    output := [];
    calls := [];
    for i := 0 to |sorted|
      invariant RunInvariant(run, sorted, mode, i, output, calls)
      invariant ResultTables(sorted, mode, i, output, results, modeSkipped)
    {
      var check := sorted[i];
      ReportAppended(run, sorted, mode, output, calls);
      FailedDepsAreBad(check.dependsOn, sorted, mode, i, output, results, modeSkipped);
      var result;
      ghost var modeSkipped0 := modeSkipped;
      if mode !in check.appliesIn {
        result := CheckResult(Skip, check.name, "skipped (" + PhaseRunner.ModeValue(mode) + ")");
        modeSkipped := modeSkipped + {check.id};
      } else {
        var failedDeps := FailedDeps(check.dependsOn, results, modeSkipped);
        if failedDeps != [] {
          result := CheckResult(Skip, check.name, "skipped (requires: " + CommaJoin(failedDeps) + ")");
        } else {
          result := run(check);
          calls := calls + [check.id];
        }
      }
      RecordResult(sorted, mode, output, results, modeSkipped0, result);
      results := results[check.id := result];
      output := output + [result];
    }
    RunIsFinal(run, sorted, mode, output, calls);
  }

  /** `RunIds` in words: a check's `run` is called once if it runs, and never otherwise. */
  lemma {:induction false} RunExactlyOnce(sorted: seq<Check>, mode: Mode, bad: set<string>, i: nat)
    requires CheckSchedule(sorted) && i < |sorted|
    ensures multiset(RunIds(sorted, mode, bad))[sorted[i].id] == if Runs(sorted[i], mode, bad) then 1 else 0
  {
    var n := |sorted| - 1;
    FrontIsASchedule(sorted);
    CountOfLast(sorted, mode, bad, sorted[i].id);
    if i < n {
      assert CheckIds(sorted)[i] != CheckIds(sorted)[n];
      RunExactlyOnce(sorted[..n], mode, bad, i);
    } else {
      NotInFront(sorted, mode, bad);
    }
  }

  lemma FrontIsASchedule(sorted: seq<Check>)
    requires CheckSchedule(sorted) && sorted != []
    ensures CheckSchedule(sorted[..|sorted| - 1])
  {
    assert CheckIds(sorted[..|sorted| - 1]) == CheckIds(sorted)[..|sorted| - 1];
  }

  lemma CountOfLast(sorted: seq<Check>, mode: Mode, bad: set<string>, id: string)
    requires sorted != []
    ensures var n := |sorted| - 1;
            multiset(RunIds(sorted, mode, bad))[id] ==
            multiset(RunIds(sorted[..n], mode, bad))[id] +
            if Runs(sorted[n], mode, bad) && sorted[n].id == id then 1 else 0
  {
    var n := |sorted| - 1;
    var before := RunIds(sorted[..n], mode, bad);
    if Runs(sorted[n], mode, bad) {
      assert multiset(before + [sorted[n].id]) == multiset(before) + multiset{sorted[n].id};
    } else {
      assert RunIds(sorted, mode, bad) == before;
    }
  }

  lemma NotInFront(sorted: seq<Check>, mode: Mode, bad: set<string>)
    requires CheckSchedule(sorted) && sorted != []
    ensures multiset(RunIds(sorted[..|sorted| - 1], mode, bad))[sorted[|sorted| - 1].id] == 0
  {
    var n := |sorted| - 1;
    var front := sorted[..n];
    RunIdsAreIds(front, mode, bad);
    forall j | 0 <= j < n
      ensures front[j].id != sorted[n].id
    {
      assert CheckIds(sorted)[j] != CheckIds(sorted)[n];
    }
    assert sorted[n].id !in RunIds(front, mode, bad);
  }

  lemma {:induction false} RunIdsAreIds(sorted: seq<Check>, mode: Mode, bad: set<string>)
    ensures forall id :: id in RunIds(sorted, mode, bad) ==> exists j :: 0 <= j < |sorted| && sorted[j].id == id
  {
    if sorted != [] {
      var front := sorted[..|sorted| - 1];
      RunIdsAreIds(front, mode, bad);
      forall id | id in RunIds(front, mode, bad)
        ensures exists j :: 0 <= j < |sorted| && sorted[j].id == id
      {
        var j :| 0 <= j < |front| && front[j].id == id;
        assert sorted[j].id == id;
      }
    }
  }
}
