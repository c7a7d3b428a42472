/** How far a bad check reaches: along chains of applicable checks, and no further; and what the others report. */
module Cascade {
  import opened PhaseOrder
  import PhaseRunner
  import opened DoctorOrder
  import opened DoctorRun

  /** What the runner promises of its output, in the terms of its specification. */
  ghost predicate IsRun(run: Check -> CheckResult, sorted: seq<Check>, mode: Mode, output: seq<CheckResult>) {
    && CheckSchedule(sorted) && |output| == |sorted|
    && forall i :: 0 <= i < |sorted| ==>
         output[i] == Report(run, sorted[i], mode, BadIds(sorted, output, mode, |sorted|))
  }

  /** The check's own `run` is what it reports. */
  ghost predicate RunsAt(sorted: seq<Check>, mode: Mode, output: seq<CheckResult>, i: nat)
    requires i < |sorted| && |output| == |sorted|
  {
    Runs(sorted[i], mode, BadIds(sorted, output, mode, |sorted|))
  }

  /** Each check of the chain, given by its places, depends on the next, and all are of this mode. */
  ghost predicate Chain(sorted: seq<Check>, mode: Mode, c: seq<nat>) {
    && c != [] && (forall k :: 0 <= k < |c| ==> c[k] < |sorted|)
    && (forall k :: 0 <= k < |c| ==> AppliesAt(sorted, mode, c[k]))
    && forall k :: 0 < k < |c| ==> Linked(sorted, c[k - 1], c[k])
  }

  predicate AppliesAt(sorted: seq<Check>, mode: Mode, i: nat) { i < |sorted| && mode in sorted[i].appliesIn }

  predicate Linked(sorted: seq<Check>, i: nat, j: nat) {
    i < |sorted| && j < |sorted| && sorted[j].id in sorted[i].dependsOn
  }

  /** Left to itself, the check ends in a failure or a skip. */
  predicate EndsBadly(run: Check -> CheckResult, c: Check) { run(c).status == FailStatus || run(c).status == Skip }

  /** Over at least one dependency, the chain leads from check `i` to one that ends badly by itself. */
  ghost predicate LeadsToBad(run: Check -> CheckResult, sorted: seq<Check>, mode: Mode, i: nat, c: seq<nat>) {
    && |c| > 1 && Chain(sorted, mode, c) && c[0] == i
    && EndsBadly(run, sorted[c[|c| - 1]])
  }

  /** A check that does not run, or ends badly by itself, keeps what depends on it from running. */
  lemma BadBlocks(run: Check -> CheckResult, sorted: seq<Check>, mode: Mode, output: seq<CheckResult>, i: nat, j: nat)
    requires IsRun(run, sorted, mode, output) && Linked(sorted, i, j) && AppliesAt(sorted, mode, j)
    requires !RunsAt(sorted, mode, output, j) || EndsBadly(run, sorted[j])
    ensures !RunsAt(sorted, mode, output, i)
  {
    assert sorted[j].id in BadIds(sorted, output, mode, |sorted|);
  }

  lemma ChainTail(sorted: seq<Check>, mode: Mode, c: seq<nat>)
    requires Chain(sorted, mode, c) && |c| > 1
    ensures Chain(sorted, mode, c[1..])
  {
    forall k | 0 < k < |c[1..]|
      ensures Linked(sorted, c[1..][k - 1], c[1..][k])
    {
      assert Linked(sorted, c[k], c[k + 1]);
    }
  }

  lemma ChainHead(sorted: seq<Check>, mode: Mode, i: nat, c: seq<nat>)
    requires Chain(sorted, mode, c) && AppliesAt(sorted, mode, i) && Linked(sorted, i, c[0])
    ensures Chain(sorted, mode, [i] + c)
  {
    forall k | 0 < k < |[i] + c|
      ensures Linked(sorted, ([i] + c)[k - 1], ([i] + c)[k])
    {
      assert k > 1 ==> Linked(sorted, c[k - 2], c[k - 1]);
    }
  }

  lemma {:induction false} ChainBlocks(
    run: Check -> CheckResult, sorted: seq<Check>, mode: Mode, output: seq<CheckResult>, c: seq<nat>)
    requires IsRun(run, sorted, mode, output) && |c| > 1 && LeadsToBad(run, sorted, mode, c[0], c)
    ensures !RunsAt(sorted, mode, output, c[0])
    decreases |c|
  {
    ChainTail(sorted, mode, c);
    assert Linked(sorted, c[0], c[1]) && AppliesAt(sorted, mode, c[1]);
    if |c| > 2 {
      ChainBlocks(run, sorted, mode, output, c[1..]);
    }
    BadBlocks(run, sorted, mode, output, c[0], c[1]);
  }

  /** What keeps a check from running stands earlier in the list. */
  lemma BlockerOf(run: Check -> CheckResult, sorted: seq<Check>, mode: Mode, output: seq<CheckResult>, i: nat)
    returns (j: nat)
    requires IsRun(run, sorted, mode, output) && AppliesAt(sorted, mode, i) && !RunsAt(sorted, mode, output, i)
    ensures j < i && Linked(sorted, i, j) && AppliesAt(sorted, mode, j)
    ensures !RunsAt(sorted, mode, output, j) || EndsBadly(run, sorted[j])
  {
    var bad := BadIds(sorted, output, mode, |sorted|);
    var d :| d in sorted[i].dependsOn && d in bad;
    j :| 0 <= j < |sorted| && sorted[j].id == d && mode in sorted[j].appliesIn && Cascades(output[j].status);
    CascadingIsBad(run, sorted, mode, output, j);
  }

  lemma CascadingIsBad(run: Check -> CheckResult, sorted: seq<Check>, mode: Mode, output: seq<CheckResult>, j: nat)
    requires IsRun(run, sorted, mode, output) && AppliesAt(sorted, mode, j) && Cascades(output[j].status)
    ensures !RunsAt(sorted, mode, output, j) || EndsBadly(run, sorted[j])
  {}

  lemma {:induction false} BlockedHasChain(
    run: Check -> CheckResult, sorted: seq<Check>, mode: Mode, output: seq<CheckResult>, i: nat)
    returns (c: seq<nat>)
    requires IsRun(run, sorted, mode, output) && AppliesAt(sorted, mode, i) && !RunsAt(sorted, mode, output, i)
    ensures LeadsToBad(run, sorted, mode, i, c)
    decreases i
  {
    var j := BlockerOf(run, sorted, mode, output, i);
    var rest: seq<nat> := [j];
    if !RunsAt(sorted, mode, output, j) {
      rest := BlockedHasChain(run, sorted, mode, output, j);
    }
    c := OneLonger(run, sorted, mode, i, rest);
  }

  lemma OneLonger(run: Check -> CheckResult, sorted: seq<Check>, mode: Mode, i: nat, rest: seq<nat>)
    returns (c: seq<nat>)
    requires Chain(sorted, mode, rest) && AppliesAt(sorted, mode, i) && Linked(sorted, i, rest[0])
    requires EndsBadly(run, sorted[rest[|rest| - 1]])
    ensures LeadsToBad(run, sorted, mode, i, c)
  {
    ChainHead(sorted, mode, i, rest);
    c := [i] + rest;
  }

  /**
   A check of this mode does not run exactly when a chain of checks of this mode leads from it, over at least one
   dependency, to one that ends in a failure or a skip by itself.
  */
  lemma {:induction false} NotRunIffChain(
    run: Check -> CheckResult, sorted: seq<Check>, mode: Mode, output: seq<CheckResult>, i: nat)
    requires IsRun(run, sorted, mode, output) && AppliesAt(sorted, mode, i)
    ensures !RunsAt(sorted, mode, output, i) <==> exists c: seq<nat> :: LeadsToBad(run, sorted, mode, i, c)
  {
    if !RunsAt(sorted, mode, output, i) {
      var c := BlockedHasChain(run, sorted, mode, output, i);
    }
    forall c: seq<nat> | LeadsToBad(run, sorted, mode, i, c)
      ensures !RunsAt(sorted, mode, output, i)
    {
      ChainBlocks(run, sorted, mode, output, c);
    }
  }

  /** A check of another mode is skipped, never passed; so is one that does not run; any other reports its own run. */
  lemma {:induction false} WhatIsReported(
    run: Check -> CheckResult, sorted: seq<Check>, mode: Mode, output: seq<CheckResult>, i: nat)
    requires IsRun(run, sorted, mode, output) && i < |sorted|
    ensures mode !in sorted[i].appliesIn ==>
              output[i] == CheckResult(Skip, sorted[i].name,
                if mode == SeparateUser then "skipped (separate-user)" else "skipped (operator-rootless)")
    ensures AppliesAt(sorted, mode, i) && RunsAt(sorted, mode, output, i) ==> output[i] == run(sorted[i])
    ensures AppliesAt(sorted, mode, i) && !RunsAt(sorted, mode, output, i) ==>
              output[i].status == Skip && output[i].name == sorted[i].name
  {
    ModeText(mode);
  }

  /** The dependencies named in a skip: those that ended badly, in the order they are listed. */
  lemma {:induction false} KeptInOrder(a: seq<string>, b: seq<string>, bad: set<string>)
    ensures Keep(a + b, bad) == Keep(a, bad) + Keep(b, bad)
  {
    if a == [] {
      assert a + b == b;
    } else {
      assert (a + b)[1..] == a[1..] + b;
      KeptInOrder(a[1..], b, bad);
      Associate(if a[0] in bad then [a[0]] else [], Keep(a[1..], bad), Keep(b, bad));
    }
  }

  lemma Associate(a: seq<string>, b: seq<string>, c: seq<string>)
    ensures a + (b + c) == a + b + c
  {}

  lemma KeptOne(d: string, bad: set<string>)
    ensures Keep([d], bad) == if d in bad then [d] else []
  {
    assert [d][1..] == [];
  }

  /** And how they are put together. */
  lemma {:induction false} NamesJoined(names: seq<string>, last: string)
    ensures CommaJoin([last]) == last
    ensures names != [] ==> CommaJoin(names + [last]) == CommaJoin(names) + ", " + last
  {
    if |names| > 1 {
      assert (names + [last])[1..] == names[1..] + [last];
      NamesJoined(names[1..], last);
      assert names[0] + ", " + (CommaJoin(names[1..]) + ", " + last) ==
             names[0] + ", " + CommaJoin(names[1..]) + ", " + last;
    } else if |names| == 1 {
      assert (names + [last])[1..] == [last];
    }
  }

  /** The text of a dependency skip. */
  lemma {:induction false} SkipNamesBlockers(
    run: Check -> CheckResult, sorted: seq<Check>, mode: Mode, output: seq<CheckResult>, i: nat)
    requires IsRun(run, sorted, mode, output) && AppliesAt(sorted, mode, i) && !RunsAt(sorted, mode, output, i)
    ensures var names := Keep(sorted[i].dependsOn, BadIds(sorted, output, mode, |sorted|));
            names != [] && output[i].detail == "skipped (requires: " + CommaJoin(names) + ")"
  {}

  lemma ModeText(mode: Mode)
    ensures "skipped (" + PhaseRunner.ModeValue(mode) + ")" ==
            if mode == SeparateUser then "skipped (separate-user)" else "skipped (operator-rootless)"
  {
    match mode
    case SeparateUser => assert "skipped (" + "separate-user" + ")" == "skipped (separate-user)";
    case OperatorRootless => assert "skipped (" + "operator-rootless" + ")" == "skipped (operator-rootless)";
  }
}
