/**
 How far failure travels: along chains of applicable phases, and no further.  The documented rule, that a failed
 transitive dependency blocks a phase, therefore holds for some sets of phases and not for others.
*/
module Propagation {
  import opened Graphs
  import opened PhaseOrder
  import opened PhaseRunner
  import opened ApplyPass

  /** Each phase of the chain lists the next one as a dependency. */
  ghost predicate Chain(ps: set<Phase>, c: seq<Phase>) {
    && c != [] && (forall k :: 0 <= k < |c| ==> c[k] in ps)
    && (forall k :: 0 < k < |c| ==> Linked(c, k))
  }

  predicate Linked(c: seq<Phase>, k: nat)
    requires 0 < k < |c|
  {
    c[k].id in c[k - 1].dependsOn
  }

  predicate AllApply(c: seq<Phase>, mode: Mode) { forall k :: 0 <= k < |c| ==> mode in c[k].appliesIn }

  predicate Leads(c: seq<Phase>, p: Phase, q: Phase) { c != [] && c[0] == p && c[|c| - 1] == q }

  /** A dependency chain, through whatever phases, leads from `p` to `q`. */
  ghost predicate Reaches(ps: set<Phase>, p: Phase, q: Phase) {
    exists c :: Chain(ps, c) && Leads(c, p, q)
  }

  /** A dependency chain of applicable phases leads from `p` to `q`. */
  ghost predicate ReachesApplicably(ps: set<Phase>, mode: Mode, p: Phase, q: Phase) {
    exists c :: Chain(ps, c) && AllApply(c, mode) && Leads(c, p, q)
  }

  function PhaseSet(ordered: seq<Phase>): set<Phase> { set p | p in ordered }

  function FailedIn<H>(cb: Callbacks<H>, mode: Mode, ordered: seq<Phase>, h: H): set<string> {
    FailedIds(ApplyAll(cb, mode, ordered, h).outcomes)
  }

  // ----- Failure is a chain of applicable phases -----

  /** On its own, in its turn, the phase would be refused or fail. */
  ghost predicate FailsInTurn<H>(cb: Callbacks<H>, mode: Mode, ordered: seq<Phase>, h: H, p: Phase) {
    exists i :: 0 <= i < |ordered| && ordered[i] == p && FailsAlone(cb, p, HostBefore(cb, mode, ordered, h, i))
  }

  /** A failed id belongs to an applicable phase. */
  lemma FailedApplies<H>(cb: Callbacks<H>, mode: Mode, ordered: seq<Phase>, h: H, p: Phase)
    requires Schedule(ordered) && p in ordered && p.id in FailedIn(cb, mode, ordered, h)
    ensures mode in p.appliesIn
  {
    var i :| 0 <= i < |ordered| && ordered[i] == p;
    FailedIff(cb, mode, ordered, h, i);
  }

  /** Failure travels back along a chain of applicable phases. */
  lemma {:induction false} ChainFails<H>(cb: Callbacks<H>, mode: Mode, ordered: seq<Phase>, h: H, c: seq<Phase>)
    requires Schedule(ordered) && Chain(PhaseSet(ordered), c) && AllApply(c, mode)
    requires c[|c| - 1].id in FailedIn(cb, mode, ordered, h)
    ensures c[0].id in FailedIn(cb, mode, ordered, h)
    decreases |c|
  {
    if |c| > 1 {
      var rest := c[1..];
      ChainTail(PhaseSet(ordered), c);
      ChainFails(cb, mode, ordered, h, rest);
      assert Linked(c, 1);
      var i :| 0 <= i < |ordered| && ordered[i] == c[0];
      FailedIff(cb, mode, ordered, h, i);
    }
  }

  lemma ChainTail(ps: set<Phase>, c: seq<Phase>)
    requires Chain(ps, c) && |c| > 1
    ensures Chain(ps, c[1..])
  {
    forall k | 0 < k < |c[1..]|
      ensures Linked(c[1..], k)
    {
      assert Linked(c, k + 1);
    }
  }

  lemma ChainHead(ps: set<Phase>, mode: Mode, p: Phase, c: seq<Phase>)
    requires Chain(ps, c) && p in ps && c[0].id in p.dependsOn
    requires AllApply(c, mode) && mode in p.appliesIn
    ensures Chain(ps, [p] + c) && AllApply([p] + c, mode)
    ensures ([p] + c)[0] == p && ([p] + c)[|c|] == c[|c| - 1]
  {
    forall k | 0 < k < |[p] + c|
      ensures Linked([p] + c, k)
    {
      assert k > 1 ==> Linked(c, k - 1);
    }
  }

  /** Whoever fails has such a chain to a phase that fails by itself. */
  lemma {:induction false} FailureHasChain<H>(cb: Callbacks<H>, mode: Mode, ordered: seq<Phase>, h: H, i: nat)
    returns (c: seq<Phase>)
    requires Schedule(ordered) && i < |ordered| && ordered[i].id in FailedIn(cb, mode, ordered, h)
    ensures Chain(PhaseSet(ordered), c) && AllApply(c, mode) && c[0] == ordered[i]
    ensures FailsInTurn(cb, mode, ordered, h, c[|c| - 1])
    decreases i
  {
    FailedIff(cb, mode, ordered, h, i);
    if FailsAlone(cb, ordered[i], HostBefore(cb, mode, ordered, h, i)) {
      c := [ordered[i]];
    } else {
      var j := FailedDependency(cb, mode, ordered, h, i);
      var rest := FailureHasChain(cb, mode, ordered, h, j);
      ChainHead(PhaseSet(ordered), mode, ordered[i], rest);
      c := [ordered[i]] + rest;
    }
  }

  lemma FailedDependency<H>(cb: Callbacks<H>, mode: Mode, ordered: seq<Phase>, h: H, i: nat) returns (j: nat)
    requires Schedule(ordered) && i < |ordered| && DependsOnAny(ordered[i], FailedIn(cb, mode, ordered, h))
    ensures j < i && ordered[j].id in ordered[i].dependsOn && ordered[j].id in FailedIn(cb, mode, ordered, h)
  {
    var d :| d in ordered[i].dependsOn && d in FailedIn(cb, mode, ordered, h);
    j := FailedIdIsListed(cb, mode, ordered, h, d);
    DependencyIsEarlier(ordered, i, j);
  }

  /** A phase fails exactly when a chain of applicable phases leads from it to one that fails by itself. */
  lemma {:induction false} FailedIffChain<H>(cb: Callbacks<H>, mode: Mode, ordered: seq<Phase>, h: H, p: Phase)
    requires Schedule(ordered) && p in ordered
    ensures p.id in FailedIn(cb, mode, ordered, h) <==>
            exists q: Phase :: ReachesApplicably(PhaseSet(ordered), mode, p, q) && FailsInTurn(cb, mode, ordered, h, q)
  {
    if p.id in FailedIn(cb, mode, ordered, h) {
      var i :| 0 <= i < |ordered| && ordered[i] == p;
      var c := FailureHasChain(cb, mode, ordered, h, i);
      assert Leads(c, p, c[|c| - 1]);
    }
    forall q | ReachesApplicably(PhaseSet(ordered), mode, p, q) && FailsInTurn(cb, mode, ordered, h, q)
      ensures p.id in FailedIn(cb, mode, ordered, h)
    {
      var c: seq<Phase> :| Chain(PhaseSet(ordered), c) && AllApply(c, mode) && Leads(c, p, q);
      assert mode in c[|c| - 1].appliesIn;
      FailsInTurnFails(cb, mode, ordered, h, q);
      ChainFails(cb, mode, ordered, h, c);
    }
  }

  // ----- Blocked is a longer chain -----

  /** The phase is reported BLOCKED_BY. */
  ghost predicate IsBlocked<H>(cb: Callbacks<H>, mode: Mode, ordered: seq<Phase>, h: H, p: Phase) {
    exists i :: 0 <= i < |ordered| && ordered[i] == p && BlockedAt(ApplyAll(cb, mode, ordered, h).outcomes, i)
  }

  predicate BlockedAt(outcomes: seq<ApplyOutcome>, i: nat) { i < |outcomes| && outcomes[i].result == BlockedBy }

  /** The chain leads from `p`, over at least one dependency, to a phase that fails by itself. */
  ghost predicate LeadsToFailure<H>(
    cb: Callbacks<H>, mode: Mode, ordered: seq<Phase>, h: H, p: Phase, c: seq<Phase>)
  {
    && |c| > 1 && Chain(PhaseSet(ordered), c) && AllApply(c, mode)
    && c[0] == p && FailsInTurn(cb, mode, ordered, h, c[|c| - 1])
  }

  lemma TurnIsBlocked<H>(cb: Callbacks<H>, mode: Mode, failed: set<string>, h: H, p: Phase)
    ensures PhaseTurn(cb, mode, failed, h, p).outcome.result == BlockedBy <==>
            mode in p.appliesIn && DependsOnAny(p, failed)
  {}

  lemma BlockedIff<H>(cb: Callbacks<H>, mode: Mode, ordered: seq<Phase>, h: H, i: nat)
    requires Schedule(ordered) && i < |ordered|
    ensures IsBlocked(cb, mode, ordered, h, ordered[i]) <==>
            mode in ordered[i].appliesIn && DependsOnAny(ordered[i], FailedIn(cb, mode, ordered, h))
  {
    var outcomes := ApplyAll(cb, mode, ordered, h).outcomes;
    OutcomeFromFinalFailures(cb, mode, ordered, h, i);
    TurnIsBlocked(cb, mode, FailedIds(outcomes), HostBefore(cb, mode, ordered, h, i), ordered[i]);
    forall j | 0 <= j < |ordered| && ordered[j] == ordered[i]
      ensures j == i
    {
      assert Ids(ordered)[j] == Ids(ordered)[i];
    }
    assert BlockedAt(outcomes, i) <==> outcomes[i].result == BlockedBy;
  }

  /** A chain of applicable phases blocks its first phase when its last one, another phase, has failed. */
  lemma ChainBlocks<H>(cb: Callbacks<H>, mode: Mode, ordered: seq<Phase>, h: H, c: seq<Phase>)
    requires Schedule(ordered) && Chain(PhaseSet(ordered), c) && AllApply(c, mode) && |c| > 1
    requires c[|c| - 1].id in FailedIn(cb, mode, ordered, h)
    ensures IsBlocked(cb, mode, ordered, h, c[0])
  {
    ChainTail(PhaseSet(ordered), c);
    ChainFails(cb, mode, ordered, h, c[1..]);
    assert Linked(c, 1);
    var i :| 0 <= i < |ordered| && ordered[i] == c[0];
    BlockedIff(cb, mode, ordered, h, i);
  }

  lemma FailsInTurnFails<H>(cb: Callbacks<H>, mode: Mode, ordered: seq<Phase>, h: H, q: Phase)
    requires Schedule(ordered) && mode in q.appliesIn && FailsInTurn(cb, mode, ordered, h, q)
    ensures q.id in FailedIn(cb, mode, ordered, h)
  {
    var i :| 0 <= i < |ordered| && ordered[i] == q && FailsAlone(cb, q, HostBefore(cb, mode, ordered, h, i));
    FailedIff(cb, mode, ordered, h, i);
  }

  /** A phase is reported BLOCKED_BY exactly when such a chain leads from it to another phase's own failure. */
  lemma {:induction false} BlockedIffChain<H>(cb: Callbacks<H>, mode: Mode, ordered: seq<Phase>, h: H, p: Phase)
    requires Schedule(ordered) && p in ordered
    ensures IsBlocked(cb, mode, ordered, h, p) <==>
            exists c: seq<Phase> :: LeadsToFailure(cb, mode, ordered, h, p, c)
  {
    var i :| 0 <= i < |ordered| && ordered[i] == p;
    BlockedIff(cb, mode, ordered, h, i);
    if IsBlocked(cb, mode, ordered, h, p) {
      var j := FailedDependency(cb, mode, ordered, h, i);
      var rest := FailureHasChain(cb, mode, ordered, h, j);
      ChainHead(PhaseSet(ordered), mode, p, rest);
      assert LeadsToFailure(cb, mode, ordered, h, p, [p] + rest);
    }
    forall c: seq<Phase> | LeadsToFailure(cb, mode, ordered, h, p, c)
      ensures IsBlocked(cb, mode, ordered, h, p)
    {
      FailsInTurnFails(cb, mode, ordered, h, c[|c| - 1]);
      ChainBlocks(cb, mode, ordered, h, c);
    }
  }

  // ----- The documented rule -----

  /** Every applicable phase with a failed transitive dependency is reported BLOCKED_BY. */
  ghost predicate DocumentedRule<H>(cb: Callbacks<H>, mode: Mode, ordered: seq<Phase>, h: H) {
    forall p: Phase, q: Phase ::
      (p in ordered && q in ordered && p != q && mode in p.appliesIn && Reaches(PhaseSet(ordered), p, q) &&
       q.id in FailedIn(cb, mode, ordered, h)) ==>
        IsBlocked(cb, mode, ordered, h, p)
  }

  /** Whenever one applicable phase reaches another, it also does so through applicable phases only. */
  ghost predicate SkipsCutNothing(ps: set<Phase>, mode: Mode) {
    forall p: Phase, q: Phase ::
      mode in p.appliesIn && mode in q.appliesIn && Reaches(ps, p, q) ==> ReachesApplicably(ps, mode, p, q)
  }

  lemma RuleHolds<H>(cb: Callbacks<H>, mode: Mode, ordered: seq<Phase>, h: H)
    requires Schedule(ordered) && SkipsCutNothing(PhaseSet(ordered), mode)
    ensures DocumentedRule(cb, mode, ordered, h)
  {
    forall p, q | p in ordered && q in ordered && p != q && mode in p.appliesIn &&
      Reaches(PhaseSet(ordered), p, q) && q.id in FailedIn(cb, mode, ordered, h)
      ensures IsBlocked(cb, mode, ordered, h, p)
    {
      FailedApplies(cb, mode, ordered, h, q);
      assert ReachesApplicably(PhaseSet(ordered), mode, p, q);
      var c: seq<Phase> :| Chain(PhaseSet(ordered), c) && AllApply(c, mode) && Leads(c, p, q);
      ChainBlocks(cb, mode, ordered, h, c);
    }
  }

  /** Callbacks under which only the probe of `culprit` raises and everything else is already correct. */
  function OnlyFails<H>(culprit: string): Callbacks<H> {
    Callbacks((id: string, h: H) => if id == culprit then ProbeRaised("") else Probed(AlreadyCorrect, ""),
              (id: string, h: H) => (Acted(""), h), (id: string, h: H) => Reverified(true),
              (id: string, h: H) => (RolledBack, h))
  }

  lemma RuleFails<H>(mode: Mode, ordered: seq<Phase>, h: H, p: Phase, q: Phase)
    requires Schedule(ordered) && mode in p.appliesIn && mode in q.appliesIn
    requires Reaches(PhaseSet(ordered), p, q) && !ReachesApplicably(PhaseSet(ordered), mode, p, q)
    ensures !DocumentedRule(OnlyFails<H>(q.id), mode, ordered, h)
  {
    var cb := OnlyFails<H>(q.id);
    var c: seq<Phase> :| Chain(PhaseSet(ordered), c) && Leads(c, p, q);
    assert c[0] in PhaseSet(ordered) && c[|c| - 1] in PhaseSet(ordered);
    CulpritFails(mode, ordered, h, q);
    if IsBlocked(cb, mode, ordered, h, p) {
      BlockedIffChain(cb, mode, ordered, h, p);
      var b: seq<Phase> :| LeadsToFailure(cb, mode, ordered, h, p, b);
      OnlyCulprit(mode, ordered, h, q, b[|b| - 1]);
      assert Leads(b, p, q);
    }
    ReachesItself(PhaseSet(ordered), mode, p);
  }

  lemma ReachesItself(ps: set<Phase>, mode: Mode, p: Phase)
    requires p in ps && mode in p.appliesIn
    ensures ReachesApplicably(ps, mode, p, p)
  {
    assert Chain(ps, [p]) && AllApply([p], mode) && Leads([p], p, p);
  }

  lemma CulpritFails<H>(mode: Mode, ordered: seq<Phase>, h: H, q: Phase)
    requires Schedule(ordered) && q in ordered && mode in q.appliesIn
    ensures q.id in FailedIn(OnlyFails<H>(q.id), mode, ordered, h)
  {
    var i :| 0 <= i < |ordered| && ordered[i] == q;
    FailedIff(OnlyFails<H>(q.id), mode, ordered, h, i);
  }

  lemma OnlyCulprit<H>(mode: Mode, ordered: seq<Phase>, h: H, q: Phase, r: Phase)
    requires Schedule(ordered) && q in ordered && FailsInTurn(OnlyFails<H>(q.id), mode, ordered, h, r)
    ensures r == q
  {
    var cb := OnlyFails<H>(q.id);
    var i :| 0 <= i < |ordered| && ordered[i] == r && FailsAlone(cb, r, HostBefore(cb, mode, ordered, h, i));
    var j :| 0 <= j < |ordered| && ordered[j] == q;
    assert Ids(ordered)[i] == Ids(ordered)[j];
  }

  /**
   The documented rule holds, for all callbacks and all hosts, exactly when no skipped phase cuts one applicable
   phase off from another: a condition on the phases and the mode alone.
  */
  lemma {:induction false} DocumentedRuleIff<H(!new)>(phases: seq<Phase>, mode: Mode, ordered: seq<Phase>, some: H)
    requires Topological(PhaseGraph(phases), Ids(ordered)) && AreEntries(ordered, ById(phases))
    ensures (forall cb: Callbacks<H>, h: H :: DocumentedRule(cb, mode, ordered, h)) <==>
            SkipsCutNothing(ById(phases).Values, mode)
  {
    OrderedPhasesAreASchedule(phases, ordered);
    SamePhaseSet(phases, ordered);
    if SkipsCutNothing(PhaseSet(ordered), mode) {
      forall cb: Callbacks<H>, h: H
        ensures DocumentedRule(cb, mode, ordered, h)
      {
        RuleHolds(cb, mode, ordered, h);
      }
    } else {
      var p: Phase, q: Phase :| mode in p.appliesIn && mode in q.appliesIn && Reaches(PhaseSet(ordered), p, q) &&
                  !ReachesApplicably(PhaseSet(ordered), mode, p, q);
      RuleFails<H>(mode, ordered, some, p, q);
    }
  }

  /** The phases in order are the phases that count. */
  lemma SamePhaseSet(phases: seq<Phase>, ordered: seq<Phase>)
    requires Topological(PhaseGraph(phases), Ids(ordered)) && AreEntries(ordered, ById(phases))
    ensures PhaseSet(ordered) == ById(phases).Values
  {
    forall p | p in ById(phases).Values
      ensures p in ordered
    {
      assert p.id in IdSet(Ids(ordered));
      var i :| 0 <= i < |ordered| && Ids(ordered)[i] == p.id;
      assert ordered[i] in ordered;
    }
  }

  /** A ceremony in which it fails: `a` fails, `b` is skipped by mode, and `c`, which needs `b`, is reported correct. */
  lemma {:induction false} FailureStopsAtASkippedPhase() returns (cb: Callbacks<bool>, ordered: seq<Phase>)
    ensures |ordered| == 3 && Schedule(ordered)
    ensures ordered[0].id in ordered[1].dependsOn && ordered[1].id in ordered[2].dependsOn
    ensures SeparateUser in ordered[0].appliesIn && SeparateUser in ordered[2].appliesIn
    ensures |ApplyAll(cb, SeparateUser, ordered, false).outcomes| == 3
    ensures ApplyAll(cb, SeparateUser, ordered, false).outcomes[0].result == Fail
    ensures ApplyAll(cb, SeparateUser, ordered, false).outcomes[2].result == AlreadyCorrect
    ensures !DocumentedRule(cb, SeparateUser, ordered, false)
  {
    cb := OnlyFails("a");
    var a, b := Phase("a", [], {SeparateUser}, false), Phase("b", ["a"], {}, false);
    var c := Phase("c", ["b"], {SeparateUser}, false);
    ordered := [a, b, c];
    assert "a"[0] == 'a' && "b"[0] == 'b' && "c"[0] == 'c';
    ThreeInOrder(a, b, c);
    ThreeTurns(cb, a, b, c);
  }

  lemma ThreeInOrder(a: Phase, b: Phase, c: Phase)
    requires a.dependsOn == [] && b.dependsOn == [a.id] && c.dependsOn == [b.id]
    requires a.id != b.id && a.id != c.id && b.id != c.id
    ensures Schedule([a, b, c]) && Reaches(PhaseSet([a, b, c]), c, a)
  {
    var ids := [a.id, b.id, c.id];
    assert Ids([a, b, c]) == ids;
    assert a.id == ids[..1][0] && b.id == ids[..2][1];
    var chain := [c, b, a];
    assert Linked(chain, 1) && Linked(chain, 2);
    assert Chain(PhaseSet([a, b, c]), chain) && Leads(chain, c, a);
  }

  lemma OneMoreTurn<H>(cb: Callbacks<H>, mode: Mode, ps: seq<Phase>, p: Phase, h: H, all: seq<Phase>)
    requires all == ps + [p]
    ensures var before := ApplyAll(cb, mode, ps, h);
            var o := PhaseTurn(cb, mode, FailedIds(before.outcomes), before.host, p).outcome;
            && ApplyAll(cb, mode, all, h).outcomes == before.outcomes + [o]
            && FailedIn(cb, mode, all, h) ==
               if Blocking(o.result) then FailedIds(before.outcomes) + {o.phaseId} else FailedIds(before.outcomes)
  {
    assert all[..|all| - 1] == ps;
    var before := ApplyAll(cb, mode, ps, h);
    AppendedFailure(before.outcomes, PhaseTurn(cb, mode, FailedIds(before.outcomes), before.host, p).outcome);
  }

  lemma ThreeTurns(cb: Callbacks<bool>, a: Phase, b: Phase, c: Phase)
    requires a.dependsOn == [] && b.dependsOn == [a.id] && c.dependsOn == [b.id]
    requires a.id != b.id && a.id != c.id && b.id != c.id && cb == OnlyFails(a.id)
    requires SeparateUser in a.appliesIn && SeparateUser !in b.appliesIn && SeparateUser in c.appliesIn
    ensures var outcomes := ApplyAll(cb, SeparateUser, [a, b, c], false).outcomes;
            && |outcomes| == 3 && outcomes[0].result == Fail && outcomes[2].result == AlreadyCorrect
            && FailedIn(cb, SeparateUser, [a, b, c], false) == {a.id}
  {
    TwoTurns(cb, a, b);
    OneMoreTurn(cb, SeparateUser, [a, b], c, false, [a, b, c]);
    assert Blocker([b.id], {a.id}).None?;
  }

  lemma TwoTurns(cb: Callbacks<bool>, a: Phase, b: Phase)
    requires a.dependsOn == [] && cb == OnlyFails(a.id)
    requires SeparateUser in a.appliesIn && SeparateUser !in b.appliesIn
    ensures var log := ApplyAll(cb, SeparateUser, [a, b], false);
            && |log.outcomes| == 2 && log.outcomes[0].result == Fail && FailedIds(log.outcomes) == {a.id}
  {
    OneMoreTurn(cb, SeparateUser, [], a, false, [a]);
    assert FailedIds([]) == {};
    OneMoreTurn(cb, SeparateUser, [a], b, false, [a, b]);
  }
}
