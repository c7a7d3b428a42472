/**
 What the apply pass does over a whole run: which phases fail, which callbacks run, and why the
 choice among dependency-respecting orders does not matter.
*/
module ApplyPass {
  import opened Graphs
  import opened PhaseOrder
  import opened PhaseRunner

  /** A list of phases with distinct ids in which every listed dependency comes earlier. */
  ghost predicate Schedule(ordered: seq<Phase>) {
    && NoDuplicates(Ids(ordered))
    && forall i, d :: 0 <= i < |ordered| && d in ordered[i].dependsOn && d in Ids(ordered) ==> d in Ids(ordered)[..i]
  }

  /** The order computed for any list of phases is a schedule. */
  lemma {:induction false} OrderedPhasesAreASchedule(phases: seq<Phase>, ordered: seq<Phase>)
    requires Topological(PhaseGraph(phases), Ids(ordered)) && AreEntries(ordered, ById(phases))
    ensures Schedule(ordered)
  {
    var g := PhaseGraph(phases);
    forall i, d | 0 <= i < |ordered| && d in ordered[i].dependsOn && d in Ids(ordered)
      ensures d in Ids(ordered)[..i]
    {
      assert ordered[i] in ordered;
      assert d in IdSet(Ids(ordered));
      assert g.Edge(Ids(ordered)[i], d);
    }
  }

  /** The host as it stands when the turn of phase `i` begins. */
  function HostBefore<H>(cb: Callbacks<H>, mode: Mode, ordered: seq<Phase>, h: H, i: nat): H
    requires i < |ordered|
  {
    ApplyAll(cb, mode, ordered[..i], h).host
  }

  /** Whether the phase, left to itself on this host, would be refused or fail. */
  predicate FailsAlone<H>(cb: Callbacks<H>, p: Phase, h: H) {
    match cb.probe(p.id, h)
    case ProbeRaised(_) => true
    case Probed(result, _) =>
      result.Conflict? ||
      (!NonMutating(result) &&
       var (reply, h') := cb.act(p.id, h);
       (reply.ActRaised? || cb.reverify(p.id, h') != Reverified(true)))
  }

  predicate CallsForAction<H>(cb: Callbacks<H>, p: Phase, h: H) {
    var reply := cb.probe(p.id, h);
    reply.Probed? && !NonMutating(reply.result) && !reply.result.Conflict?
  }

  // ----- The shape of a run -----

  lemma {:induction false} OneOutcomePerPhase<H>(cb: Callbacks<H>, mode: Mode, ordered: seq<Phase>, h: H)
    ensures |ApplyAll(cb, mode, ordered, h).outcomes| == |ordered|
    ensures forall i :: 0 <= i < |ordered| ==> ApplyAll(cb, mode, ordered, h).outcomes[i].phaseId == ordered[i].id
  {
    if ordered != [] {
      OneOutcomePerPhase(cb, mode, ordered[..|ordered| - 1], h);
      LastOutcome(cb, mode, ordered, h);
    }
  }

  lemma TurnKeepsId<H>(cb: Callbacks<H>, mode: Mode, failed: set<string>, h: H, p: Phase)
    ensures PhaseTurn(cb, mode, failed, h, p).outcome.phaseId == p.id
  {}

  lemma LastOutcome<H>(cb: Callbacks<H>, mode: Mode, ordered: seq<Phase>, h: H)
    requires ordered != []
    ensures var n := |ordered| - 1;
            var before := ApplyAll(cb, mode, ordered[..n], h).outcomes;
            var outcomes := ApplyAll(cb, mode, ordered, h).outcomes;
            |outcomes| == |before| + 1 && outcomes[..|before|] == before && outcomes[|before|].phaseId == ordered[n].id
  {
    var before := ApplyAll(cb, mode, ordered[..|ordered| - 1], h);
    TurnKeepsId(cb, mode, FailedIds(before.outcomes), before.host, ordered[|ordered| - 1]);
  }

  /** The run over a prefix is a prefix of the run. */
  lemma {:induction false} RunExtends<H>(cb: Callbacks<H>, mode: Mode, ordered: seq<Phase>, h: H, n: nat)
    requires n <= |ordered|
    ensures ApplyAll(cb, mode, ordered[..n], h).outcomes <= ApplyAll(cb, mode, ordered, h).outcomes
    ensures ApplyAll(cb, mode, ordered[..n], h).calls <= ApplyAll(cb, mode, ordered, h).calls
  {
    if n == |ordered| {
      assert ordered[..n] == ordered;
    } else {
      var front := ordered[..|ordered| - 1];
      RunExtends(cb, mode, front, h, n);
      assert front[..n] == ordered[..n];
    }
  }

  lemma TurnAt<H>(cb: Callbacks<H>, mode: Mode, ordered: seq<Phase>, h: H, i: nat)
    requires i < |ordered|
    ensures var before, log := ApplyAll(cb, mode, ordered[..i], h), ApplyAll(cb, mode, ordered, h);
            |log.outcomes| == |ordered| && |before.outcomes| == i &&
            before.outcomes == log.outcomes[..i] &&
            log.outcomes[i] == PhaseTurn(cb, mode, FailedIds(log.outcomes[..i]), before.host, ordered[i]).outcome
  {
    OneOutcomePerPhase(cb, mode, ordered, h);
    OneOutcomePerPhase(cb, mode, ordered[..i], h);
    RunExtends(cb, mode, ordered, h, i);
    RunExtends(cb, mode, ordered, h, i + 1);
    TurnOfPrefix(cb, mode, ordered, h, i);
  }

  lemma TurnOfPrefix<H>(cb: Callbacks<H>, mode: Mode, ordered: seq<Phase>, h: H, i: nat)
    requires i < |ordered|
    ensures var before := ApplyAll(cb, mode, ordered[..i], h);
            ApplyAll(cb, mode, ordered[..i + 1], h).outcomes ==
            before.outcomes + [PhaseTurn(cb, mode, FailedIds(before.outcomes), before.host, ordered[i]).outcome]
  {
    assert ordered[..i + 1][..i] == ordered[..i];
  }

  /** A failed id is the id of a listed phase. */
  lemma FailedIdIsListed<H>(cb: Callbacks<H>, mode: Mode, ordered: seq<Phase>, h: H, d: string) returns (m: nat)
    requires d in FailedIds(ApplyAll(cb, mode, ordered, h).outcomes)
    ensures |ApplyAll(cb, mode, ordered, h).outcomes| == |ordered|
    ensures m < |ordered| && ordered[m].id == d && Blocking(ApplyAll(cb, mode, ordered, h).outcomes[m].result)
  {
    OneOutcomePerPhase(cb, mode, ordered, h);
    var outcomes := ApplyAll(cb, mode, ordered, h).outcomes;
    var o :| o in outcomes && Blocking(o.result) && o.phaseId == d;
    m :| 0 <= m < |outcomes| && outcomes[m] == o;
  }

  /** In a schedule a listed dependency stands earlier. */
  lemma DependencyIsEarlier(ordered: seq<Phase>, i: nat, m: nat)
    requires Schedule(ordered) && i < |ordered| && m < |ordered| && ordered[m].id in ordered[i].dependsOn
    ensures m < i
  {
    var ids := Ids(ordered);
    assert ids[m] in ids;
    var k :| 0 <= k < i && ids[..i][k] == ids[m];
  }

  /** In a schedule, the dependencies that have failed by a phase's turn are all that ever will. */
  lemma FailuresKnownInTime<H>(cb: Callbacks<H>, mode: Mode, ordered: seq<Phase>, h: H, i: nat, d: string)
    requires Schedule(ordered) && i < |ordered| && d in ordered[i].dependsOn
    ensures |ApplyAll(cb, mode, ordered, h).outcomes| == |ordered|
    ensures var outcomes := ApplyAll(cb, mode, ordered, h).outcomes;
            d in FailedIds(outcomes) <==> d in FailedIds(outcomes[..i])
  {
    OneOutcomePerPhase(cb, mode, ordered, h);
    var outcomes := ApplyAll(cb, mode, ordered, h).outcomes;
    if d in FailedIds(outcomes) {
      var m := FailedIdIsListed(cb, mode, ordered, h, d);
      DependencyIsEarlier(ordered, i, m);
      assert outcomes[..i][m] == outcomes[m];
    }
  }

  lemma {:induction false} BlockerAgrees(deps: seq<string>, a: set<string>, b: set<string>)
    requires forall d :: d in deps ==> (d in a <==> d in b)
    ensures Blocker(deps, a) == Blocker(deps, b)
  {
    if deps != [] {
      BlockerAgrees(deps[1..], a, b);
    }
  }

  /**
   Every outcome is the one its phase's turn would give with the *final* set of failures: no later
   phase can change the verdict of an earlier one.
  */
  lemma {:induction false} OutcomeFromFinalFailures<H>(cb: Callbacks<H>, mode: Mode, ordered: seq<Phase>, h: H, i: nat)
    requires Schedule(ordered) && i < |ordered|
    ensures |ApplyAll(cb, mode, ordered, h).outcomes| == |ordered|
    ensures var log := ApplyAll(cb, mode, ordered, h);
            var host := HostBefore(cb, mode, ordered, h, i);
            log.outcomes[i] == PhaseTurn(cb, mode, FailedIds(log.outcomes), host, ordered[i]).outcome
  {
    TurnAt(cb, mode, ordered, h, i);
    var outcomes := ApplyAll(cb, mode, ordered, h).outcomes;
    forall d | d in ordered[i].dependsOn
      ensures d in FailedIds(outcomes) <==> d in FailedIds(outcomes[..i])
    {
      FailuresKnownInTime(cb, mode, ordered, h, i, d);
    }
    BlockerAgrees(ordered[i].dependsOn, FailedIds(outcomes), FailedIds(outcomes[..i]));
  }

  // ----- Which phases fail -----

  /** `s` holds every applicable phase that fails alone, and every applicable phase depending on `s`. */
  ghost predicate ClosedUnderFailure<H>(cb: Callbacks<H>, mode: Mode, ordered: seq<Phase>, h: H, s: set<string>) {
    forall i :: 0 <= i < |ordered| && mode in ordered[i].appliesIn ==>
      (FailsAlone(cb, ordered[i], HostBefore(cb, mode, ordered, h, i)) || DependsOnAny(ordered[i], s) ==>
         ordered[i].id in s)
  }

  predicate DependsOnAny(p: Phase, s: set<string>) {
    exists d :: d in p.dependsOn && d in s
  }

  lemma TurnBlocksIff<H>(cb: Callbacks<H>, mode: Mode, failed: set<string>, h: H, p: Phase)
    ensures Blocking(PhaseTurn(cb, mode, failed, h, p).outcome.result) <==>
            mode in p.appliesIn && (DependsOnAny(p, failed) || FailsAlone(cb, p, h))
  {}

  lemma FailedIff<H>(cb: Callbacks<H>, mode: Mode, ordered: seq<Phase>, h: H, i: nat)
    requires Schedule(ordered) && i < |ordered|
    ensures var failed := FailedIds(ApplyAll(cb, mode, ordered, h).outcomes);
            ordered[i].id in failed <==>
            mode in ordered[i].appliesIn &&
            (DependsOnAny(ordered[i], failed) || FailsAlone(cb, ordered[i], HostBefore(cb, mode, ordered, h, i)))
  {
    OneOutcomePerPhase(cb, mode, ordered, h);
    OutcomeFromFinalFailures(cb, mode, ordered, h, i);
    var outcomes := ApplyAll(cb, mode, ordered, h).outcomes;
    TurnBlocksIff(cb, mode, FailedIds(outcomes), HostBefore(cb, mode, ordered, h, i), ordered[i]);
    forall j | 0 <= j < |outcomes| && outcomes[j].phaseId == ordered[i].id
      ensures j == i
    {
      assert Ids(ordered)[j] == Ids(ordered)[i];
    }
    assert outcomes[i] in outcomes;
  }

  /** The failed set is the least set closed under failure; a mode-skipped phase passes nothing on. */
  lemma {:induction false} FailedSetIsLeast<H>(cb: Callbacks<H>, mode: Mode, ordered: seq<Phase>, h: H)
    requires Schedule(ordered)
    ensures var failed := FailedIds(ApplyAll(cb, mode, ordered, h).outcomes);
            && ClosedUnderFailure(cb, mode, ordered, h, failed)
            && forall s :: ClosedUnderFailure(cb, mode, ordered, h, s) ==> failed <= s
  {
    var outcomes := ApplyAll(cb, mode, ordered, h).outcomes;
    var failed := FailedIds(outcomes);
    OneOutcomePerPhase(cb, mode, ordered, h);
    forall i | 0 <= i < |ordered| && mode in ordered[i].appliesIn &&
      (FailsAlone(cb, ordered[i], HostBefore(cb, mode, ordered, h, i)) || DependsOnAny(ordered[i], failed))
      ensures ordered[i].id in failed
    {
      FailedIff(cb, mode, ordered, h, i);
    }
    forall s | ClosedUnderFailure(cb, mode, ordered, h, s)
      ensures failed <= s
    {
      forall id | id in failed
        ensures id in s
      {
        var o :| o in outcomes && Blocking(o.result) && o.phaseId == id;
        var i :| 0 <= i < |outcomes| && outcomes[i] == o;
        FailureIsForced(cb, mode, ordered, h, s, i);
      }
    }
  }

  lemma {:induction false} FailureIsForced<H>(
    cb: Callbacks<H>, mode: Mode, ordered: seq<Phase>, h: H, s: set<string>, i: nat)
    requires Schedule(ordered) && i < |ordered|
    requires ClosedUnderFailure(cb, mode, ordered, h, s)
    requires ordered[i].id in FailedIds(ApplyAll(cb, mode, ordered, h).outcomes)
    ensures ordered[i].id in s
    decreases i
  {
    var outcomes := ApplyAll(cb, mode, ordered, h).outcomes;
    FailedIff(cb, mode, ordered, h, i);
    if !FailsAlone(cb, ordered[i], HostBefore(cb, mode, ordered, h, i)) {
      var d :| d in ordered[i].dependsOn && d in FailedIds(outcomes);
      var m := FailedIdIsListed(cb, mode, ordered, h, d);
      DependencyIsEarlier(ordered, i, m);
      FailureIsForced(cb, mode, ordered, h, s, m);
    }
  }

  // ----- Which callbacks run -----

  /**
   The calls one phase should receive: none unless it runs; then its probe; then, if the probe calls for
   it, `act`, `reverify` unless `act` raised, and `rollback` exactly when that failed and there is one.
  */
  function DueCalls<H>(cb: Callbacks<H>, runs: bool, h: H, p: Phase): seq<Call> {
    if !runs then []
    else if !CallsForAction(cb, p, h) then [ProbeCall(p.id)]
    else
      [ProbeCall(p.id), ActCall(p.id)]
      + (if cb.act(p.id, h).0.Acted? then [ReverifyCall(p.id)] else [])
      + (if FailsAlone(cb, p, h) && p.hasRollback then [RollbackCall(p.id)] else [])
  }

  lemma CallsOfAct<H>(cb: Callbacks<H>, h: H, p: Phase)
    requires CallsForAction(cb, p, h)
    ensures [ProbeCall(p.id)] + ActTurn(cb, p, h).calls == DueCalls(cb, true, h, p)
  {
    var (reply, h') := cb.act(p.id, h);
    if reply.Acted? && cb.reverify(p.id, h') == Reverified(true) {
    } else if p.hasRollback {
      var (_, _) := cb.rollback(p.id, h');
    }
  }

  lemma CallsOfTurn<H>(cb: Callbacks<H>, mode: Mode, failed: set<string>, h: H, p: Phase)
    ensures PhaseTurn(cb, mode, failed, h, p).calls ==
            DueCalls(cb, mode in p.appliesIn && !DependsOnAny(p, failed), h, p)
  {
    if CallsForAction(cb, p, h) {
      CallsOfAct(cb, h, p);
    }
  }

  /** The calls made on behalf of one phase, in order. */
  function CallsOf(calls: seq<Call>, id: string): seq<Call> {
    if calls == [] then []
    else
      var front := CallsOf(calls[..|calls| - 1], id);
      if calls[|calls| - 1].id == id then front + [calls[|calls| - 1]] else front
  }

  lemma {:induction false} CallsOfConcat(a: seq<Call>, b: seq<Call>, id: string)
    ensures CallsOf(a + b, id) == CallsOf(a, id) + CallsOf(b, id)
  {
    if b == [] {
      assert a + b == a;
    } else {
      CallsOfConcat(a, b[..|b| - 1], id);
      assert (a + b)[..|a + b| - 1] == a + b[..|b| - 1];
    }
  }

  lemma {:induction false} CallsOfAllOrNone(calls: seq<Call>, id: string)
    ensures (forall c :: c in calls ==> c.id == id) ==> CallsOf(calls, id) == calls
    ensures (forall c :: c in calls ==> c.id != id) ==> CallsOf(calls, id) == []
  {
    if calls != [] {
      CallsOfAllOrNone(calls[..|calls| - 1], id);
      assert calls == calls[..|calls| - 1] + [calls[|calls| - 1]];
    }
  }

  lemma CallsOfAppended(calls: seq<Call>, mine: seq<Call>, owner: string, id: string)
    requires forall c :: c in mine ==> c.id == owner
    ensures CallsOf(calls + mine, id) == CallsOf(calls, id) + if owner == id then mine else []
  {
    CallsOfConcat(calls, mine, id);
    CallsOfAllOrNone(mine, id);
  }

  lemma TurnFromFinalFailures<H>(cb: Callbacks<H>, mode: Mode, ordered: seq<Phase>, h: H, i: nat)
    requires Schedule(ordered) && i < |ordered|
    ensures var log := ApplyAll(cb, mode, ordered[..i + 1], h);
            var failed := FailedIds(ApplyAll(cb, mode, ordered, h).outcomes);
            log.calls == ApplyAll(cb, mode, ordered[..i], h).calls +
                         PhaseTurn(cb, mode, failed, HostBefore(cb, mode, ordered, h, i), ordered[i]).calls
  {
    assert ordered[..i + 1][..i] == ordered[..i];
    TurnAt(cb, mode, ordered, h, i);
    var outcomes := ApplyAll(cb, mode, ordered, h).outcomes;
    forall d | d in ordered[i].dependsOn
      ensures d in FailedIds(outcomes) <==> d in FailedIds(outcomes[..i])
    {
      FailuresKnownInTime(cb, mode, ordered, h, i, d);
    }
    BlockerAgrees(ordered[i].dependsOn, FailedIds(outcomes), FailedIds(outcomes[..i]));
  }

  /** One more phase adds its own turn's calls, and only to its own id. */
  lemma CallsOfOneMore<H>(cb: Callbacks<H>, mode: Mode, ordered: seq<Phase>, h: H, i: nat, n: nat)
    requires Schedule(ordered) && i < |ordered| && n < |ordered|
    ensures CallsOf(ApplyAll(cb, mode, ordered[..n + 1], h).calls, ordered[i].id) ==
            CallsOf(ApplyAll(cb, mode, ordered[..n], h).calls, ordered[i].id) +
            if i == n then DueTurn(cb, mode, ordered, h, i) else []
  {
    var mine := DueTurn(cb, mode, ordered, h, n);
    TurnFromFinalFailures(cb, mode, ordered, h, n);
    CallsOfTurn(cb, mode, FailedIds(ApplyAll(cb, mode, ordered, h).outcomes), HostBefore(cb, mode, ordered, h, n),
                ordered[n]);
    CallsOfAppended(ApplyAll(cb, mode, ordered[..n], h).calls, mine, ordered[n].id, ordered[i].id);
    assert i != n ==> Ids(ordered)[i] != Ids(ordered)[n];
  }

  /** The calls of phase `i`'s turn, judged by the failures of the whole run. */
  function DueTurn<H>(cb: Callbacks<H>, mode: Mode, ordered: seq<Phase>, h: H, i: nat): seq<Call>
    requires i < |ordered|
  {
    PhaseTurn(cb, mode, FailedIds(ApplyAll(cb, mode, ordered, h).outcomes), HostBefore(cb, mode, ordered, h, i),
              ordered[i]).calls
  }

  lemma NoCallsYet<H>(cb: Callbacks<H>, mode: Mode, ordered: seq<Phase>, h: H, id: string)
    ensures CallsOf(ApplyAll(cb, mode, ordered[..0], h).calls, id) == []
  {
    assert ordered[..0] == [];
  }

  lemma {:induction false} CallsOfPrefix<H>(cb: Callbacks<H>, mode: Mode, ordered: seq<Phase>, h: H, i: nat, n: nat)
    requires Schedule(ordered) && i < |ordered| && n <= |ordered|
    ensures CallsOf(ApplyAll(cb, mode, ordered[..n], h).calls, ordered[i].id) ==
            if i < n then DueTurn(cb, mode, ordered, h, i) else []
    decreases n
  {
    if n == 0 {
      NoCallsYet(cb, mode, ordered, h, ordered[i].id);
    } else {
      CallsOfPrefix(cb, mode, ordered, h, i, n - 1);
      CallsOfNext(cb, mode, ordered, h, i, n - 1);
    }
  }

  lemma CallsOfNext<H>(cb: Callbacks<H>, mode: Mode, ordered: seq<Phase>, h: H, i: nat, n: nat)
    requires Schedule(ordered) && i < |ordered| && n < |ordered|
    requires CallsOf(ApplyAll(cb, mode, ordered[..n], h).calls, ordered[i].id) ==
             if i < n then DueTurn(cb, mode, ordered, h, i) else []
    ensures CallsOf(ApplyAll(cb, mode, ordered[..n + 1], h).calls, ordered[i].id) ==
            if i < n + 1 then DueTurn(cb, mode, ordered, h, i) else []
  {
    CallsOfOneMore(cb, mode, ordered, h, i, n);
    DueOnce(CallsOf(ApplyAll(cb, mode, ordered[..n], h).calls, ordered[i].id),
            CallsOf(ApplyAll(cb, mode, ordered[..n + 1], h).calls, ordered[i].id),
            DueTurn(cb, mode, ordered, h, i), i, n);
  }

  lemma DueOnce(before: seq<Call>, after: seq<Call>, due: seq<Call>, i: nat, n: nat)
    requires before == if i < n then due else []
    requires after == before + if i == n then due else []
    ensures after == if i < n + 1 then due else []
  {}

  /**
   The calls a phase receives in a whole run: `act` runs once for an applicable phase that no failed
   dependency blocks and whose probe calls for it, and not otherwise; `rollback` follows only its failure.
  */
  lemma {:induction false} EachPhaseGetsItsDueCalls<H>(cb: Callbacks<H>, mode: Mode, ordered: seq<Phase>, h: H, i: nat)
    requires Schedule(ordered) && i < |ordered|
    ensures var log := ApplyAll(cb, mode, ordered, h);
            var runs := mode in ordered[i].appliesIn && !DependsOnAny(ordered[i], FailedIds(log.outcomes));
            CallsOf(log.calls, ordered[i].id) ==
            DueCalls(cb, runs, HostBefore(cb, mode, ordered, h, i), ordered[i])
  {
    CallsOfPrefix(cb, mode, ordered, h, i, |ordered|);
    assert ordered[..|ordered|] == ordered;
    var failed := FailedIds(ApplyAll(cb, mode, ordered, h).outcomes);
    CallsOfTurn(cb, mode, failed, HostBefore(cb, mode, ordered, h, i), ordered[i]);
  }

  // ----- The order does not matter -----

  ghost predicate SameReplies<H>(cb: Callbacks<H>, id: string, h: H, h': H) {
    && cb.probe(id, h) == cb.probe(id, h')
    && cb.act(id, h).0 == cb.act(id, h').0
    && cb.reverify(id, h) == cb.reverify(id, h')
    && cb.rollback(id, h).0 == cb.rollback(id, h').0
  }

  /** Each phase's callbacks reply the same whatever the others have done. */
  ghost predicate FixedReplies<H(!new)>(cb: Callbacks<H>) {
    forall id, h, h' :: SameReplies(cb, id, h, h')
  }

  lemma ActIgnoresHost<H(!new)>(cb: Callbacks<H>, h: H, h': H, p: Phase)
    requires FixedReplies(cb)
    ensures ActTurn(cb, p, h).outcome == ActTurn(cb, p, h').outcome
    ensures ActTurn(cb, p, h).calls == ActTurn(cb, p, h').calls
    ensures FailsAlone(cb, p, h) == FailsAlone(cb, p, h')
  {
    var (_, g) := cb.act(p.id, h);
    var (_, g') := cb.act(p.id, h');
    assert SameReplies(cb, p.id, h, h') && SameReplies(cb, p.id, g, g');
    forall detail
      ensures FailTurn(cb, p, g, detail).outcome == FailTurn(cb, p, g', detail).outcome
      ensures FailTurn(cb, p, g, detail).calls == FailTurn(cb, p, g', detail).calls
    {}
  }

  lemma TurnIgnoresHost<H(!new)>(cb: Callbacks<H>, mode: Mode, failed: set<string>, h: H, h': H, p: Phase)
    requires FixedReplies(cb)
    ensures PhaseTurn(cb, mode, failed, h, p).outcome == PhaseTurn(cb, mode, failed, h', p).outcome
    ensures PhaseTurn(cb, mode, failed, h, p).calls == PhaseTurn(cb, mode, failed, h', p).calls
    ensures FailsAlone(cb, p, h) == FailsAlone(cb, p, h')
  {
    assert SameReplies(cb, p.id, h, h');
    ActIgnoresHost(cb, h, h', p);
  }

  ghost predicate SamePhases(a: seq<Phase>, b: seq<Phase>) {
    forall p :: p in a <==> p in b
  }

  lemma ClosedInEitherOrder<H(!new)>(
    cb: Callbacks<H>, mode: Mode, a: seq<Phase>, b: seq<Phase>, h: H, h': H, s: set<string>)
    requires FixedReplies(cb) && SamePhases(a, b)
    requires ClosedUnderFailure(cb, mode, a, h, s)
    ensures ClosedUnderFailure(cb, mode, b, h', s)
  {
    forall i | 0 <= i < |b| && mode in b[i].appliesIn &&
      (FailsAlone(cb, b[i], HostBefore(cb, mode, b, h', i)) || DependsOnAny(b[i], s))
      ensures b[i].id in s
    {
      assert b[i] in a;
      var j :| 0 <= j < |a| && a[j] == b[i];
      TurnIgnoresHost(cb, mode, s, HostBefore(cb, mode, a, h, j), HostBefore(cb, mode, b, h', i), b[i]);
    }
  }

  /** What a run gives phase `i`, in terms of the turn judged by the final failures. */
  lemma OutcomeAndCalls<H>(cb: Callbacks<H>, mode: Mode, ordered: seq<Phase>, h: H, i: nat)
    requires Schedule(ordered) && i < |ordered|
    ensures |ApplyAll(cb, mode, ordered, h).outcomes| == |ordered|
    ensures ApplyAll(cb, mode, ordered, h).outcomes[i] ==
            PhaseTurn(cb, mode, FailedIds(ApplyAll(cb, mode, ordered, h).outcomes),
                      HostBefore(cb, mode, ordered, h, i), ordered[i]).outcome
    ensures CallsOf(ApplyAll(cb, mode, ordered, h).calls, ordered[i].id) == DueTurn(cb, mode, ordered, h, i)
  {
    OutcomeFromFinalFailures(cb, mode, ordered, h, i);
    CallsOfPrefix(cb, mode, ordered, h, i, |ordered|);
    assert ordered[..|ordered|] == ordered;
  }

  lemma SamePhaseSameTurn<H(!new)>(
    cb: Callbacks<H>, mode: Mode, a: seq<Phase>, b: seq<Phase>, h: H, h': H, i: nat, j: nat)
    requires FixedReplies(cb) && Schedule(a) && Schedule(b)
    requires FailedIds(ApplyAll(cb, mode, a, h).outcomes) == FailedIds(ApplyAll(cb, mode, b, h').outcomes)
    requires i < |a| && j < |b| && a[i] == b[j]
    ensures var la, lb := ApplyAll(cb, mode, a, h), ApplyAll(cb, mode, b, h');
            && |la.outcomes| == |a| && |lb.outcomes| == |b|
            && la.outcomes[i] == lb.outcomes[j] && CallsOf(la.calls, a[i].id) == CallsOf(lb.calls, a[i].id)
  {
    OutcomeAndCalls(cb, mode, a, h, i);
    OutcomeAndCalls(cb, mode, b, h', j);
    TurnIgnoresHost(cb, mode, FailedIds(ApplyAll(cb, mode, a, h).outcomes),
                    HostBefore(cb, mode, a, h, i), HostBefore(cb, mode, b, h', j), a[i]);
  }

  /**
   With each phase's replies fixed, any two schedules of the same phases, started on any hosts, fail the
   same phases, and give every phase the same outcome (blocker included) and the same calls.
  */
  lemma {:induction false} OrderDoesNotMatter<H(!new)>(
    cb: Callbacks<H>, mode: Mode, a: seq<Phase>, b: seq<Phase>, h: H, h': H)
    requires FixedReplies(cb) && SamePhases(a, b) && Schedule(a) && Schedule(b)
    ensures var la, lb := ApplyAll(cb, mode, a, h), ApplyAll(cb, mode, b, h');
            && |la.outcomes| == |a| && |lb.outcomes| == |b|
            && FailedIds(la.outcomes) == FailedIds(lb.outcomes)
            && (forall i, j :: 0 <= i < |a| && 0 <= j < |b| && a[i] == b[j] ==>
                  la.outcomes[i] == lb.outcomes[j] && CallsOf(la.calls, a[i].id) == CallsOf(lb.calls, a[i].id))
  {
    var la, lb := ApplyAll(cb, mode, a, h), ApplyAll(cb, mode, b, h');
    OneOutcomePerPhase(cb, mode, a, h);
    OneOutcomePerPhase(cb, mode, b, h');
    FailedSetIsLeast(cb, mode, a, h);
    FailedSetIsLeast(cb, mode, b, h');
    ClosedInEitherOrder(cb, mode, a, b, h, h', FailedIds(la.outcomes));
    ClosedInEitherOrder(cb, mode, b, a, h', h, FailedIds(lb.outcomes));
    forall i, j | 0 <= i < |a| && 0 <= j < |b| && a[i] == b[j]
      ensures la.outcomes[i] == lb.outcomes[j] && CallsOf(la.calls, a[i].id) == CallsOf(lb.calls, a[i].id)
    {
      SamePhaseSameTurn(cb, mode, a, b, h, h', i, j);
    }
  }
}
