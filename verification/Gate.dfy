/**
 The decision between the two passes, and what it guarantees about the pass it lets through.
*/
module Gate {
  import opened PhaseOrder
  import opened PhaseRunner

  datatype PlanTally = PlanTally(alreadyCorrect: nat, willMutate: nat, blocked: nat, refused: nat)

  datatype GateOutcome = NothingToApply | Refused | NonTtyNeedsYes | Prompt | Proceed

  predicate IsCorrect(r: PhaseResult) { r.AlreadyCorrect? || r.Skipped? }
  predicate IsMutation(r: PhaseResult) { r.Missing? || r.Drift? }
  predicate IsRefusal(r: PhaseResult) { r.Conflict? || r.Fail? }

  datatype Bucket = Correct | Mutation | Refusal | Neither

  function BucketOf(r: PhaseResult): Bucket {
    if IsCorrect(r) then Correct else if IsMutation(r) then Mutation else if IsRefusal(r) then Refusal else Neither
  }

  /** How many outcomes fall into a bucket. */
  function Count(outcomes: seq<PlanOutcome>, b: Bucket): nat {
    if outcomes == [] then 0
    else Count(outcomes[..|outcomes| - 1], b) + if BucketOf(outcomes[|outcomes| - 1].result) == b then 1 else 0
  }

  lemma {:induction false} CountZero(outcomes: seq<PlanOutcome>, b: Bucket)
    ensures Count(outcomes, b) == 0 <==> forall o :: o in outcomes ==> BucketOf(o.result) != b
  {
    if outcomes != [] {
      CountZero(outcomes[..|outcomes| - 1], b);
      assert outcomes == outcomes[..|outcomes| - 1] + [outcomes[|outcomes| - 1]];
    }
  }

  lemma CountStep(outcomes: seq<PlanOutcome>, i: nat)
    requires i < |outcomes|
    ensures forall b :: Count(outcomes[..i + 1], b) ==
                        Count(outcomes[..i], b) + if BucketOf(outcomes[i].result) == b then 1 else 0
  {
    assert outcomes[..i + 1][..i] == outcomes[..i];
  }

  method TallyPlan(outcomes: seq<PlanOutcome>) returns (t: PlanTally)
    ensures t.alreadyCorrect == Count(outcomes, Correct)
    ensures t.willMutate == Count(outcomes, Mutation)
    ensures t.refused == Count(outcomes, Refusal)
    ensures t.blocked == Count(outcomes, Neither)
    ensures t.alreadyCorrect + t.willMutate + t.blocked + t.refused == |outcomes|
  {
    var correct, mutate, blocked, refused := 0, 0, 0, 0;
    for i := 0 to |outcomes|
      invariant correct == Count(outcomes[..i], Correct)
      invariant mutate == Count(outcomes[..i], Mutation)
      invariant refused == Count(outcomes[..i], Refusal)
      invariant blocked == Count(outcomes[..i], Neither)
      invariant correct + mutate + blocked + refused == i
    {
      CountStep(outcomes, i);
      var result := outcomes[i].result;
      if IsCorrect(result) {
        correct := correct + 1;
      } else if IsMutation(result) {
        mutate := mutate + 1;
      } else if IsRefusal(result) {
        refused := refused + 1;
      } else {
        blocked := blocked + 1;
      }
    }
    assert outcomes[..|outcomes|] == outcomes;
    t := PlanTally(correct, mutate, blocked, refused);
  }

  /** The decision matrix, stated over the outcomes themselves. */
  ghost function GateOf(outcomes: seq<PlanOutcome>, isTty: bool, assumeYes: bool, extraMutations: nat): GateOutcome {
    if exists o :: o in outcomes && IsRefusal(o.result) then Refused
    else if extraMutations == 0 && forall o :: o in outcomes ==> !IsMutation(o.result) then NothingToApply
    else if assumeYes then Proceed
    else if isTty then Prompt
    else NonTtyNeedsYes
  }

  method DecideGate(outcomes: seq<PlanOutcome>, isTty: bool, assumeYes: bool, extraMutations: nat)
    returns (outcome: GateOutcome, tally: PlanTally)
    ensures outcome == GateOf(outcomes, isTty, assumeYes, extraMutations)
    ensures tally.alreadyCorrect + tally.willMutate + tally.blocked + tally.refused == |outcomes|
    ensures tally.refused == Count(outcomes, Refusal) && tally.willMutate == Count(outcomes, Mutation)
  {
    tally := TallyPlan(outcomes);
    CountZero(outcomes, Refusal);
    CountZero(outcomes, Mutation);
    if tally.refused > 0 {
      outcome := Refused;
    } else if tally.willMutate + extraMutations == 0 {
      outcome := NothingToApply;
    } else if assumeYes {
      outcome := Proceed;
    } else if !isTty {
      outcome := NonTtyNeedsYes;
    } else {
      outcome := Prompt;
    }
  }

  // ----- What "nothing to apply" promises about the apply pass -----

  predicate SameReport(plan: PlanOutcome, applied: ApplyOutcome) {
    applied == ApplyOutcome(plan.phaseId, plan.result, plan.detail, false)
  }

  ghost predicate Acts(calls: seq<Call>) {
    exists c :: c in calls && c.ActCall?
  }

  /** A converged prefix of the phases is applied without touching the host, and reports what was planned. */
  lemma {:induction false} ConvergedPrefix<H>(cb: Callbacks<H>, mode: Mode, ordered: seq<Phase>, h: H)
    requires forall o :: o in PlanAll(cb, mode, ordered, h) ==> IsCorrect(o.result)
    ensures var log := ApplyAll(cb, mode, ordered, h);
            && log.host == h && !Acts(log.calls) && FailedIds(log.outcomes) == {}
            && |log.outcomes| == |ordered|
            && forall i :: 0 <= i < |ordered| ==> SameReport(PlanAll(cb, mode, ordered, h)[i], log.outcomes[i])
  {
    if ordered != [] {
      var n := |ordered| - 1;
      var plan := PlanAll(cb, mode, ordered, h);
      assert PlanAll(cb, mode, ordered[..n], h) == plan[..n];
      ConvergedPrefix(cb, mode, ordered[..n], h);
      assert plan[n] in plan;
      ConvergedTurn(cb, mode, h, ordered[n]);
      AppendedFailure(ApplyAll(cb, mode, ordered[..n], h).outcomes, PhaseTurn(cb, mode, {}, h, ordered[n]).outcome);
    }
  }

  lemma ConvergedTurn<H>(cb: Callbacks<H>, mode: Mode, h: H, p: Phase)
    requires IsCorrect(PlanOne(cb, mode, h, p).result)
    ensures var t := PhaseTurn(cb, mode, {}, h, p);
            && t.host == h && !Acts(t.calls) && !Blocking(t.outcome.result)
            && SameReport(PlanOne(cb, mode, h, p), t.outcome)
  {}

  /**
   When the gate says there is nothing to apply and no probe answered BLOCKED_BY, running the apply pass
   anyway calls no `act`, leaves the host as it is and reports exactly what the plan reported.
  */
  lemma {:induction false} NothingToApplyIsHonest<H>(
    cb: Callbacks<H>, mode: Mode, ordered: seq<Phase>, h: H, isTty: bool, yes: bool)
    requires GateOf(PlanAll(cb, mode, ordered, h), isTty, yes, 0) == NothingToApply
    requires forall o :: o in PlanAll(cb, mode, ordered, h) ==> o.result != BlockedBy
    ensures var log := ApplyAll(cb, mode, ordered, h);
            && log.host == h && !Acts(log.calls)
            && |log.outcomes| == |ordered|
            && forall i :: 0 <= i < |ordered| ==> SameReport(PlanAll(cb, mode, ordered, h)[i], log.outcomes[i])
  {
    forall o | o in PlanAll(cb, mode, ordered, h)
      ensures IsCorrect(o.result)
    {}
    ConvergedPrefix(cb, mode, ordered, h);
  }

  /**
   The condition is exact: a probe that answers BLOCKED_BY is tallied neither as a refusal nor as a
   mutation, so the gate stays silent about it, yet the apply pass would act on that phase.
  */
  lemma {:induction false} NothingToApplyIff<H>(
    cb: Callbacks<H>, mode: Mode, ordered: seq<Phase>, h: H, isTty: bool, yes: bool)
    requires GateOf(PlanAll(cb, mode, ordered, h), isTty, yes, 0) == NothingToApply
    ensures Acts(ApplyAll(cb, mode, ordered, h).calls) <==>
            exists o :: o in PlanAll(cb, mode, ordered, h) && o.result == BlockedBy
  {
    var plan := PlanAll(cb, mode, ordered, h);
    if o :| o in plan && o.result == BlockedBy {
      assert plan[..|plan|] == plan;
      var i := FirstBlocked(plan, |plan|);
      forall j | 0 <= j < i
        ensures IsCorrect(plan[j].result)
      {
        assert plan[j] in plan;
      }
      SilentlyActs(cb, mode, ordered, h, i);
      ActsStay(cb, mode, ordered, h, i + 1);
    } else {
      NothingToApplyIsHonest(cb, mode, ordered, h, isTty, yes);
    }
  }

  lemma {:induction false} FirstBlocked(plan: seq<PlanOutcome>, n: nat) returns (i: nat)
    requires n <= |plan| && exists o :: o in plan[..n] && o.result == BlockedBy
    ensures i < n && plan[i].result == BlockedBy
    ensures forall j :: 0 <= j < i ==> plan[j].result != BlockedBy
  {
    if exists o :: o in plan[..n - 1] && o.result == BlockedBy {
      i := FirstBlocked(plan, n - 1);
    } else {
      i := n - 1;
      forall j | 0 <= j < i
        ensures plan[j].result != BlockedBy
      {
        assert plan[j] in plan[..n - 1];
      }
      assert plan[..n] == plan[..n - 1] + [plan[n - 1]];
    }
  }

  lemma SilentlyActs<H>(cb: Callbacks<H>, mode: Mode, ordered: seq<Phase>, h: H, i: nat)
    requires i < |ordered| && PlanAll(cb, mode, ordered, h)[i].result == BlockedBy
    requires forall j :: 0 <= j < i ==> IsCorrect(PlanAll(cb, mode, ordered, h)[j].result)
    ensures Acts(ApplyAll(cb, mode, ordered[..i + 1], h).calls)
  {
    var before := ApplyAll(cb, mode, ordered[..i], h);
    assert PlanAll(cb, mode, ordered[..i], h) == PlanAll(cb, mode, ordered, h)[..i];
    ConvergedPrefix(cb, mode, ordered[..i], h);
    assert ordered[..i + 1][..i] == ordered[..i];
    BlockedTurn(cb, mode, h, ordered[i]);
    assert ActCall(ordered[i].id) in before.calls + PhaseTurn(cb, mode, {}, h, ordered[i]).calls;
  }

  lemma BlockedTurn<H>(cb: Callbacks<H>, mode: Mode, h: H, p: Phase)
    requires PlanOne(cb, mode, h, p).result == BlockedBy
    ensures ActCall(p.id) in PhaseTurn(cb, mode, {}, h, p).calls
  {
    assert PhaseTurn(cb, mode, {}, h, p).calls[1] == ActCall(p.id);
  }

  lemma {:induction false} ActsStay<H>(cb: Callbacks<H>, mode: Mode, ordered: seq<Phase>, h: H, n: nat)
    requires n <= |ordered| && Acts(ApplyAll(cb, mode, ordered[..n], h).calls)
    ensures Acts(ApplyAll(cb, mode, ordered, h).calls)
  {
    if n == |ordered| {
      assert ordered[..n] == ordered;
    } else {
      var front := ordered[..|ordered| - 1];
      assert front[..n] == ordered[..n];
      ActsStay(cb, mode, front, h, n);
      var c :| c in ApplyAll(cb, mode, front, h).calls && c.ActCall?;
      assert c in ApplyAll(cb, mode, ordered, h).calls;
    }
  }

  /** Such a ceremony exists: one phase whose probe answers BLOCKED_BY. */
  lemma {:induction false} GateCanBeSilentAboutAnAct() returns (cb: Callbacks<bool>, ordered: seq<Phase>)
    ensures GateOf(PlanAll(cb, SeparateUser, ordered, false), true, false, 0) == NothingToApply
    ensures Acts(ApplyAll(cb, SeparateUser, ordered, false).calls)
    ensures ApplyAll(cb, SeparateUser, ordered, false).host == true
  {
    cb := Callbacks((id, h) => Probed(BlockedBy, ""), (id, h) => (Acted(""), true),
                    (id, h) => Reverified(true), (id, h) => (RolledBack, h));
    ordered := [Phase("l0", [], {SeparateUser}, false)];
    var plan := PlanAll(cb, SeparateUser, ordered, false);
    assert plan[0] in plan;
    NothingToApplyIff(cb, SeparateUser, ordered, false, true, false);
    assert ordered[..0] == [];
  }
}
