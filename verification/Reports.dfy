/**
 What every phase reports and leaves behind, read off its callbacks: the plan pass and the gate's refusal, and, over a
 whole apply pass, the outcome and the host after each kind of turn.
*/
module Reports {
  import opened Options
  import opened PhaseOrder
  import opened PhaseRunner
  import opened ApplyPass
  import opened Gate

  // ----- The plan pass -----

  /** A phase of another mode is skipped; a probe that raises is a failure; what any other probe says is kept. */
  lemma {:induction false} PlanReports<H>(cb: Callbacks<H>, mode: Mode, ordered: seq<Phase>, h: H, i: nat)
    requires i < |ordered|
    ensures |PlanAll(cb, mode, ordered, h)| == |ordered|
    ensures var p, o := ordered[i], PlanAll(cb, mode, ordered, h)[i];
            o.phaseId == p.id &&
            if mode !in p.appliesIn then o.result == Skipped
            else match cb.probe(p.id, h)
                 case ProbeRaised(exc) => o.result == Fail && o.detail == "probe raised: " + exc
                 case Probed(result, detail) => o.result == result && o.detail == detail
  {}

  /** A probe that raises, or finds a conflict, in the plan pass stops the ceremony. */
  lemma {:induction false} RaisingProbeIsRefused<H>(
    cb: Callbacks<H>, mode: Mode, ordered: seq<Phase>, h: H, i: nat, isTty: bool, yes: bool, extra: nat)
    requires i < |ordered| && mode in ordered[i].appliesIn
    requires var reply := cb.probe(ordered[i].id, h); reply.ProbeRaised? || reply.result == Conflict
    ensures GateOf(PlanAll(cb, mode, ordered, h), isTty, yes, extra) == Refused
  {
    PlanReports(cb, mode, ordered, h, i);
    assert PlanAll(cb, mode, ordered, h)[i] in PlanAll(cb, mode, ordered, h);
  }

  ghost predicate Any(outcomes: seq<PlanOutcome>, results: set<PhaseResult>) {
    exists i :: 0 <= i < |outcomes| && outcomes[i].result in results
  }

  /** The decision matrix, over the results themselves. */
  lemma {:induction false} GateMatrix(outcomes: seq<PlanOutcome>, isTty: bool, yes: bool, extra: nat)
    ensures var gate := GateOf(outcomes, isTty, yes, extra);
            && (gate == Refused <==> Any(outcomes, {Conflict, Fail}))
            && (gate == NothingToApply <==>
                !Any(outcomes, {Conflict, Fail}) && !Any(outcomes, {Missing, Drift}) && extra == 0)
            && (gate !in {Refused, NothingToApply} ==>
                gate == if yes then Proceed else if isTty then Prompt else NonTtyNeedsYes)
  {
    forall o | o in outcomes
      ensures exists i :: 0 <= i < |outcomes| && outcomes[i] == o
    {}
  }

  /** What one outcome adds to the tally. */
  lemma CountsOne(o: PlanOutcome, b: Bucket)
    ensures Count([o], b) ==
            if o.result in (match b case Correct => {AlreadyCorrect, Skipped} case Mutation => {Missing, Drift}
                                    case Refusal => {Conflict, Fail} case Neither => {BlockedBy}) then 1 else 0
  {
    assert [o][..0] == [];
  }

  /** And every outcome adds to it, wherever it stands. */
  lemma {:induction false} CountsAddUp(a: seq<PlanOutcome>, c: seq<PlanOutcome>, b: Bucket)
    ensures Count(a + c, b) == Count(a, b) + Count(c, b)
  {
    if c == [] {
      assert a + c == a;
    } else {
      assert (a + c)[..|a + c| - 1] == a + c[..|c| - 1];
      CountsAddUp(a, c[..|c| - 1], b);
    }
  }

  lemma SkipText(mode: Mode)
    ensures "skipped (" + ModeValue(mode) + ")" ==
            if mode == SeparateUser then "skipped (separate-user)" else "skipped (operator-rootless)"
  {
    match mode
    case SeparateUser => assert "skipped (" + "separate-user" + ")" == "skipped (separate-user)";
    case OperatorRootless => assert "skipped (" + "operator-rootless" + ")" == "skipped (operator-rootless)";
  }

  // ----- The apply pass -----

  function OutcomeAt<H>(cb: Callbacks<H>, mode: Mode, ordered: seq<Phase>, h: H, i: nat): Option<ApplyOutcome> {
    var outcomes := ApplyAll(cb, mode, ordered, h).outcomes;
    if i < |outcomes| then Some(outcomes[i]) else None
  }

  /** The host as it stands when the turn of phase `i` is over. */
  function HostAfter<H>(cb: Callbacks<H>, mode: Mode, ordered: seq<Phase>, h: H, i: nat): H
    requires i < |ordered|
  {
    ApplyAll(cb, mode, ordered[..i + 1], h).host
  }

  /** The pass begins on the host it is given, each turn where the one before ended, and it ends with the last. */
  lemma {:induction false} HostIsHandedOn<H>(cb: Callbacks<H>, mode: Mode, ordered: seq<Phase>, h: H, i: nat)
    requires i < |ordered|
    ensures i == 0 ==> HostBefore(cb, mode, ordered, h, i) == h
    ensures i > 0 ==> HostBefore(cb, mode, ordered, h, i) == HostAfter(cb, mode, ordered, h, i - 1)
    ensures i == |ordered| - 1 ==> ApplyAll(cb, mode, ordered, h).host == HostAfter(cb, mode, ordered, h, i)
  {
    assert ordered[..|ordered|] == ordered;
    assert ordered[..0] == [];
  }

  /** Outcome and host of turn `i` are those of the phase's turn under the final failures. */
  lemma TurnReports<H>(cb: Callbacks<H>, mode: Mode, ordered: seq<Phase>, h: H, i: nat)
    requires Schedule(ordered) && i < |ordered|
    ensures var t := PhaseTurn(cb, mode, FailedIds(ApplyAll(cb, mode, ordered, h).outcomes),
                               HostBefore(cb, mode, ordered, h, i), ordered[i]);
            OutcomeAt(cb, mode, ordered, h, i) == Some(t.outcome) && HostAfter(cb, mode, ordered, h, i) == t.host
  {
    var outcomes := ApplyAll(cb, mode, ordered, h).outcomes;
    OutcomeFromFinalFailures(cb, mode, ordered, h, i);
    TurnAt(cb, mode, ordered, h, i);
    assert ordered[..i + 1][..i] == ordered[..i];
    forall d | d in ordered[i].dependsOn
      ensures d in FailedIds(outcomes) <==> d in FailedIds(outcomes[..i])
    {
      FailuresKnownInTime(cb, mode, ordered, h, i, d);
    }
    BlockerAgrees(ordered[i].dependsOn, FailedIds(outcomes), FailedIds(outcomes[..i]));
  }

  /** A phase of another mode is skipped, and touches nothing. */
  lemma {:induction false} SkippedReport<H>(cb: Callbacks<H>, mode: Mode, ordered: seq<Phase>, h: H, i: nat)
    requires Schedule(ordered) && i < |ordered| && mode !in ordered[i].appliesIn
    ensures OutcomeAt(cb, mode, ordered, h, i) == Some(ApplyOutcome(ordered[i].id, Skipped,
              if mode == SeparateUser then "skipped (separate-user)" else "skipped (operator-rootless)", false))
    ensures HostAfter(cb, mode, ordered, h, i) == HostBefore(cb, mode, ordered, h, i)
  {
    TurnReports(cb, mode, ordered, h, i);
    SkipText(mode);
  }

  /** The first listed dependency that has failed. */
  predicate IsFirstFailed(deps: seq<string>, failed: set<string>, k: nat) {
    k < |deps| && deps[k] in failed && forall j :: 0 <= j < k ==> deps[j] !in failed
  }

  lemma {:induction false} BlockerIsFirst(deps: seq<string>, failed: set<string>) returns (k: nat)
    requires exists d :: d in deps && d in failed
    ensures IsFirstFailed(deps, failed, k) && Blocker(deps, failed) == Some(deps[k])
  {
    if deps[0] in failed {
      k := 0;
    } else {
      var d :| d in deps && d in failed;
      assert d in deps[1..];
      k := BlockerIsFirst(deps[1..], failed);
      k := k + 1;
    }
  }

  /** A blocked phase names the first of its dependencies that has failed, and touches nothing. */
  lemma {:induction false} BlockedReport<H>(cb: Callbacks<H>, mode: Mode, ordered: seq<Phase>, h: H, i: nat)
    returns (k: nat)
    requires Schedule(ordered) && i < |ordered| && mode in ordered[i].appliesIn
    requires DependsOnAny(ordered[i], FailedIds(ApplyAll(cb, mode, ordered, h).outcomes))
    ensures IsFirstFailed(ordered[i].dependsOn, FailedIds(ApplyAll(cb, mode, ordered, h).outcomes), k)
    ensures OutcomeAt(cb, mode, ordered, h, i) ==
            Some(ApplyOutcome(ordered[i].id, BlockedBy,
                              "blocked by failed phase '" + ordered[i].dependsOn[k] + "'", false))
    ensures HostAfter(cb, mode, ordered, h, i) == HostBefore(cb, mode, ordered, h, i)
  {
    TurnReports(cb, mode, ordered, h, i);
    k := BlockerIsFirst(ordered[i].dependsOn, FailedIds(ApplyAll(cb, mode, ordered, h).outcomes));
  }

  /** The phase is of this mode, and none of its dependencies has failed. */
  ghost predicate Proceeds<H>(cb: Callbacks<H>, mode: Mode, ordered: seq<Phase>, h: H, i: nat) {
    && Schedule(ordered) && i < |ordered| && mode in ordered[i].appliesIn
    && forall d :: d in ordered[i].dependsOn ==> d !in FailedIds(ApplyAll(cb, mode, ordered, h).outcomes)
  }

  /** A raised probe is a failure; a phase found correct or in conflict keeps its probe's answer; nothing is touched. */
  lemma {:induction false} ProbedReport<H>(cb: Callbacks<H>, mode: Mode, ordered: seq<Phase>, h: H, i: nat)
    requires Proceeds(cb, mode, ordered, h, i)
    requires var reply := cb.probe(ordered[i].id, HostBefore(cb, mode, ordered, h, i));
             reply.ProbeRaised? || reply.result in {AlreadyCorrect, Skipped, Conflict}
    ensures var p := ordered[i];
            OutcomeAt(cb, mode, ordered, h, i) ==
            match cb.probe(p.id, HostBefore(cb, mode, ordered, h, i))
            case ProbeRaised(exc) => Some(ApplyOutcome(p.id, Fail, "probe raised: " + exc, false))
            case Probed(result, detail) => Some(ApplyOutcome(p.id, result, detail, false))
    ensures HostAfter(cb, mode, ordered, h, i) == HostBefore(cb, mode, ordered, h, i)
  {
    TurnReports(cb, mode, ordered, h, i);
  }

  /** What the probe answered calls for the act. */
  ghost predicate ActsAt<H>(cb: Callbacks<H>, mode: Mode, ordered: seq<Phase>, h: H, i: nat) {
    && Proceeds(cb, mode, ordered, h, i)
    && var reply := cb.probe(ordered[i].id, HostBefore(cb, mode, ordered, h, i));
       reply.Probed? && reply.result !in {AlreadyCorrect, Skipped, Conflict}
  }

  /** What `act` replied, and the host it left. */
  function ActedAt<H>(cb: Callbacks<H>, mode: Mode, ordered: seq<Phase>, h: H, i: nat): (ActReply, H)
    requires i < |ordered|
  {
    cb.act(ordered[i].id, HostBefore(cb, mode, ordered, h, i))
  }

  /** An act that did not raise and was confirmed: correct, reverified, in the words of the act, on the host it left. */
  lemma {:induction false} ConfirmedReport<H>(cb: Callbacks<H>, mode: Mode, ordered: seq<Phase>, h: H, i: nat)
    requires ActsAt(cb, mode, ordered, h, i)
    requires var (reply, left) := ActedAt(cb, mode, ordered, h, i);
             reply.Acted? && cb.reverify(ordered[i].id, left) == Reverified(true)
    ensures var (reply, left) := ActedAt(cb, mode, ordered, h, i);
            && OutcomeAt(cb, mode, ordered, h, i) ==
               Some(ApplyOutcome(ordered[i].id, AlreadyCorrect, reply.detail, true))
            && HostAfter(cb, mode, ordered, h, i) == left
  {
    TurnReports(cb, mode, ordered, h, i);
  }

  /** Why an act has failed, if it has. */
  function Reason(acted: ActReply, verified: ReverifyReply): Option<string> {
    match (acted, verified)
    case (ActRaised(exc), _) => Some("act/reverify raised: " + exc)
    case (_, ReverifyRaised(exc)) => Some("act/reverify raised: " + exc)
    case (_, Reverified(false)) => Some("reverify did not confirm convergence")
    case (_, Reverified(true)) => None
  }

  /**
   An act that raised or was not confirmed: a failure that gives its reason; the host is the one the act left, or,
   for a phase with a rollback, the one the rollback made of it, with the rollback's own end noted.
  */
  lemma {:induction false} FailedReport<H>(cb: Callbacks<H>, mode: Mode, ordered: seq<Phase>, h: H, i: nat)
    requires ActsAt(cb, mode, ordered, h, i)
    requires var (reply, left) := ActedAt(cb, mode, ordered, h, i);
             Reason(reply, cb.reverify(ordered[i].id, left)).Some?
    ensures var p := ordered[i];
            var (reply, left) := ActedAt(cb, mode, ordered, h, i);
            var reason := Reason(reply, cb.reverify(p.id, left)).value;
            var (undone, restored) := cb.rollback(p.id, left);
            if !p.hasRollback then
              && OutcomeAt(cb, mode, ordered, h, i) == Some(ApplyOutcome(p.id, Fail, reason, false))
              && HostAfter(cb, mode, ordered, h, i) == left
            else
              && HostAfter(cb, mode, ordered, h, i) == restored
              && OutcomeAt(cb, mode, ordered, h, i) == Some(ApplyOutcome(p.id, Fail, reason + " (" +
                 (match undone case RolledBack => "rolled back"
                               case RollbackRaised(exc) => "rollback also failed: " + exc) + ")", false))
  {
    TurnReports(cb, mode, ordered, h, i);
  }

  /** The two names for what becomes of an act agree with the callbacks' own replies. */
  lemma {:induction false} FailsAloneIff<H>(cb: Callbacks<H>, mode: Mode, ordered: seq<Phase>, h: H, i: nat)
    requires Proceeds(cb, mode, ordered, h, i)
    ensures CallsForAction(cb, ordered[i], HostBefore(cb, mode, ordered, h, i)) <==> ActsAt(cb, mode, ordered, h, i)
    ensures ActsAt(cb, mode, ordered, h, i) ==>
              var (reply, left) := ActedAt(cb, mode, ordered, h, i);
              (FailsAlone(cb, ordered[i], HostBefore(cb, mode, ordered, h, i)) <==>
               Reason(reply, cb.reverify(ordered[i].id, left)).Some?)
  {}
}
