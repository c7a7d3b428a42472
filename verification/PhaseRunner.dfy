/**
 The two passes of the setup ceremony.  The plan pass probes every phase; the apply pass probes,
 acts, re-verifies and rolls back, and blocks the dependents of whatever failed.

 The host is an arbitrary state of type `H` threaded through the callbacks.  A probe and a
 re-verification only read it; an act and a rollback may change it.  A raised exception is a reply.
*/
module PhaseRunner {
  import opened Options
  import opened PhaseOrder

  datatype PhaseResult = AlreadyCorrect | Missing | Drift | Conflict | Fail | BlockedBy | Skipped

  datatype ProbeReply = ProbeRaised(exc: string) | Probed(result: PhaseResult, detail: string)
  datatype ActReply = ActRaised(exc: string) | Acted(detail: string)
  datatype ReverifyReply = ReverifyRaised(exc: string) | Reverified(converged: bool)
  datatype RollbackReply = RollbackRaised(exc: string) | RolledBack

  datatype Callbacks<!H> = Callbacks(
    probe: (string, H) -> ProbeReply,
    act: (string, H) -> (ActReply, H),
    reverify: (string, H) -> ReverifyReply,
    rollback: (string, H) -> (RollbackReply, H))

  /** What the runner called, in order. */
  datatype Call = ProbeCall(id: string) | ActCall(id: string) | ReverifyCall(id: string) | RollbackCall(id: string)

  datatype PlanOutcome = PlanOutcome(phaseId: string, result: PhaseResult, detail: string)
  datatype ApplyOutcome = ApplyOutcome(phaseId: string, result: PhaseResult, detail: string, reverified: bool)

  datatype PassResult<+O> = Malformed(error: OrderResult) | Completed(outcomes: seq<O>)

  function ModeValue(m: Mode): string {
    match m
    case SeparateUser => "separate-user"
    case OperatorRootless => "operator-rootless"
  }

  predicate NonMutating(r: PhaseResult) {
    r.AlreadyCorrect? || r.Skipped?
  }

  /** The results that block the dependents of a phase. */
  predicate Blocking(r: PhaseResult) {
    r.Fail? || r.Conflict? || r.BlockedBy?
  }

  // ----- Specification: one phase's turn -----

  datatype Turn<H> = Turn(outcome: ApplyOutcome, host: H, calls: seq<Call>)

  /** The first dependency, in declaration order, that has failed. */
  function Blocker(deps: seq<string>, failed: set<string>): (b: Option<string>)
    ensures b.None? <==> forall d :: d in deps ==> d !in failed
    ensures b.Some? ==> b.value in deps && b.value in failed
  {
    if deps == [] then None
    else if deps[0] in failed then Some(deps[0])
    else Blocker(deps[1..], failed)
  }

  function FailTurn<H>(cb: Callbacks<H>, p: Phase, h: H, detail: string): Turn<H> {
    if !p.hasRollback then Turn(ApplyOutcome(p.id, Fail, detail, false), h, [])
    else
      var (reply, h') := cb.rollback(p.id, h);
      var note := match reply
        case RolledBack => "rolled back"
        case RollbackRaised(exc) => "rollback also failed: " + exc;
      Turn(ApplyOutcome(p.id, Fail, detail + " (" + note + ")", false), h', [RollbackCall(p.id)])
  }

  function ActTurn<H>(cb: Callbacks<H>, p: Phase, h: H): Turn<H> {
    var (reply, h') := cb.act(p.id, h);
    match reply
    case ActRaised(exc) =>
      var t := FailTurn(cb, p, h', "act/reverify raised: " + exc);
      t.(calls := [ActCall(p.id)] + t.calls)
    case Acted(detail) =>
      match cb.reverify(p.id, h')
      case ReverifyRaised(exc) =>
        var t := FailTurn(cb, p, h', "act/reverify raised: " + exc);
        t.(calls := [ActCall(p.id), ReverifyCall(p.id)] + t.calls)
      case Reverified(true) =>
        Turn(ApplyOutcome(p.id, AlreadyCorrect, detail, true), h', [ActCall(p.id), ReverifyCall(p.id)])
      case Reverified(false) =>
        var t := FailTurn(cb, p, h', "reverify did not confirm convergence");
        t.(calls := [ActCall(p.id), ReverifyCall(p.id)] + t.calls)
  }

  /** The part of a turn that follows the mode gate and the dependency gate. */
  function ProbeTurn<H>(cb: Callbacks<H>, p: Phase, h: H): Turn<H> {
    match cb.probe(p.id, h)
    case ProbeRaised(exc) => Turn(ApplyOutcome(p.id, Fail, "probe raised: " + exc, false), h, [ProbeCall(p.id)])
    case Probed(result, detail) =>
      if NonMutating(result) || result.Conflict? then
        Turn(ApplyOutcome(p.id, result, detail, false), h, [ProbeCall(p.id)])
      else
        var t := ActTurn(cb, p, h);
        t.(calls := [ProbeCall(p.id)] + t.calls)
  }

  function BlockedDetail(blocker: string): string { "blocked by failed phase '" + blocker + "'" }

  /** The turn of phase `p` when the phases in `failed` have failed and the host is `h`. */
  function PhaseTurn<H>(cb: Callbacks<H>, mode: Mode, failed: set<string>, h: H, p: Phase): Turn<H> {
    if mode !in p.appliesIn then
      Turn(ApplyOutcome(p.id, Skipped, "skipped (" + ModeValue(mode) + ")", false), h, [])
    else if Blocker(p.dependsOn, failed).Some? then
      Turn(ApplyOutcome(p.id, BlockedBy, BlockedDetail(Blocker(p.dependsOn, failed).value), false), h, [])
    else
      ProbeTurn(cb, p, h)
  }

  // ----- Specification: the whole pass -----

  datatype Log<H> = Log(host: H, outcomes: seq<ApplyOutcome>, calls: seq<Call>)

  function FailedIds(outcomes: seq<ApplyOutcome>): set<string> {
    set o | o in outcomes && Blocking(o.result) :: o.phaseId
  }

  function ApplyAll<H>(cb: Callbacks<H>, mode: Mode, ordered: seq<Phase>, h: H): Log<H> {
    if ordered == [] then Log(h, [], [])
    else
      var before := ApplyAll(cb, mode, ordered[..|ordered| - 1], h);
      var t := PhaseTurn(cb, mode, FailedIds(before.outcomes), before.host, ordered[|ordered| - 1]);
      Log(t.host, before.outcomes + [t.outcome], before.calls + t.calls)
  }

  function PlanOne<H>(cb: Callbacks<H>, mode: Mode, h: H, p: Phase): PlanOutcome {
    if mode !in p.appliesIn then PlanOutcome(p.id, Skipped, "skipped (" + ModeValue(mode) + ")")
    else
      match cb.probe(p.id, h)
      case ProbeRaised(exc) => PlanOutcome(p.id, Fail, "probe raised: " + exc)
      case Probed(result, detail) => PlanOutcome(p.id, result, detail)
  }

  function PlanAll<H>(cb: Callbacks<H>, mode: Mode, ordered: seq<Phase>, h: H): seq<PlanOutcome> {
    seq(|ordered|, i requires 0 <= i < |ordered| => PlanOne(cb, mode, h, ordered[i]))
  }

  /** A phase of the mode is probed, another is not. */
  function PlanCalls(mode: Mode, ordered: seq<Phase>): seq<Call> {
    if ordered == [] then []
    else
      var p := ordered[|ordered| - 1];
      PlanCalls(mode, ordered[..|ordered| - 1]) + if mode in p.appliesIn then [ProbeCall(p.id)] else []
  }

  lemma PlanExtends<H>(cb: Callbacks<H>, mode: Mode, ordered: seq<Phase>, h: H, i: nat)
    requires i < |ordered|
    ensures PlanAll(cb, mode, ordered[..i + 1], h) ==
            PlanAll(cb, mode, ordered[..i], h) + [PlanOne(cb, mode, h, ordered[i])]
    ensures PlanCalls(mode, ordered[..i + 1]) ==
            PlanCalls(mode, ordered[..i]) + if mode in ordered[i].appliesIn then [ProbeCall(ordered[i].id)] else []
  {
    assert ordered[..i + 1] == ordered[..i] + [ordered[i]];
    assert ordered[..i + 1][..i] == ordered[..i];
  }

  /** `now` is where the pass stands after the phases `done`, begun on host `h` with call log `c`. */
  ghost predicate Progress<H>(
    cb: Callbacks<H>, mode: Mode, done: seq<Phase>, h: H, now: Log<H>, c: seq<Call>)
  {
    var log := ApplyAll(cb, mode, done, h);
    now == Log(log.host, log.outcomes, c + log.calls)
  }

  lemma TurnExtendsRun<H>(
    cb: Callbacks<H>, mode: Mode, ordered: seq<Phase>, h: H, i: nat, now: Log<H>, c: seq<Call>)
    requires i < |ordered| && Progress(cb, mode, ordered[..i], h, now, c)
    ensures var t := PhaseTurn(cb, mode, FailedIds(now.outcomes), now.host, ordered[i]);
            Progress(cb, mode, ordered[..i + 1], h, Log(t.host, now.outcomes + [t.outcome], now.calls + t.calls), c)
  {
    assert ordered[..i + 1][..i] == ordered[..i];
    var before := ApplyAll(cb, mode, ordered[..i], h);
    var t := PhaseTurn(cb, mode, FailedIds(now.outcomes), now.host, ordered[i]);
    assert c + before.calls + t.calls == c + (before.calls + t.calls);
  }

  // ----- The runner -----

  class Runner<H> {
    const cb: Callbacks<H>
    var host: H
    var calls: seq<Call>

    constructor (cb: Callbacks<H>, host: H)
      ensures this.cb == cb && this.host == host && calls == []
    {
      this.cb := cb;
      this.host := host;
      calls := [];
    }

    /** Probes only: the host is not in the frame. */
    method RunPlanPass(phases: seq<Phase>, mode: Mode, allowExternalDeps: bool)
      returns (ghost ordered: seq<Phase>, r: PassResult<PlanOutcome>)
      modifies this`calls
      ensures r.Completed? ==>
                LeastTopological(PhaseGraph(phases), Ids(ordered)) && AreEntries(ordered, ById(phases)) &&
                r.outcomes == PlanAll(cb, mode, ordered, host) && calls == old(calls) + PlanCalls(mode, ordered)
      ensures r.Malformed? <==>
                (!allowExternalDeps && ListsUnknown(phases)) || !PhaseGraph(phases).Acyclic()
      ensures r.Malformed? ==> calls == old(calls)
    {
      var order := OrderPhases(phases, allowExternalDeps);
      ordered := [];
      if !order.Ordered? {
        return [], Malformed(order);
      }
      ordered := order.phases;
      var outcomes := ProbeInOrder(order.phases, mode);
      r := Completed(outcomes);
    }

    /** The loop of the plan pass over the phases already put in order. */
    method ProbeInOrder(ordered: seq<Phase>, mode: Mode) returns (outcomes: seq<PlanOutcome>)
      modifies this`calls
      ensures outcomes == PlanAll(cb, mode, ordered, host) && calls == old(calls) + PlanCalls(mode, ordered)
    {
      outcomes := [];
      for i := 0 to |ordered|
        invariant outcomes == PlanAll(cb, mode, ordered[..i], host)
        invariant calls == old(calls) + PlanCalls(mode, ordered[..i])
      {
        var phase := ordered[i];
        PlanExtends(cb, mode, ordered, host, i);
        if mode !in phase.appliesIn {
          outcomes := outcomes + [PlanOutcome(phase.id, Skipped, "skipped (" + ModeValue(mode) + ")")];
        } else {
          var reply := cb.probe(phase.id, host);
          calls := calls + [ProbeCall(phase.id)];
          match reply
          case ProbeRaised(exc) =>
            outcomes := outcomes + [PlanOutcome(phase.id, Fail, "probe raised: " + exc)];
          case Probed(result, detail) =>
            outcomes := outcomes + [PlanOutcome(phase.id, result, detail)];
        }
      }
      assert ordered[..|ordered|] == ordered;
    }

    method RunApplyPass(phases: seq<Phase>, mode: Mode, allowExternalDeps: bool)
      returns (ghost ordered: seq<Phase>, r: PassResult<ApplyOutcome>)
      modifies this
      ensures r.Completed? ==>
                LeastTopological(PhaseGraph(phases), Ids(ordered)) && AreEntries(ordered, ById(phases)) &&
                var log := ApplyAll(cb, mode, ordered, old(host));
                r.outcomes == log.outcomes && host == log.host && calls == old(calls) + log.calls
      ensures r.Malformed? <==>
                (!allowExternalDeps && ListsUnknown(phases)) || !PhaseGraph(phases).Acyclic()
      ensures r.Malformed? ==> host == old(host) && calls == old(calls)
    {
      var order := OrderPhases(phases, allowExternalDeps);
      ordered := [];
      if !order.Ordered? {
        return [], Malformed(order);
      }
      ordered := order.phases;
      var outcomes := ApplyInOrder(order.phases, mode);
      r := Completed(outcomes);
    }

    /** The loop of the apply pass over the phases already put in order. */
    method ApplyInOrder(ordered: seq<Phase>, mode: Mode) returns (outcomes: seq<ApplyOutcome>)
      modifies this
      ensures var log := ApplyAll(cb, mode, ordered, old(host));
              outcomes == log.outcomes && host == log.host && calls == old(calls) + log.calls
    {
      outcomes := [];
      var failedIds: set<string> := {};
      for i := 0 to |ordered|
        invariant Progress(cb, mode, ordered[..i], old(host), Log(host, outcomes, calls), old(calls))
        invariant failedIds == FailedIds(outcomes)
      {
        ghost var before := Log(host, outcomes, calls);
        var outcome;
        outcome, failedIds := TakeTurn(ordered[i], mode, failedIds);
        AppendedFailure(outcomes, outcome);
        outcomes := outcomes + [outcome];
        TurnExtendsRun(cb, mode, ordered, old(host), i, before, old(calls));
      }
      assert ordered[..|ordered|] == ordered;
    }

    /** One iteration of that loop. */
    method TakeTurn(phase: Phase, mode: Mode, failedIds: set<string>)
      returns (outcome: ApplyOutcome, failedIds': set<string>)
      modifies this
      ensures var t := PhaseTurn(cb, mode, failedIds, old(host), phase);
              outcome == t.outcome && host == t.host && calls == old(calls) + t.calls
      ensures failedIds' == if Blocking(outcome.result) then failedIds + {outcome.phaseId} else failedIds
    {
      failedIds' := failedIds;
      if mode !in phase.appliesIn {
        return ApplyOutcome(phase.id, Skipped, "skipped (" + ModeValue(mode) + ")", false), failedIds;
      }
      var blocker := Blocker(phase.dependsOn, failedIds);
      if blocker.Some? {
        failedIds' := failedIds + {phase.id};
        outcome := ApplyOutcome(phase.id, BlockedBy, BlockedDetail(blocker.value), false);
        return;
      }
      outcome := ProbeAndApply(phase);
      if outcome.result.Fail? || outcome.result.Conflict? {
        failedIds' := failedIds + {phase.id};
      }
    }

    method ProbeAndApply(phase: Phase) returns (outcome: ApplyOutcome)
      modifies this
      ensures var t := ProbeTurn(cb, phase, old(host));
              outcome == t.outcome && host == t.host && calls == old(calls) + t.calls
      ensures outcome.phaseId == phase.id && !outcome.result.BlockedBy?
    {
      var reply := cb.probe(phase.id, host);
      calls := calls + [ProbeCall(phase.id)];
      match reply
      case ProbeRaised(exc) =>
        outcome := ApplyOutcome(phase.id, Fail, "probe raised: " + exc, false);
      case Probed(result, detail) =>
        if NonMutating(result) || result.Conflict? {
          outcome := ApplyOutcome(phase.id, result, detail, false);
        } else {
          outcome := ApplyOne(phase);
        }
    }

    method ApplyOne(phase: Phase) returns (outcome: ApplyOutcome)
      modifies this
      ensures var t := ActTurn(cb, phase, old(host));
              outcome == t.outcome && host == t.host && calls == old(calls) + t.calls
    {
      var (acted, h) := cb.act(phase.id, host);
      host := h;
      calls := calls + [ActCall(phase.id)];
      match acted
      case ActRaised(exc) =>
        outcome := Failed(phase, "act/reverify raised: " + exc);
      case Acted(detail) =>
        var reply := cb.reverify(phase.id, host);
        calls := calls + [ReverifyCall(phase.id)];
        match reply
        case ReverifyRaised(exc) =>
          outcome := Failed(phase, "act/reverify raised: " + exc);
        case Reverified(converged) =>
          if converged {
            outcome := ApplyOutcome(phase.id, AlreadyCorrect, detail, true);
          } else {
            outcome := Failed(phase, "reverify did not confirm convergence");
          }
    }

    method Failed(phase: Phase, detail: string) returns (outcome: ApplyOutcome)
      modifies this
      ensures var t := FailTurn(cb, phase, old(host), detail);
              outcome == t.outcome && host == t.host && calls == old(calls) + t.calls
    {
      if !phase.hasRollback {
        return ApplyOutcome(phase.id, Fail, detail, false);
      }
      var (reply, h) := cb.rollback(phase.id, host);
      host := h;
      calls := calls + [RollbackCall(phase.id)];
      var note := match reply
        case RolledBack => "rolled back"
        case RollbackRaised(exc) => "rollback also failed: " + exc;
      outcome := ApplyOutcome(phase.id, Fail, detail + " (" + note + ")", false);
    }
  }

  lemma AppendedFailure(outcomes: seq<ApplyOutcome>, o: ApplyOutcome)
    ensures FailedIds(outcomes + [o]) ==
            if Blocking(o.result) then FailedIds(outcomes) + {o.phaseId} else FailedIds(outcomes)
  {
    assert forall x :: x in outcomes + [o] <==> x in outcomes || x == o;
  }
}
