/** How long the gate of `start` and `stop` is kept shut by a `destroy`: while its record stands and is fresh. */
module LockWindow {
  import opened Options
  import opened Locks
  import opened LockProtocol

  /** From writing the record until the exit from the context wipes it: the lock is held and its record says so. */
  predicate Holds(pt: Point) { pt.Recorded? || Released(pt) || pt.Teardown? }

  /** Holding the backup lock and its record without the state lock. */
  predicate Released(pt: Point) { pt.LongPhases? || pt.ExitWipe? }

  /** What was read, or can be read, is the record made at `at`; or such a record is stale by now. */
  predicate Guards(read: Option<nat>, at: nat, now: nat) {
    read == Some(Stamp(at)) || IsStale(Some(Stamp(at)), now)
  }

  /** From the opening of the file on. */
  predicate Opened(pt: Point) { (InBackup(pt) && !pt.TryUnlock?) || pt.FirstLock? || pt.SecondLock? || Waits(pt) }

  predicate Waits(pt: Point) { pt.ReadOther? || pt.CompareOther? || pt.Wipe? }

  predicate Compares(pt: Point) { pt.CompareClock? || pt.CompareOther? }

  /** What holds of a holder `q` of the backup lock. */
  predicate HolderFine(s: System, q: Pid)
    requires q in s.procs
  {
    (Opened(s.procs[q]) ==> s.present) && (Holds(s.procs[q]) ==> Guards(s.record, s.procs[q].at, s.now))
  }

  /** What another process knows of a holder `q` without the state lock. */
  predicate OtherFine(s: System, p: Pid, q: Pid)
    requires p in s.procs && q in s.procs
  {
    InState(s.procs[p]) && Released(s.procs[q]) ==>
      && (Compares(s.procs[p]) ==> Guards(s.procs[p].read, s.procs[q].at, s.now))
      && (s.procs[p].Wipe? ==> IsStale(Some(Stamp(s.procs[q].at)), s.now))
  }

  /** Only lifecycle commands and probes: nobody takes the backup lock without the state lock. */
  ghost predicate Disciplined(s: System) { forall p :: p in s.procs ==> !s.procs[p].role.RemoveBackup? }

  ghost predicate Window(s: System) {
    && LocksMatch(s) && AllSensible(s) && Disciplined(s)
    && (forall q :: q in s.procs ==> HolderFine(s, q))
    && (forall p, q :: p in s.procs && q in s.procs ==> OtherFine(s, p, q))
  }

  /** Outside the backup lock only a takeover changes the record, and no step removes the file. */
  lemma RecordOnlyWiped(v: View, pt: Point)
    requires Sensible(pt) && NextMove(v, pt).Move?
    ensures v.present ==> NextMove(v, pt).present
    ensures !InBackup(pt) ==> NextMove(v, pt).record == v.record || (pt.Wipe? && InStateOrFree(pt))
    ensures NextMove(v, pt).to.role == pt.role
  {}

  predicate InStateOrFree(pt: Point) { InState(pt) || pt.role.RemoveBackup? }

  /** What a move makes of the mover's own place. */
  lemma MoverFine(v: View, pt: Point)
    requires Sensible(pt) && NextMove(v, pt).Move? && !pt.role.RemoveBackup?
    requires Opened(pt) ==> v.present
    requires Holds(pt) ==> Guards(v.record, pt.at, v.now)
    ensures var m := NextMove(v, pt);
            && (Opened(m.to) ==> m.present)
            && (Holds(m.to) ==> Guards(m.record, m.to.at, v.now))
            && (Released(m.to) ==> Holds(pt) && m.to.at == pt.at)
            && (Compares(m.to) ==> m.to.read == v.record && (pt.ReadRecord? || pt.ReadOther?))
            && (m.to.Wipe? ==> pt.CompareOther? && IsStale(pt.read, v.now))
  {}

  lemma HoldersStayFine(s: System, p: Pid, q: Pid)
    requires Window(s) && p in s.procs && q in Do(s, Step(p)).procs
    ensures HolderFine(Do(s, Step(p)), q)
  {
    var v, pt := ViewOf(s), s.procs[p];
    var m := NextMove(v, pt);
    assert HolderFine(s, p);
    if m.Move? {
      RecordOnlyWiped(v, pt);
      MoverFine(v, pt);
    }
    if q != p {
      assert HolderFine(s, q) && OtherFine(s, p, q);
    }
  }

  lemma OthersStayFine(s: System, p: Pid, p': Pid, q: Pid)
    requires Window(s) && p in s.procs && p' in Do(s, Step(p)).procs && q in Do(s, Step(p)).procs
    ensures OtherFine(Do(s, Step(p)), p', q)
  {
    var v, pt := ViewOf(s), s.procs[p];
    var m := NextMove(v, pt);
    assert HolderFine(s, p);
    if m.Move? {
      MovesFit(v, pt);
      MoverFine(v, pt);
    }
    if p' in s.procs && q in s.procs {
      assert OtherFine(s, p', q) && HolderFine(s, q);
    }
  }

  predicate IsDisciplined(e: Event) { e.Begin? ==> !e.role.RemoveBackup? }

  lemma StepKeepsWindow(s: System, p: Pid)
    requires Window(s) && p in s.procs
    ensures Window(Do(s, Step(p)))
  {
    var t := Do(s, Step(p));
    StepMatches(s, Step(p));
    forall q | q in t.procs
      ensures HolderFine(t, q) && !t.procs[q].role.RemoveBackup?
    {
      HoldersStayFine(s, p, q);
      if q == p {
        RecordOnlyWiped(ViewOf(s), s.procs[p]);
      }
    }
    forall p', q | p' in t.procs && q in t.procs
      ensures OtherFine(t, p', q)
    {
      OthersStayFine(s, p, p', q);
    }
  }

  lemma EventKeepsWindow(s: System, e: Event)
    requires Window(s) && IsDisciplined(e)
    ensures Window(Do(s, e))
  {
    match e
    case Step(p) =>
      if p in s.procs {
        StepKeepsWindow(s, p);
      }
    case Begin(p, role) => QuietKeepsWindow(s, e);
    case Abort(p) => QuietKeepsWindow(s, e);
    case Crash(p) => QuietKeepsWindow(s, e);
    case Tick(delta) => QuietKeepsWindow(s, e);
  }

  lemma QuietKeepsWindow(s: System, e: Event)
    requires Window(s) && IsDisciplined(e) && !e.Step?
    ensures Window(Do(s, e))
  {
    var t := Do(s, e);
    StepMatches(s, e);
    forall q | q in t.procs
      ensures HolderFine(t, q) && !t.procs[q].role.RemoveBackup?
    {
      QuietHolder(s, e, q);
    }
    forall p, q | p in t.procs && q in t.procs
      ensures OtherFine(t, p, q)
    {
      QuietOther(s, e, p, q);
    }
  }

  lemma QuietHolder(s: System, e: Event, q: Pid)
    requires Window(s) && IsDisciplined(e) && !e.Step? && q in Do(s, e).procs
    ensures HolderFine(Do(s, e), q) && !Do(s, e).procs[q].role.RemoveBackup?
  {
    assert q in s.procs ==> HolderFine(s, q);
  }

  lemma QuietOther(s: System, e: Event, p: Pid, q: Pid)
    requires Window(s) && IsDisciplined(e) && !e.Step? && p in Do(s, e).procs && q in Do(s, e).procs
    ensures OtherFine(Do(s, e), p, q)
  {
    assert p in s.procs && q in s.procs ==> OtherFine(s, p, q);
  }

  lemma {:induction false} AlwaysWindow(s: System, events: seq<Event>)
    requires Window(s) && forall i :: 0 <= i < |events| ==> IsDisciplined(events[i])
    ensures Window(Run(s, events))
    decreases |events|
  {
    if events != [] {
      EventKeepsWindow(s, events[0]);
      AlwaysWindow(Do(s, events[0]), events[1..]);
    }
  }

  /** Its next step takes `p` through the gate of `start` or `stop`. */
  predicate PassesGate(s: System, p: Pid) {
    p in s.procs && NextMove(ViewOf(s), s.procs[p]).Move? && NextMove(ViewOf(s), s.procs[p]).to.Pipeline?
  }

  lemma NotThroughTheGate(s: System, p: Pid, q: Pid)
    requires Window(s) && PassesGate(s, p) && q in s.procs && Holds(s.procs[q])
    ensures IsStale(Some(Stamp(s.procs[q].at)), s.now)
  {
    assert HolderFine(s, q) && OtherFine(s, p, q);
    var pt := s.procs[p];
    assert pt.CheckExists? || pt.CompareClock? || pt.TryUnlock?;
  }

  /**
   Among `start`, `stop`, `destroy` and probes: while a `destroy` holds the backup lock and has not yet wiped its
   record at the exit from its context, nobody passes the gate before that record is stale.
  */
  lemma {:induction false} GateStaysShut(t: nat, events: seq<Event>, p: Pid, q: Pid)
    requires forall i :: 0 <= i < |events| ==> IsDisciplined(events[i])
    requires var s := After(t, events); PassesGate(s, p) && q in s.procs && Holds(s.procs[q])
    ensures IsStale(Some(Stamp(After(t, events).procs[q].at)), After(t, events).now)
  {
    AlwaysWindow(Clean(t), events);
    NotThroughTheGate(After(t, events), p, q);
  }

  /** In figures: never within 59 seconds of the reading that the record was made from. */
  lemma ShutForFiftyNineSeconds(t: nat, events: seq<Event>, p: Pid, q: Pid)
    requires forall i :: 0 <= i < |events| ==> IsDisciplined(events[i])
    requires var s := After(t, events); PassesGate(s, p) && q in s.procs && Holds(s.procs[q])
    ensures After(t, events).now > After(t, events).procs[q].at + 59 * SECOND
  {
    GateStaysShut(t, events, p, q);
    FreshForFiftyNineSeconds(After(t, events).procs[q].at, After(t, events).now);
  }

  // ----- And no longer -----

  lemma {:induction false} RunOneMore(s: System, events: seq<Event>, e: Event)
    ensures Run(s, events + [e]) == Do(Run(s, events), e)
    decreases |events|
  {
    if events == [] {
      assert [] + [e] == [e] && [e][1..] == [];
    } else {
      RunOneMore(Do(s, events[0]), events[1..], e);
      assert (events + [e])[1..] == events[1..] + [e];
    }
  }

  lemma Extend(t: nat, events: seq<Event>, e: Event, s: System) returns (longer: seq<Event>, s': System)
    requires After(t, events) == s
    ensures longer == events + [e] && s' == Do(s, e) && After(t, longer) == s'
  {
    longer, s' := events + [e], Do(s, e);
    RunOneMore(Clean(t), events, e);
  }

  /** A `destroy` alone takes the backup lock. */
  lemma DestroyLocks(t: nat) returns (events: seq<Event>, s: System)
    ensures forall i :: 0 <= i < |events| ==> IsDisciplined(events[i])
    ensures After(t, events) == s == System(t, true, None, Some(0), Some(0), map[0 := WipeOwn(Destroy)])
  {
    s := Clean(t);
    events := [];
    events, s := Extend(t, events, Begin(0, Destroy), s);
    assert s == Clean(t).(procs := map[0 := Outside(Destroy)]);
    events, s := Extend(t, events, Step(0), s);
    assert s == System(t, false, None, Some(0), None, map[0 := CheckExists(Destroy)]);
    events, s := Extend(t, events, Step(0), s);
    assert s == System(t, false, None, Some(0), None, map[0 := OpenFile(Destroy)]);
    events, s := Extend(t, events, Step(0), s);
    assert s == System(t, true, None, Some(0), None, map[0 := FirstLock(Destroy)]);
    events, s := Extend(t, events, Step(0), s);
    assert s == System(t, true, None, Some(0), Some(0), map[0 := WipeOwn(Destroy)]);
  }

  /** And gets to its long phases, with its record in the file. */
  lemma DestroyAlone(t: nat) returns (events: seq<Event>)
    ensures forall i :: 0 <= i < |events| ==> IsDisciplined(events[i])
    ensures After(t, events) == System(t, true, Some(Stamp(t)), None, Some(0), map[0 := LongPhases(Destroy, t)])
  {
    var s;
    events, s := DestroyLocks(t);
    events, s := Extend(t, events, Step(0), s);
    assert s == System(t, true, None, Some(0), Some(0), map[0 := TakeTime(Destroy)]);
    events, s := Extend(t, events, Step(0), s);
    assert s == System(t, true, None, Some(0), Some(0), map[0 := Write(Destroy, t)]);
    events, s := Extend(t, events, Step(0), s);
    assert s == System(t, true, Some(Stamp(t)), Some(0), Some(0), map[0 := Recorded(Destroy, t)]);
    events, s := Extend(t, events, Step(0), s);
    assert s == System(t, true, Some(Stamp(t)), None, Some(0), map[0 := LongPhases(Destroy, t)]);
  }

  /** The state with a `destroy` in its long phases since `t`, and nobody else. */
  function InLongPhases(t: nat, now: nat): System {
    System(now, true, Some(Stamp(t)), None, Some(0), map[0 := LongPhases(Destroy, t)])
  }

  /** From such a state a `start` alone comes to the comparison with the clock. */
  lemma StartCompares(t: nat, before: seq<Event>, now: nat) returns (events: seq<Event>, s: System)
    requires After(t, before) == InLongPhases(t, now)
    requires forall i :: 0 <= i < |before| ==> IsDisciplined(before[i])
    ensures forall i :: 0 <= i < |events| ==> IsDisciplined(events[i])
    ensures After(t, events) == s
    ensures s == System(now, true, Some(Stamp(t)), Some(1), Some(0),
                        map[0 := LongPhases(Destroy, t), 1 := CompareClock(Start, Some(Stamp(t)))])
  {
    s := InLongPhases(t, now);
    events := before;
    events, s := Extend(t, events, Begin(1, Start), s);
    assert s.procs == map[0 := LongPhases(Destroy, t), 1 := Outside(Start)];
    events, s := Extend(t, events, Step(1), s);
    assert s.procs == map[0 := LongPhases(Destroy, t), 1 := CheckExists(Start)];
    events, s := Extend(t, events, Step(1), s);
    assert s.procs == map[0 := LongPhases(Destroy, t), 1 := ReadRecord(Start)];
    events, s := Extend(t, events, Step(1), s);
    assert s.procs == map[0 := LongPhases(Destroy, t), 1 := CompareClock(Start, Some(Stamp(t)))];
  }

  /** A `destroy` recorded at `t`, a clock that says `now`, and a `start` about to compare. */
  lemma StartAtTheGate(t: nat, now: nat) returns (events: seq<Event>)
    requires t <= now && IsStale(Some(Stamp(t)), now)
    ensures forall i :: 0 <= i < |events| ==> IsDisciplined(events[i])
    ensures After(t, events).now == now
    ensures PassesGate(After(t, events), 1) && HeldSince(After(t, events), 0, t)
    ensures After(t, events) == System(now, true, Some(Stamp(t)), Some(1), Some(0),
                                       map[0 := LongPhases(Destroy, t), 1 := CompareClock(Start, Some(Stamp(t)))])
  {
    var before := DestroyAlone(t);
    var s := After(t, before);
    before, s := Extend(t, before, Tick(now - t), s);
    events, s := StartCompares(t, before, now);
  }

  /**
   The window is no wider: at every later reading at which the record is stale, a `start` can pass the gate and run
   its pipeline while the live `destroy` still holds the backup lock.
  */
  lemma {:induction false} GateOpensOnceStale(t: nat, now: nat) returns (events: seq<Event>)
    requires t <= now && IsStale(Some(Stamp(t)), now)
    ensures forall i :: 0 <= i < |events| ==> IsDisciplined(events[i])
    ensures var s := After(t, events);
            s.procs == map[0 := LongPhases(Destroy, t), 1 := Pipeline(Start)] && s.backupLock == Some(0) && s.now == now
  {
    var before := StartAtTheGate(t, now);
    var s;
    events, s := Extend(t, before, Step(1), After(t, before));
  }

  /**
   Both halves, until the record is wiped: some run lets somebody through the gate at `now` against a lock whose
   record was made at `t` exactly when a record made at `t` is stale at `now`.
  */
  lemma {:induction false} PassableIffStale(t: nat, now: nat)
    requires t <= now
    ensures (exists events: seq<Event> :: LetsStartThrough(t, events, now)) <==> IsStale(Some(Stamp(t)), now)
  {
    if IsStale(Some(Stamp(t)), now) {
      var events := StartAtTheGate(t, now);
      assert LetsStartThrough(t, events, now);
    }
    forall events: seq<Event> | LetsStartThrough(t, events, now)
      ensures IsStale(Some(Stamp(t)), now)
    {
      var p, q :| PassesGate(After(t, events), p) && HeldSince(After(t, events), q, t);
      GateStaysShut(t, events, p, q);
    }
  }

  /** After these events it is `now`, somebody's next step is through the gate, and a record made at `t` stands. */
  ghost predicate LetsStartThrough(t: nat, events: seq<Event>, now: nat) {
    && (forall i :: 0 <= i < |events| ==> IsDisciplined(events[i]))
    && After(t, events).now == now
    && exists p, q :: PassesGate(After(t, events), p) && HeldSince(After(t, events), q, t)
  }

  predicate HeldSince(s: System, q: Pid, t: nat) { q in s.procs && Holds(s.procs[q]) && s.procs[q].at == t }

  // ----- Every point at which a `destroy` holds the lock -----

  /** After these events it is `now`, a `destroy` is at `pt`, and somebody's next step is through the gate. */
  ghost predicate PassesAgainst(t: nat, events: seq<Event>, now: nat, pt: Point) {
    && (forall i :: 0 <= i < |events| ==> IsDisciplined(events[i]))
    && After(t, events).now == now
    && exists p, q :: PassesGate(After(t, events), p) && StandsAt(After(t, events), q, pt)
  }

  predicate StandsAt(s: System, q: Pid, pt: Point) { q in s.procs && s.procs[q] == pt }

  /** Whoever passes the gate does so without a `destroy` that has the state lock. */
  lemma PassesOnlyReleased(s: System, p: Pid, q: Pid)
    requires Window(s) && PassesGate(s, p) && q in s.procs && s.procs[q].role.Destroy? && InBackup(s.procs[q])
    ensures s.procs[q].ExitUnlock? || (Released(s.procs[q]) && IsStale(Some(Stamp(s.procs[q].at)), s.now))
  {
    var pt := s.procs[p];
    assert pt.CheckExists? || pt.CompareClock? || pt.TryUnlock?;
    assert InState(pt) && !InState(s.procs[q]);
    if Released(s.procs[q]) {
      NotThroughTheGate(s, p, q);
    }
  }

  /** A `destroy` at the exit from its context: its record is wiped, its lock is not given back yet. */
  lemma DestroyLeaves(t: nat) returns (events: seq<Event>)
    ensures forall i :: 0 <= i < |events| ==> IsDisciplined(events[i])
    ensures After(t, events) == System(t, true, None, None, Some(0), map[0 := ExitUnlock(Destroy)])
  {
    events := DestroyAlone(t);
    var s := After(t, events);
    events, s := Extend(t, events, Abort(0), s);
    assert s == System(t, true, Some(Stamp(t)), None, Some(0), map[0 := ExitWipe(Destroy, t)]);
    events, s := Extend(t, events, Step(0), s);
    assert s == System(t, true, None, None, Some(0), map[0 := ExitUnlock(Destroy)]);
  }

  /** Between the wipe and the unlock the gate is open at any age: the `destroy` has recorded itself just now. */
  lemma {:induction false} GateOpensAtTheExit(t: nat) returns (events: seq<Event>)
    ensures forall i :: 0 <= i < |events| ==> IsDisciplined(events[i])
    ensures var s := After(t, events);
            && s.procs == map[0 := ExitUnlock(Destroy), 1 := CompareClock(Start, None)]
            && s.backupLock == Some(0) && s.now == t && PassesGate(s, 1)
  {
    events := DestroyLeaves(t);
    var s := After(t, events);
    events, s := Extend(t, events, Begin(1, Start), s);
    assert s.procs == map[0 := ExitUnlock(Destroy), 1 := Outside(Start)];
    events, s := Extend(t, events, Step(1), s);
    assert s.procs == map[0 := ExitUnlock(Destroy), 1 := CheckExists(Start)];
    events, s := Extend(t, events, Step(1), s);
    assert s.procs == map[0 := ExitUnlock(Destroy), 1 := ReadRecord(Start)];
    events, s := Extend(t, events, Step(1), s);
    assert s.procs == map[0 := ExitUnlock(Destroy), 1 := CompareClock(Start, None)];
  }

  /** Against a stale record, in the long phases or about to wipe it. */
  lemma PassesReleased(pt: Point, now: nat) returns (events: seq<Event>)
    requires Released(pt) && pt.role.Destroy? && IsStale(Some(Stamp(pt.at)), now)
    ensures PassesAgainst(pt.at, events, now, pt)
  {
    events := StartAtTheGate(pt.at, now);
    if pt.ExitWipe? {
      var s;
      events, s := Extend(pt.at, events, Abort(0), After(pt.at, events));
      assert s.procs == map[0 := pt, 1 := CompareClock(Start, Some(Stamp(pt.at)))];
    }
    assert PassesGate(After(pt.at, events), 1) && StandsAt(After(pt.at, events), 0, pt);
  }

  /**
   The whole answer.  At each point between taking and giving back the backup lock: some run has somebody pass the
   gate at `now` against a `destroy` at that point exactly when it has wiped its record on the way out, or stands
   there without the state lock and its record is stale.
  */
  lemma {:induction false} PassableIff(pt: Point, now: nat)
    requires pt.role.Destroy? && InBackup(pt)
    ensures (exists t: nat, events: seq<Event> :: PassesAgainst(t, events, now, pt)) <==>
            pt.ExitUnlock? || (Released(pt) && IsStale(Some(Stamp(pt.at)), now))
  {
    if pt.ExitUnlock? {
      var events := GateOpensAtTheExit(now);
      assert StandsAt(After(now, events), 0, pt);
      assert PassesAgainst(now, events, now, pt);
    } else if Released(pt) && IsStale(Some(Stamp(pt.at)), now) {
      var events := PassesReleased(pt, now);
    }
    forall t: nat, events: seq<Event> | PassesAgainst(t, events, now, pt)
      ensures pt.ExitUnlock? || (Released(pt) && IsStale(Some(Stamp(pt.at)), now))
    {
      var p, q :| PassesGate(After(t, events), p) && StandsAt(After(t, events), q, pt);
      AlwaysWindow(Clean(t), events);
      PassesOnlyReleased(After(t, events), p, q);
    }
  }

  /** In figures: a run in which a `start` is past the gate 61 seconds after a live `destroy` recorded its time. */
  lemma GateOpensAfterAMinute(t: nat) returns (events: seq<Event>)
    ensures forall i :: 0 <= i < |events| ==> IsDisciplined(events[i])
    ensures var s := After(t, events);
            s.procs == map[0 := LongPhases(Destroy, t), 1 := Pipeline(Start)] && s.backupLock == Some(0) &&
            s.now == t + 61 * SECOND
  {
    StaleAfterSixtyOneSeconds(t, t + 61 * SECOND);
    events := GateOpensOnceStale(t, t + 61 * SECOND);
  }

  /** A backup that takes its lock without the state lock has no such window: it can start in the middle of a gate. */
  lemma {:induction false} RemoveBackupIsNotKeptApart(t: nat) returns (events: seq<Event>)
    ensures var s := After(t, events);
            s.procs == map[0 := Recorded(RemoveBackup, t), 1 := Pipeline(Start)] &&
            s.backupLock == Some(0) && s.now == t
  {
    var s := Clean(t);
    events := [];
    events, s := Extend(t, events, Begin(0, RemoveBackup), s);
    events, s := Extend(t, events, Step(0), s);
    events, s := Extend(t, events, Step(0), s);
    assert s == System(t, true, None, None, None, map[0 := FirstLock(RemoveBackup)]);
    events, s := Extend(t, events, Begin(1, Start), s);
    events, s := Extend(t, events, Step(1), s);
    assert s == System(t, true, None, Some(1), None, map[0 := FirstLock(RemoveBackup), 1 := CheckExists(Start)]);
    events, s := Extend(t, events, Step(1), s);
    events, s := Extend(t, events, Step(1), s);
    assert s == System(t, true, None, Some(1), None, map[0 := FirstLock(RemoveBackup), 1 := CompareClock(Start, None)]);
    events, s := RecordInBetween(t, events, s);
    events, s := Extend(t, events, Step(1), s);
    assert s.procs == map[0 := Recorded(RemoveBackup, t), 1 := Pipeline(Start)];
  }

  lemma RecordInBetween(t: nat, events: seq<Event>, s0: System) returns (longer: seq<Event>, s: System)
    requires After(t, events) == s0
    requires s0 == System(t, true, None, Some(1), None,
                          map[0 := FirstLock(RemoveBackup), 1 := CompareClock(Start, None)])
    ensures After(t, longer) == s && s == System(t, true, Some(Stamp(t)), Some(1), Some(0),
                                                 map[0 := Recorded(RemoveBackup, t), 1 := CompareClock(Start, None)])
  {
    var other := CompareClock(Start, None);
    longer, s := Extend(t, events, Step(0), s0);
    ZeroMoved(FirstLock(RemoveBackup), WipeOwn(RemoveBackup), other);
    assert s == System(t, true, None, Some(1), Some(0), map[0 := WipeOwn(RemoveBackup), 1 := other]);
    longer, s := Extend(t, longer, Step(0), s);
    ZeroMoved(WipeOwn(RemoveBackup), TakeTime(RemoveBackup), other);
    assert s == System(t, true, None, Some(1), Some(0), map[0 := TakeTime(RemoveBackup), 1 := other]);
    longer, s := WrittenInBetween(t, longer, s, other);
  }

  lemma WrittenInBetween(t: nat, events: seq<Event>, s0: System, other: Point) returns (longer: seq<Event>, s: System)
    requires After(t, events) == s0
    requires s0 == System(t, true, None, Some(1), Some(0), map[0 := TakeTime(RemoveBackup), 1 := other])
    ensures After(t, longer) == s
    ensures s == System(t, true, Some(Stamp(t)), Some(1), Some(0), map[0 := Recorded(RemoveBackup, t), 1 := other])
  {
    longer, s := Extend(t, events, Step(0), s0);
    ZeroMoved(TakeTime(RemoveBackup), Write(RemoveBackup, t), other);
    assert s == System(t, true, None, Some(1), Some(0), map[0 := Write(RemoveBackup, t), 1 := other]);
    longer, s := Extend(t, longer, Step(0), s);
    ZeroMoved(Write(RemoveBackup, t), Recorded(RemoveBackup, t), other);
  }

  lemma ZeroMoved(a: Point, b: Point, other: Point)
    ensures map[0 as Pid := a, 1 := other][0 := b] == map[0 as Pid := b, 1 := other]
  {}

  // ----- The gate by itself -----

  /** Some steps of `p` alone lead from one state to another. */
  ghost predicate Alone(s: System, p: Pid, n: nat, t: System)
    decreases n
  {
    if n == 0 then s == t else Alone(Do(s, Step(p)), p, n - 1, t)
  }

  /**
   Uninterrupted, the gate of a `start` lets it through exactly when the lock does not look held, and leaves the
   lock and the record as they were: what `BackupLock.IsBackupLockHeld` states of one call.
  */
  lemma {:induction false} GateAlone(s: System, p: Pid) returns (n: nat, t: System)
    requires LocksMatch(s) && AllSensible(s) && p in s.procs && s.procs[p] == CheckExists(Start)
    ensures Alone(s, p, n, t) && t.backupLock == s.backupLock && t.record == s.record && t.stateLock == Some(p)
    ensures p in t.procs
    ensures t.procs[p] ==
            if s.present && !IsStale(s.record, s.now) && s.backupLock.Some? then Refusing(Start) else Pipeline(Start)
  {
    assert s.backupLock != Some(p);
    if !s.present {
      n, t := 1, Do(s, Step(p));
      assert Alone(t, p, 0, t);
    } else {
      n, t := PresentAlone(s, p);
    }
  }

  /** With a record to read. */
  lemma PresentAlone(s: System, p: Pid) returns (n: nat, t: System)
    requires p in s.procs && s.procs[p] == CheckExists(Start) && s.present && s.backupLock != Some(p)
    ensures Alone(s, p, n, t) && t.backupLock == s.backupLock && t.record == s.record && t.stateLock == s.stateLock
    ensures p in t.procs
    ensures t.procs[p] == if !IsStale(s.record, s.now) && s.backupLock.Some? then Refusing(Start) else Pipeline(Start)
  {
    ComesToCompare(s, p);
    var s3 := Do(Do(Do(s, Step(p)), Step(p)), Step(p));
    if IsStale(s.record, s.now) {
      n, t := 0, s3;
    } else {
      n, t := TryAlone(s3, p);
    }
    AloneAfterThree(s, p, n, t);
    n := n + 3;
  }

  lemma ComesToCompare(s: System, p: Pid)
    requires p in s.procs && s.procs[p] == CheckExists(Start) && s.present
    ensures Do(Do(s, Step(p)), Step(p)) == s.(procs := s.procs[p := CompareClock(Start, s.record)])
  {
    assert Do(s, Step(p)) == s.(procs := s.procs[p := ReadRecord(Start)]);
    assert s.procs[p := ReadRecord(Start)][p := CompareClock(Start, s.record)] ==
           s.procs[p := CompareClock(Start, s.record)];
  }

  lemma AloneAfterThree(s: System, p: Pid, n: nat, t: System)
    requires Alone(Do(Do(Do(s, Step(p)), Step(p)), Step(p)), p, n, t)
    ensures Alone(s, p, n + 3, t)
  {
    var s1 := Do(s, Step(p));
    var s2 := Do(s1, Step(p));
    assert Alone(s2, p, n + 1, t);
    assert Alone(s1, p, n + 2, t);
  }

  /** From the attempt on the lock. */
  lemma TryAlone(s: System, p: Pid) returns (n: nat, t: System)
    requires p in s.procs && s.procs[p] == TryLock(Start) && s.backupLock != Some(p)
    ensures Alone(s, p, n, t) && t.backupLock == s.backupLock && t.record == s.record && t.stateLock == s.stateLock
    ensures p in t.procs && t.procs[p] == if s.backupLock.Some? then Refusing(Start) else Pipeline(Start)
  {
    var s1 := Do(s, Step(p));
    if s.backupLock.Some? {
      n, t := 1, s1;
      assert Alone(s1, p, 0, t);
    } else {
      n, t := 2, Do(s1, Step(p));
      assert Alone(t, p, 0, t) && Alone(s1, p, 1, t);
    }
  }
}
