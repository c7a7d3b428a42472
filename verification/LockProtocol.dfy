/**
 The commands of one instance as interleaved steps: every lock, unlock, read, write and truncation is a step of
 its own, the clock advances at will, and a process may crash anywhere.
*/
module LockProtocol {
  import opened Options
  import opened Locks

  /** `Probe` only asks whether the backup lock is held; `RemoveBackup` takes it without the state lock. */
  datatype Role = Start | Stop | Destroy | Probe | RemoveBackup

  datatype Point =
    | Outside(role: Role)
      // is_backup_lock_held
    | CheckExists(role: Role)
    | ReadRecord(role: Role)
    | CompareClock(role: Role, read: Option<nat>)
    | TryLock(role: Role)
    | TryUnlock(role: Role)
    | Refusing(role: Role)
      // start and stop past the gate
    | Pipeline(role: Role)
      // acquire_backup_lock
    | OpenFile(role: Role)
    | FirstLock(role: Role)
    | ReadOther(role: Role)
    | CompareOther(role: Role, read: Option<nat>)
    | Wipe(role: Role)
    | SecondLock(role: Role)
    | WipeOwn(role: Role)
    | TakeTime(role: Role)
    | Write(role: Role, at: nat)
      // its body: the gate's state lock is given back, then the long phases, then the teardown under the state lock
    | Recorded(role: Role, at: nat)
    | LongPhases(role: Role, at: nat)
    | Teardown(role: Role, at: nat)
      // its exit
    | ExitWipe(role: Role, at: nat)
    | ExitUnlock(role: Role)

  datatype System = System(
    now: nat, present: bool, record: Option<nat>, stateLock: Option<Pid>, backupLock: Option<Pid>,
    procs: map<Pid, Point>)

  predicate TakesStateLock(role: Role) { role.Start? || role.Stop? || role.Destroy? }

  /** The points between taking the state lock and giving it back. */
  predicate InState(pt: Point) {
    TakesStateLock(pt.role) && !pt.Outside? && !pt.LongPhases? && !pt.ExitWipe? && !pt.ExitUnlock?
  }

  /** The points between taking the backup lock and giving it back. */
  predicate InBackup(pt: Point) {
    pt.TryUnlock? || pt.WipeOwn? || pt.TakeTime? || pt.Write? || pt.Recorded? || pt.LongPhases? || pt.Teardown? ||
    pt.ExitWipe? || pt.ExitUnlock?
  }

  /** What a process can see when it makes a step. */
  datatype View = View(now: nat, present: bool, record: Option<nat>, stateFree: bool, backupFree: bool)

  datatype Grip = Keep | Take | Give

  /** A step: where it leads, what it does to the two locks, and the file it leaves behind. */
  datatype Move = Leave | Move(to: Point, state: Grip, backup: Grip, present: bool, record: Option<nat>)

  function Go(v: View, to: Point): Move { Move(to, Keep, Keep, v.present, v.record) }

  /** The gate says that no backup is in flight. */
  function Passed(v: View, role: Role, backup: Grip): Move {
    match role
    case Start => Move(Pipeline(role), Keep, backup, v.present, v.record)
    case Stop => Move(Pipeline(role), Keep, backup, v.present, v.record)
    case Destroy => Move(OpenFile(role), Keep, backup, v.present, v.record)
    case Probe => Leave
    case RemoveBackup => Leave
  }

  /** The next step of a process at `pt`. */
  function NextMove(v: View, pt: Point): Move {
    match pt
    case Outside(role) =>
      if role == RemoveBackup then Go(v, OpenFile(role))
      else if role == Probe then Go(v, CheckExists(role))
      else if v.stateFree then Go(v, CheckExists(role)).(state := Take)
      else Leave
    case CheckExists(role) => if v.present then Go(v, ReadRecord(role)) else Passed(v, role, Keep)
    case ReadRecord(role) => Go(v, CompareClock(role, v.record))
    case CompareClock(role, read) => if IsStale(read, v.now) then Passed(v, role, Keep) else Go(v, TryLock(role))
    case TryLock(role) => if v.backupFree then Go(v, TryUnlock(role)).(backup := Take) else Go(v, Refusing(role))
    case TryUnlock(role) => Passed(v, role, Give)
    case Refusing(_) => Leave
    case Pipeline(_) => Leave
    case OpenFile(role) => Go(v, FirstLock(role)).(present := true)
    case FirstLock(role) => if v.backupFree then Go(v, WipeOwn(role)).(backup := Take) else Go(v, ReadOther(role))
    case ReadOther(role) => Go(v, CompareOther(role, v.record))
    case CompareOther(role, read) => if IsStale(read, v.now) then Go(v, Wipe(role)) else Leave
    case Wipe(role) => Go(v, SecondLock(role)).(record := None)
    case SecondLock(role) => if v.backupFree then Go(v, WipeOwn(role)).(backup := Take) else Leave
    case WipeOwn(role) => Go(v, TakeTime(role)).(record := None)
    case TakeTime(role) => Go(v, Write(role, v.now))
    case Write(role, at) => Go(v, Recorded(role, at)).(record := Some(Stamp(at)))
    case Recorded(role, at) => Go(v, LongPhases(role, at)).(state := if role.Destroy? then Give else Keep)
    case LongPhases(role, at) =>
      if role == Destroy && v.stateFree then Go(v, Teardown(role, at)).(state := Take) else Go(v, ExitWipe(role, at))
    case Teardown(role, at) => Go(v, ExitWipe(role, at)).(state := Give)
    case ExitWipe(role, _) => Go(v, ExitUnlock(role)).(record := None)
    case ExitUnlock(_) => Leave
  }

  function ViewOf(s: System): View { View(s.now, s.present, s.record, s.stateLock.None?, s.backupLock.None?) }

  function Gripped(holder: Option<Pid>, p: Pid, g: Grip): Option<Pid> {
    match g
    case Keep => holder
    case Take => Some(p)
    case Give => Without(holder, p)
  }

  function Without(holder: Option<Pid>, p: Pid): Option<Pid> { if holder == Some(p) then None else holder }

  /** The end of a process, wanted or not: the kernel gives back what it holds. */
  function Gone(s: System, p: Pid): System {
    s.(stateLock := Without(s.stateLock, p), backupLock := Without(s.backupLock, p), procs := s.procs - {p})
  }

  function Perform(s: System, p: Pid, m: Move): System {
    match m
    case Leave => Gone(s, p)
    case Move(to, state, backup, present, record) =>
      System(s.now, present, record, Gripped(s.stateLock, p, state), Gripped(s.backupLock, p, backup), s.procs[p := to])
  }

  function Aborted(v: View, pt: Point): Move
    requires pt.LongPhases?
  {
    Go(v, ExitWipe(pt.role, pt.at))
  }

  /** `Abort` is an error inside the long phases, which leaves through the context's exit. */
  datatype Event = Begin(p: Pid, role: Role) | Step(p: Pid) | Abort(p: Pid) | Crash(p: Pid) | Tick(delta: nat)

  function Do(s: System, e: Event): System {
    match e
    case Begin(p, role) => if p in s.procs then s else s.(procs := s.procs[p := Outside(role)])
    case Step(p) => if p in s.procs then Perform(s, p, NextMove(ViewOf(s), s.procs[p])) else s
    case Abort(p) =>
      if p in s.procs && s.procs[p].LongPhases? then Perform(s, p, Aborted(ViewOf(s), s.procs[p])) else s
    case Crash(p) => if p in s.procs then Gone(s, p) else s
    case Tick(delta) => s.(now := s.now + delta)
  }

  function Run(s: System, events: seq<Event>): System
    decreases |events|
  {
    if events == [] then s else Run(Do(s, events[0]), events[1..])
  }

  /** No process yet, no lock file. */
  function Clean(t: nat): System { System(t, false, None, None, None, map[]) }

  /** The state after a sequence of events on a clean host whose clock starts at `t`. */
  function After(t: nat, events: seq<Event>): System { Run(Clean(t), events) }

  // ----- The locks protect what they should -----

  /** Who is between taking and giving back a lock is its holder, and nobody else holds it. */
  ghost predicate LocksMatch(s: System) {
    && (forall p :: p in s.procs ==> (InState(s.procs[p]) <==> s.stateLock == Some(p)))
    && (forall p :: p in s.procs ==> (InBackup(s.procs[p]) <==> s.backupLock == Some(p)))
    && (s.stateLock.Some? ==> s.stateLock.value in s.procs)
    && (s.backupLock.Some? ==> s.backupLock.value in s.procs)
  }

  /** The points that a role can come to. */
  predicate Sensible(pt: Point) {
    && (pt.Pipeline? ==> pt.role.Start? || pt.role.Stop?)
    && (pt.Teardown? ==> pt.role.Destroy?)
    && (pt.OpenFile? || pt.FirstLock? || pt.ReadOther? || pt.CompareOther? || pt.Wipe? || pt.SecondLock? ||
        pt.WipeOwn? || pt.TakeTime? || pt.Write? || pt.Recorded? || pt.LongPhases? ||
        pt.Teardown? || pt.ExitWipe? || pt.ExitUnlock? ==>
          pt.role.Destroy? || pt.role.RemoveBackup?)
  }

  ghost predicate AllSensible(s: System) { forall p :: p in s.procs ==> Sensible(s.procs[p]) }

  /** A move takes a lock only when it is free and is then inside it, and gives back only what it is inside of. */
  predicate Fits(free: bool, g: Grip, before: bool, after: bool) {
    match g
    case Keep => before == after
    case Take => free && !before && after
    case Give => before && !after
  }

  lemma MovesFit(v: View, pt: Point)
    requires Sensible(pt) && NextMove(v, pt).Move?
    ensures var m := NextMove(v, pt);
            && Sensible(m.to)
            && Fits(v.stateFree, m.state, InState(pt), InState(m.to))
            && Fits(v.backupFree, m.backup, InBackup(pt), InBackup(m.to))
  {
    MovesStaySensible(v, pt);
    MovesFitState(v, pt);
    MovesFitBackup(v, pt);
  }

  lemma MovesStaySensible(v: View, pt: Point)
    requires Sensible(pt) && NextMove(v, pt).Move?
    ensures Sensible(NextMove(v, pt).to)
  {}

  lemma MovesFitState(v: View, pt: Point)
    requires Sensible(pt) && NextMove(v, pt).Move?
    ensures Fits(v.stateFree, NextMove(v, pt).state, InState(pt), InState(NextMove(v, pt).to))
  {}

  lemma MovesFitBackup(v: View, pt: Point)
    requires Sensible(pt) && NextMove(v, pt).Move?
    ensures Fits(v.backupFree, NextMove(v, pt).backup, InBackup(pt), InBackup(NextMove(v, pt).to))
  {}

  lemma PerformMatches(s: System, p: Pid, m: Move)
    requires LocksMatch(s) && AllSensible(s) && p in s.procs
    requires m.Move? ==>
               && Sensible(m.to)
               && Fits(s.stateLock.None?, m.state, InState(s.procs[p]), InState(m.to))
               && Fits(s.backupLock.None?, m.backup, InBackup(s.procs[p]), InBackup(m.to))
    ensures LocksMatch(Perform(s, p, m)) && AllSensible(Perform(s, p, m))
  {}

  lemma StepMatches(s: System, e: Event)
    requires LocksMatch(s) && AllSensible(s)
    ensures LocksMatch(Do(s, e)) && AllSensible(Do(s, e))
  {
    match e
    case Begin(p, role) =>
    case Step(p) =>
      if p in s.procs {
        var m := NextMove(ViewOf(s), s.procs[p]);
        if m.Move? {
          MovesFit(ViewOf(s), s.procs[p]);
        }
        PerformMatches(s, p, m);
      }
    case Abort(p) =>
      if p in s.procs && s.procs[p].LongPhases? {
        PerformMatches(s, p, Aborted(ViewOf(s), s.procs[p]));
      }
    case Crash(p) =>
      if p in s.procs {
        PerformMatches(s, p, Leave);
      }
    case Tick(delta) =>
  }

  /** In every reachable state, however processes interleave, crash or take over stale locks. */
  lemma {:induction false} AlwaysMatches(s: System, events: seq<Event>)
    requires LocksMatch(s) && AllSensible(s)
    ensures LocksMatch(Run(s, events)) && AllSensible(Run(s, events))
    decreases |events|
  {
    if events != [] {
      StepMatches(s, events[0]);
      AlwaysMatches(Do(s, events[0]), events[1..]);
    }
  }

  /** At most one process is ever inside the backup lock, stale takeovers included. */
  lemma {:induction false} BackupLockExcludes(t: nat, events: seq<Event>, p: Pid, q: Pid)
    requires var s := After(t, events); p in s.procs && q in s.procs && InBackup(s.procs[p]) && InBackup(s.procs[q])
    ensures p == q
  {
    AlwaysMatches(Clean(t), events);
  }

  /** The pipeline of a `start` or `stop` never overlaps the teardown of a `destroy`. */
  lemma {:induction false} PipelineExcludesTeardown(t: nat, events: seq<Event>, p: Pid, q: Pid)
    requires var s := After(t, events); p in s.procs && q in s.procs && s.procs[p].Pipeline?
    ensures !After(t, events).procs[q].Teardown?
  {
    AlwaysMatches(Clean(t), events);
  }
}
