/**
 What the interleaved steps do when nobody interferes: entering under the state lock, the gate, acquiring and giving
 back the backup lock, the teardown, and the takeover of a stale lock whose holder has gone.
*/
module LockSteps {
  import opened Options
  import opened Locks
  import opened LockProtocol
  import opened LockWindow

  // ----- Entering -----

  /** `start`, `stop` and `destroy` go on under the state lock if nobody has it, and leave everything alone if not. */
  lemma {:induction false} EnterUnderStateLock(s: System, p: Pid, role: Role)
    requires p in s.procs && s.procs[p] == Outside(role) && (role.Start? || role.Stop? || role.Destroy?)
    requires LocksMatch(s)
    ensures Do(s, Step(p)) ==
            if s.stateLock.None? then s.(stateLock := Some(p), procs := s.procs[p := CheckExists(role)])
            else s.(procs := s.procs - {p})
  {}

  /** A probe goes to the gate without a lock, and a backup without the gate to the backup lock. */
  lemma {:induction false} EnterWithoutStateLock(s: System, p: Pid, role: Role)
    requires p in s.procs && s.procs[p] == Outside(role) && (role.Probe? || role.RemoveBackup?)
    ensures Do(s, Step(p)) ==
            s.(procs := s.procs[p := if role.Probe? then CheckExists(role) else OpenFile(role)])
  {}

  // ----- Acquiring, alone -----

  /**
   Uninterrupted, acquiring takes the backup lock exactly when nobody has it, and then records the time; otherwise
   the process goes, its locks with it, and a stale record is wiped: what `BackupLock.AcquireBackupLock` states of one
   call.
  */
  lemma {:induction false} AcquireAlone(s: System, p: Pid, role: Role) returns (n: nat, t: System)
    requires LocksMatch(s) && AllSensible(s) && p in s.procs && s.procs[p] == OpenFile(role)
    ensures Alone(s, p, n, t)
    ensures t ==
            if s.backupLock.None? then
              s.(present := true, record := Some(Stamp(s.now)), backupLock := Some(p),
                 procs := s.procs[p := Recorded(role, s.now)])
            else
              s.(present := true, record := if IsStale(s.record, s.now) then None else s.record,
                 stateLock := Without(s.stateLock, p), procs := s.procs - {p})
  {
    var s1 := Do(s, Step(p));
    assert s1 == s.(present := true, procs := s.procs[p := FirstLock(role)]);
    assert s.backupLock != Some(p);
    n, t := LockAlone(s1, p, role);
    assert s1.procs[p := Recorded(role, s.now)] == s.procs[p := Recorded(role, s.now)];
    assert s1.procs - {p} == s.procs - {p};
    n := n + 1;
  }

  lemma LockAlone(s: System, p: Pid, role: Role) returns (n: nat, t: System)
    requires p in s.procs && s.procs[p] == FirstLock(role) && s.backupLock != Some(p)
    ensures Alone(s, p, n, t)
    ensures t ==
            if s.backupLock.None? then
              s.(record := Some(Stamp(s.now)), backupLock := Some(p), procs := s.procs[p := Recorded(role, s.now)])
            else
              s.(record := if IsStale(s.record, s.now) then None else s.record,
                 stateLock := Without(s.stateLock, p), procs := s.procs - {p})
  {
    if s.backupLock.None? {
      n, t := TakeAlone(s, p, role);
    } else {
      n, t := TakeoverFails(s, p, role);
    }
  }

  lemma TakeAlone(s: System, p: Pid, role: Role) returns (n: nat, t: System)
    requires p in s.procs && s.procs[p] == FirstLock(role) && s.backupLock.None?
    ensures Alone(s, p, n, t)
    ensures t == s.(record := Some(Stamp(s.now)), backupLock := Some(p), procs := s.procs[p := Recorded(role, s.now)])
  {
    var s1 := Do(s, Step(p));
    assert s1 == s.(backupLock := Some(p), procs := s.procs[p := WipeOwn(role)]);
    n, t := RecordAlone(s1, p, role);
    assert s1.procs[p := Recorded(role, s.now)] == s.procs[p := Recorded(role, s.now)];
    n := n + 1;
  }

  /** From the wipe of its own record on. */
  lemma RecordAlone(s: System, p: Pid, role: Role) returns (n: nat, t: System)
    requires p in s.procs && s.procs[p] == WipeOwn(role)
    ensures Alone(s, p, n, t)
    ensures t == s.(record := Some(Stamp(s.now)), procs := s.procs[p := Recorded(role, s.now)])
  {
    var s1 := Do(s, Step(p));
    assert s1 == s.(record := None, procs := s.procs[p := TakeTime(role)]);
    var s2 := Do(s1, Step(p));
    assert s2.procs == s.procs[p := Write(role, s.now)];
    t := Do(s2, Step(p));
    assert t.procs == s.procs[p := Recorded(role, s.now)];
    n := 3;
    assert Alone(t, p, 0, t) && Alone(s2, p, 1, t) && Alone(s1, p, 2, t);
  }

  lemma TakeoverFails(s: System, p: Pid, role: Role) returns (n: nat, t: System)
    requires p in s.procs && s.procs[p] == FirstLock(role) && s.backupLock.Some? && s.backupLock != Some(p)
    ensures Alone(s, p, n, t)
    ensures t == s.(record := if IsStale(s.record, s.now) then None else s.record,
                    stateLock := Without(s.stateLock, p), procs := s.procs - {p})
  {
    var s2 := LooksAtOther(s, p, role);
    if IsStale(s.record, s.now) {
      t := WipesInVain(s2, p, role);
      assert s2.procs - {p} == s.procs - {p};
      n := 5;
    } else {
      t := Do(s2, Step(p));
      assert t.procs == s.procs - {p};
      n := 3;
      assert Alone(t, p, 0, t) && Alone(s2, p, 1, t);
    }
    assert Alone(Do(s, Step(p)), p, n - 1, t);
  }

  lemma LooksAtOther(s: System, p: Pid, role: Role) returns (t: System)
    requires p in s.procs && s.procs[p] == FirstLock(role) && s.backupLock.Some?
    ensures t == Do(Do(s, Step(p)), Step(p)) == s.(procs := s.procs[p := CompareOther(role, s.record)])
  {
    var s1 := Do(s, Step(p));
    assert s1 == s.(procs := s.procs[p := ReadOther(role)]);
    t := Do(s1, Step(p));
    assert t.procs == s.procs[p := CompareOther(role, s.record)];
  }

  lemma WipesInVain(s: System, p: Pid, role: Role) returns (t: System)
    requires p in s.procs && s.procs[p] == CompareOther(role, s.record) && IsStale(s.record, s.now)
    requires s.backupLock.Some? && s.backupLock != Some(p)
    ensures Alone(s, p, 3, t)
    ensures t == s.(record := None, stateLock := Without(s.stateLock, p), procs := s.procs - {p})
  {
    var s1 := Do(s, Step(p));
    var s2 := Do(s1, Step(p));
    assert s2.procs == s.procs[p := SecondLock(role)];
    t := Do(s2, Step(p));
    assert t.procs == s.procs - {p};
    assert Alone(t, p, 0, t) && Alone(s2, p, 1, t) && Alone(s1, p, 2, t);
  }

  /** The second attempt succeeds if the holder has gone in the meantime: the stale lock is taken over. */
  lemma {:induction false} StaleLockIsTakenOver(s: System, p: Pid, q: Pid, role: Role) returns (n: nat, t: System)
    requires p != q && p in s.procs && q in s.procs && s.procs[p] == CompareOther(role, s.record)
    requires s.backupLock == Some(q) && s.stateLock != Some(q) && IsStale(s.record, s.now)
    ensures Alone(Do(Do(Do(s, Step(p)), Step(p)), Crash(q)), p, n, t)
    ensures t == s.(record := Some(Stamp(s.now)), backupLock := Some(p),
                    procs := (s.procs - {q})[p := Recorded(role, s.now)])
  {
    var s3 := WipedAndGone(s, p, q, role);
    n, t := SecondTakeAlone(s3, p, role);
    assert s3.procs[p := Recorded(role, s.now)] == (s.procs - {q})[p := Recorded(role, s.now)];
  }

  lemma SecondTakeAlone(s: System, p: Pid, role: Role) returns (n: nat, t: System)
    requires p in s.procs && s.procs[p] == SecondLock(role) && s.backupLock.None?
    ensures Alone(s, p, n, t)
    ensures t == s.(record := Some(Stamp(s.now)), backupLock := Some(p), procs := s.procs[p := Recorded(role, s.now)])
  {
    var s1 := Do(s, Step(p));
    assert s1 == s.(backupLock := Some(p), procs := s.procs[p := WipeOwn(role)]);
    n, t := RecordAlone(s1, p, role);
    assert s1.procs[p := Recorded(role, s.now)] == s.procs[p := Recorded(role, s.now)];
    n := n + 1;
  }

  lemma WipedAndGone(s: System, p: Pid, q: Pid, role: Role) returns (t: System)
    requires p != q && p in s.procs && q in s.procs && s.procs[p] == CompareOther(role, s.record)
    requires s.backupLock == Some(q) && s.stateLock != Some(q) && IsStale(s.record, s.now)
    ensures t == Do(Do(Do(s, Step(p)), Step(p)), Crash(q))
    ensures t == s.(record := None, backupLock := None, procs := (s.procs - {q})[p := SecondLock(role)])
  {
    var s1 := Do(s, Step(p));
    assert s1 == s.(procs := s.procs[p := Wipe(role)]);
    var s2 := Do(s1, Step(p));
    assert s1.procs[p := SecondLock(role)] == s.procs[p := SecondLock(role)];
    assert s2 == s.(record := None, procs := s.procs[p := SecondLock(role)]);
    t := Do(s2, Crash(q));
    assert s.procs[p := SecondLock(role)] - {q} == (s.procs - {q})[p := SecondLock(role)];
  }

  // ----- The rest of a destroy, alone -----

  /** After its long phases a `destroy` tears down under the state lock if nobody has it, and not at all otherwise. */
  lemma {:induction false} TeardownNeedsStateLock(s: System, p: Pid, at: nat)
    requires p in s.procs && s.procs[p] == LongPhases(Destroy, at)
    ensures Do(s, Step(p)) ==
            if s.stateLock.None? then s.(stateLock := Some(p), procs := s.procs[p := Teardown(Destroy, at)])
            else s.(procs := s.procs[p := ExitWipe(Destroy, at)])
  {}

  /** The gate's state lock is given back before the long phases, and only by a `destroy`. */
  lemma {:induction false} StateLockIsReturned(s: System, p: Pid, role: Role, at: nat)
    requires LocksMatch(s) && p in s.procs && s.procs[p] == Recorded(role, at)
    ensures Do(s, Step(p)) ==
            s.(stateLock := if role.Destroy? then None else s.stateLock, procs := s.procs[p := LongPhases(role, at)])
  {}

  /** A `destroy` that is torn down: both locks are given back, the state lock first, and its record is wiped. */
  lemma {:induction false} LeavesCleanly(s: System, p: Pid, at: nat) returns (t: System)
    requires LocksMatch(s) && p in s.procs && s.procs[p] == Teardown(Destroy, at)
    ensures var released := s.(stateLock := None, procs := s.procs[p := ExitWipe(Destroy, at)]);
            && Do(s, Step(p)) == released
            && Alone(released, p, 2, t)
    ensures t == s.(record := None, stateLock := None, backupLock := None, procs := s.procs - {p})
  {
    var s1 := Do(s, Step(p));
    assert s1 == s.(stateLock := None, procs := s.procs[p := ExitWipe(Destroy, at)]);
    t := ReleaseAlone(s1, p, Destroy, at);
    assert s1.procs - {p} == s.procs - {p};
  }

  /** The exit from the context: the record is wiped, the backup lock given back. */
  lemma ReleaseAlone(s: System, p: Pid, role: Role, at: nat) returns (t: System)
    requires p in s.procs && s.procs[p] == ExitWipe(role, at) && s.backupLock == Some(p) && s.stateLock != Some(p)
    ensures Alone(s, p, 2, t) && t == s.(record := None, backupLock := None, procs := s.procs - {p})
  {
    var s1 := Do(s, Step(p));
    assert s1 == s.(record := None, procs := s.procs[p := ExitUnlock(role)]);
    t := Do(s1, Step(p));
    assert t.procs == s.procs - {p};
    assert Alone(t, p, 0, t) && Alone(s1, p, 1, t);
  }

  /** The law about pipelines and teardowns is not empty: a `destroy` on a clean host comes to its teardown. */
  lemma {:induction false} DestroyTearsDown(t: nat) returns (events: seq<Event>)
    ensures forall i :: 0 <= i < |events| ==> IsDisciplined(events[i])
    ensures After(t, events) ==
            System(t, true, Some(Stamp(t)), Some(0), Some(0), map[0 := Teardown(Destroy, t)])
  {
    events := DestroyAlone(t);
    var s := After(t, events);
    TeardownNeedsStateLock(s, 0, t);
    events, s := Extend(t, events, Step(0), s);
  }

  /** And one that finds a `start` in the state lock leaves without a teardown. */
  lemma {:induction false} DestroyGivesWay(t: nat) returns (events: seq<Event>)
    ensures forall i :: 0 <= i < |events| ==> IsDisciplined(events[i])
    ensures After(t, events) == System(t, true, Some(Stamp(t)), Some(1), Some(0),
                                       map[0 := ExitWipe(Destroy, t), 1 := CheckExists(Start)])
  {
    events := DestroyAlone(t);
    var s := After(t, events);
    events, s := Extend(t, events, Begin(1, Start), s);
    assert s.procs == map[0 := LongPhases(Destroy, t), 1 := Outside(Start)];
    events, s := Extend(t, events, Step(1), s);
    assert s.procs == map[0 := LongPhases(Destroy, t), 1 := CheckExists(Start)];
    TeardownNeedsStateLock(s, 0, t);
    events, s := Extend(t, events, Step(0), s);
    ZeroMoved(LongPhases(Destroy, t), ExitWipe(Destroy, t), CheckExists(Start));
  }

  // ----- The gate for every role -----

  /** Where the gate lets a process of each role go on. */
  function Onward(s: System, p: Pid, role: Role): System {
    match role
    case Start => s.(procs := s.procs[p := Pipeline(Start)])
    case Stop => s.(procs := s.procs[p := Pipeline(Stop)])
    case Destroy => s.(procs := s.procs[p := OpenFile(Destroy)])
    case Probe => s.(procs := s.procs - {p})
    case RemoveBackup => s.(procs := s.procs - {p})
  }

  /**
   Uninterrupted, the gate of every role refuses exactly when there is a lock file with a fresh record whose lock
   somebody has; and leaves the file and the locks as they were.
  */
  lemma {:induction false} GateOfRole(s: System, p: Pid, role: Role) returns (n: nat, t: System)
    requires LocksMatch(s) && AllSensible(s) && p in s.procs && s.procs[p] == CheckExists(role)
    requires !role.RemoveBackup?
    ensures Alone(s, p, n, t)
    ensures t == if s.present && !IsStale(s.record, s.now) && s.backupLock.Some?
                 then s.(procs := s.procs[p := Refusing(role)])
                 else Onward(s, p, role)
  {
    assert s.backupLock != Some(p);
    var s1 := Do(s, Step(p));
    if !s.present {
      n, t := 1, s1;
      assert Alone(t, p, 0, t);
    } else {
      assert s1 == s.(procs := s.procs[p := ReadRecord(role)]);
      var s2 := Do(s1, Step(p));
      assert s2 == s.(procs := s.procs[p := CompareClock(role, s.record)]);
      n, t := CompareAlone(s2, p, role);
      SamePlace(s, s2, p, role);
      n := n + 2;
      assert Alone(s1, p, n - 1, t);
    }
  }

  lemma SamePlace(s: System, s2: System, p: Pid, role: Role)
    requires p in s.procs && s2 == s.(procs := s.procs[p := CompareClock(role, s.record)])
    ensures Onward(s2, p, role) == Onward(s, p, role)
    ensures s2.procs[p := Refusing(role)] == s.procs[p := Refusing(role)]
  {
    assert s2.procs - {p} == s.procs - {p};
    assert s2.procs[p := Pipeline(Start)] == s.procs[p := Pipeline(Start)];
    assert s2.procs[p := Pipeline(Stop)] == s.procs[p := Pipeline(Stop)];
    assert s2.procs[p := OpenFile(Destroy)] == s.procs[p := OpenFile(Destroy)];
  }

  lemma CompareAlone(s: System, p: Pid, role: Role) returns (n: nat, t: System)
    requires p in s.procs && s.procs[p] == CompareClock(role, s.record) && s.backupLock != Some(p)
    requires role.Probe? ==> s.stateLock != Some(p)
    requires !role.RemoveBackup?
    ensures Alone(s, p, n, t)
    ensures t == if !IsStale(s.record, s.now) && s.backupLock.Some? then s.(procs := s.procs[p := Refusing(role)])
                 else Onward(s, p, role)
  {
    var s1 := Do(s, Step(p));
    if IsStale(s.record, s.now) {
      n, t := 1, s1;
      assert Alone(t, p, 0, t);
    } else {
      assert s1 == s.(procs := s.procs[p := TryLock(role)]);
      var s2 := Do(s1, Step(p));
      if s.backupLock.Some? {
        n, t := 2, s2;
        assert t.procs == s.procs[p := Refusing(role)];
        assert Alone(t, p, 0, t) && Alone(s1, p, 1, t);
      } else {
        assert s2 == s.(backupLock := Some(p), procs := s.procs[p := TryUnlock(role)]);
        n, t := 3, Do(s2, Step(p));
        UnlockedPlace(s, p, role);
        assert Alone(t, p, 0, t) && Alone(s2, p, 1, t) && Alone(s1, p, 2, t);
      }
    }
  }

  lemma UnlockedPlace(s: System, p: Pid, role: Role)
    requires p in s.procs && s.backupLock.None? && !role.RemoveBackup? && (role.Probe? ==> s.stateLock != Some(p))
    ensures Do(s.(backupLock := Some(p), procs := s.procs[p := TryUnlock(role)]), Step(p)) == Onward(s, p, role)
  {
    var u := s.(backupLock := Some(p), procs := s.procs[p := TryUnlock(role)]);
    assert u.procs - {p} == s.procs - {p};
    assert u.procs[p := Pipeline(Start)] == s.procs[p := Pipeline(Start)];
    assert u.procs[p := Pipeline(Stop)] == s.procs[p := Pipeline(Stop)];
    assert u.procs[p := OpenFile(Destroy)] == s.procs[p := OpenFile(Destroy)];
  }

  /** A refused process, and one at the end of its pipeline, goes and takes nothing but its own state lock with it. */
  lemma {:induction false} EndsHere(s: System, p: Pid)
    requires LocksMatch(s) && p in s.procs && (s.procs[p].Refusing? || s.procs[p].Pipeline?)
    ensures Do(s, Step(p)) ==
            s.(stateLock := if s.stateLock == Some(p) then None else s.stateLock, procs := s.procs - {p})
  {}
}
