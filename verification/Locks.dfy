/** The backup lock of one instance: a file lock with an advisory record of when it was taken. */
module Locks {
  import opened Options

  type Pid = nat

  /** Clock readings are in microseconds; a record keeps whole seconds. */
  const SECOND := 1000000
  const STALE_GRACE := 60 * SECOND

  function Stamp(now: nat): nat { now / SECOND }

  /** A missing, empty or malformed record is stale; a readable one is stale once it is over a minute old. */
  predicate IsStale(record: Option<nat>, now: nat) {
    record.None? || now as int - record.value * SECOND > STALE_GRACE
  }

  /** A record cannot look stale within 59 seconds of the reading it was made from. */
  lemma FreshForFiftyNineSeconds(at: nat, now: nat)
    requires IsStale(Some(Stamp(at)), now)
    ensures now > at + 59 * SECOND
  {}

  /** And it does look stale from 61 seconds on. */
  lemma StaleAfterSixtyOneSeconds(at: nat, now: nat)
    requires now >= at + 61 * SECOND
    ensures IsStale(Some(Stamp(at)), now)
  {}

  /** Exactly: from the first microsecond after the sixtieth second behind the full second that was recorded. */
  lemma {:induction false} StaleExactly(at: nat, now: nat)
    ensures IsStale(Some(Stamp(at)), now) <==> now >= at - at % 1000000 + 60000001
  {
    assert at == Stamp(at) * 1000000 + at % 1000000;
  }

  datatype Acquired = Held | Taken

  class BackupLock {
    /** Whether the file exists, and what can be read from it. */
    var present: bool
    var record: Option<nat>
    var holder: Option<Pid>

    constructor ()
      ensures !present && record == None && holder == None
    {
      present, record, holder := false, None, None;
    }

    /** The file as the lifecycle commands see it. */
    ghost predicate LooksHeld(now: nat)
      reads this
    {
      present && !IsStale(record, now) && holder.Some?
    }

    /** Takes the lock for a moment to find out whether somebody else has it. */
    method IsBackupLockHeld(me: Pid, now: nat) returns (held: bool)
      modifies this
      ensures held == old(LooksHeld(now))
      ensures present == old(present) && record == old(record) && holder == old(holder)
    {
      if !present {
        return false;
      }
      if IsStale(record, now) {
        return false;
      }
      if holder.Some? {
        return true;
      }
      holder := Some(me);
      holder := None;
      return false;
    }

    /**
     Takes the lock, unless somebody holds it.  A stale record is wiped even then, but the lock itself is never
     taken from a live holder.
    */
    method AcquireBackupLock(me: Pid, now: nat) returns (r: Acquired)
      modifies this
      ensures r == Taken <==> old(holder) == None
      ensures r == Taken ==> present && holder == Some(me) && record == Some(Stamp(now))
      ensures r == Held ==> present && holder == old(holder)
      ensures r == Held ==>
                record == if IsStale(if old(present) then old(record) else None, now) then None else old(record)
    {
      if !present {
        present, record := true, None;
      }
      if holder.Some? {
        if !IsStale(record, now) {
          return Held;
        }
        record := None;
        if holder.Some? {
          return Held;
        }
      }
      holder := Some(me);
      record := None;
      record := Some(Stamp(now));
      return Taken;
    }

    method ReleaseBackupLock(me: Pid)
      requires holder == Some(me)
      modifies this
      ensures holder == None && record == None && present == old(present)
    {
      record := None;
      holder := None;
    }
  }
}
