/**
 Many processes on one ledger: every interleaving of lock, load, save and unlock, with crashes.  A load and a
 save are one step each; a crash gives the lock back.
*/
module IpamRuns {
  import opened Options
  import opened Subnets
  import opened Ipam

  type Pid = nat

  datatype Request = Allocate(id: string) | Release(id: string)

  /** Where a process stands; whoever is not in the table is idle. */
  datatype Phase =
    | Locked(req: Request)
    | Loaded(req: Request, snapshot: Ledger)
    | Finished(req: Request, result: SlotResult)

  datatype System = System(disk: Ledger, holder: Option<Pid>, procs: map<Pid, Phase>)

  datatype Event =
    | Lock(p: Pid, req: Request)
    | Refused(p: Pid, req: Request)
    | Load(p: Pid)
    | Save(p: Pid, result: SlotResult)
    | Unlock(p: Pid)
    | Crash(p: Pid)
    | Peek(id: string, result: SlotResult)

  /** The ledger that a request writes back. */
  function Written(req: Request, d: Ledger, r: SlotResult): Ledger {
    if req.Allocate? then After(d, req.id, r) else d - {req.id}
  }

  ghost predicate Next(s: System, e: Event, t: System) {
    match e
    case Lock(p, req) =>
      s.holder.None? && p !in s.procs && t == System(s.disk, Some(p), s.procs[p := Locked(req)])
    case Refused(p, req) =>
      s.holder.Some? && p !in s.procs && t == s
    case Load(p) =>
      p in s.procs && s.procs[p].Locked? && t == s.(procs := s.procs[p := Loaded(s.procs[p].req, s.disk)])
    case Save(p, result) =>
      && p in s.procs && s.procs[p].Loaded?
      && (s.procs[p].req.Allocate? ==> Answers(s.procs[p].snapshot, s.procs[p].req.id, result))
      && t == s.(disk := Written(s.procs[p].req, s.procs[p].snapshot, result),
                 procs := s.procs[p := Finished(s.procs[p].req, result)])
    case Unlock(p) =>
      p in s.procs && s.procs[p].Finished? && t == System(s.disk, None, s.procs - {p})
    case Crash(p) =>
      p in s.procs && t == System(s.disk, if s.holder == Some(p) then None else s.holder, s.procs - {p})
    case Peek(id, result) =>
      Answers(s.disk, id, result) && t == s
  }

  const START := System(map[], None, map[])

  /** A run: states and the events between them. */
  ghost predicate Run(states: seq<System>, events: seq<Event>) {
    && |states| == |events| + 1 && states[0] == START
    && forall i :: 0 <= i < |events| ==> Next(states[i], events[i], states[i + 1])
  }

  /** One lock holder at most; what it has loaded is still what the file holds; the ledger is good. */
  ghost predicate Inv(s: System) {
    && GoodLedger(s.disk)
    && (forall p :: p in s.procs ==> s.holder == Some(p))
    && (s.holder.Some? ==> s.holder.value in s.procs)
    && (forall p :: p in s.procs && s.procs[p].Loaded? ==> s.procs[p].snapshot == s.disk)
  }

  lemma StepKeepsInv(s: System, e: Event, t: System)
    requires Inv(s) && Next(s, e, t)
    ensures Inv(t)
  {
    if e.Save? {
      var proc := s.procs[e.p];
      if proc.req.Allocate? {
        AnswerKeepsLedger(s.disk, proc.req.id, e.result);
      } else {
        ReleaseKeepsLedger(s.disk, proc.req.id);
      }
    }
  }

  /** In every run the ledger stays injective and in range, and two processes never hold the lock. */
  lemma {:induction false} RunKeepsInv(states: seq<System>, events: seq<Event>, n: nat)
    requires Run(states, events) && n < |states|
    ensures Inv(states[n])
  {
    if n > 0 {
      RunKeepsInv(states, events, n - 1);
      StepKeepsInv(states[n - 1], events[n - 1], states[n]);
    }
  }

  /**
   Every saved allocation answers for the ledger as it is at that moment, not merely as it was when loaded: the
   slot it already had, or the least free one, or exhaustion exactly when all slots belong to other instances.
  */
  lemma {:induction false} SavedAllocationIsRight(states: seq<System>, events: seq<Event>, n: nat)
    requires Run(states, events) && n < |events| && SavesAllocation(states[n], events[n])
    ensures var d, id, result := states[n].disk, states[n].procs[events[n].p].req.id, events[n].result;
            && Answers(d, id, result) && states[n + 1].disk == After(d, id, result)
            && (result.Exhausted? <==> id !in d && |d| == MAX_SLOTS)
  {
    RunKeepsInv(states, events, n);
    assert Next(states[n], events[n], states[n + 1]);
    AllocationIsRight(states[n].disk, states[n].procs[events[n].p].req.id, events[n].result);
  }

  predicate SavesAllocation(s: System, e: Event) {
    e.Save? && e.p in s.procs && s.procs[e.p].req.Allocate?
  }

  lemma AllocationIsRight(d: Ledger, id: string, result: SlotResult)
    requires GoodLedger(d) && Answers(d, id, result)
    ensures result.Exhausted? <==> id !in d && |d| == MAX_SLOTS
  {
    ExhaustedIffFull(d);
    if id !in d && AllUsed(d) {
      AnswerIsUnique(d, id, result, Exhausted);
    }
  }

  /** A preview, then an allocation step by step from the same state: it answers what the preview said. */
  lemma {:induction false} PeekPredictsAllocate(
    s: System, p: Pid, id: string, peeked: SlotResult, afterPeek: System, locked: System, loaded: System,
    answer: SlotResult, saved: System)
    requires Next(s, Peek(id, peeked), afterPeek) && Next(afterPeek, Lock(p, Allocate(id)), locked)
    requires Next(locked, Load(p), loaded) && Next(loaded, Save(p, answer), saved)
    ensures answer == peeked && saved.disk == After(s.disk, id, peeked)
  {
    AnswerIsUnique(s.disk, id, peeked, answer);
  }

  /**
   Nothing stands in the way of an operation that finds the lock free: it is carried out, and the lock is free again;
   and when its process dies on the way, the lock is free again too.
  */
  lemma {:induction false} OperationRuns(s: System, p: Pid, req: Request, result: SlotResult)
    returns (locked: System, loaded: System, saved: System, unlocked: System)
    requires s.holder.None? && p !in s.procs && (req.Allocate? ==> Answers(s.disk, req.id, result))
    ensures Next(s, Lock(p, req), locked) && Next(locked, Load(p), loaded)
    ensures Next(loaded, Save(p, result), saved) && Next(saved, Unlock(p), unlocked)
    ensures unlocked == s.(disk := if req.Allocate? then After(s.disk, req.id, result) else s.disk - {req.id})
    ensures Next(locked, Crash(p), s) && Next(loaded, Crash(p), s) && Next(saved, Crash(p), unlocked)
  {
    locked := System(s.disk, Some(p), s.procs[p := Locked(req)]);
    loaded := locked.(procs := locked.procs[p := Loaded(req, s.disk)]);
    saved := loaded.(disk := Written(req, s.disk, result), procs := loaded.procs[p := Finished(req, result)]);
    unlocked := s.(disk := Written(req, s.disk, result));
    assert locked.procs - {p} == s.procs && loaded.procs - {p} == s.procs && saved.procs - {p} == s.procs;
  }

  /** A process that finds the lock taken changes nothing, and so does a preview. */
  lemma {:induction false} OthersChangeNothing(s: System, e: Event, t: System)
    requires Next(s, e, t) && (e.Peek? || e.Refused?)
    ensures t == s && (e.Refused? ==> s.holder.Some?) && (e.Peek? ==> Answers(s.disk, e.id, e.result))
  {}

  /** Only a save changes the file. */
  lemma {:induction false} DiskIsKept(states: seq<System>, events: seq<Event>, m: nat, n: nat)
    requires Run(states, events) && m <= n < |states|
    requires forall k :: m <= k < n ==> !events[k].Save?
    ensures states[n].disk == states[m].disk
    decreases n
  {
    if m < n {
      DiskIsKept(states, events, m, n - 1);
      assert Next(states[n - 1], events[n - 1], states[n]);
    }
  }

  /**
   In every run: an allocation answers what an earlier preview for its instance said, and leaves the ledger the
   preview foretold, if nobody saved anything in between, whatever else they did.
  */
  lemma {:induction false} PreviewComesTrue(
    states: seq<System>, events: seq<Event>, m: nat, n: nat, id: string, peeked: SlotResult)
    requires Run(states, events) && m < n < |events| && events[m] == Peek(id, peeked)
    requires forall k :: m <= k < n ==> !events[k].Save?
    requires SavesAllocation(states[n], events[n]) && states[n].procs[events[n].p].req.id == id
    ensures events[n].result == peeked && states[n + 1].disk == After(states[m].disk, id, peeked)
  {
    DiskIsKept(states, events, m, n);
    SavedAllocationIsRight(states, events, n);
    assert Next(states[m], events[m], states[m + 1]);
    AnswerIsUnique(states[m].disk, id, peeked, events[n].result);
  }

  predicate Releases(s: System, e: Event, id: string) {
    e.Save? && e.p in s.procs && s.procs[e.p].req == Release(id)
  }

  /** A slot once given stays with its instance until a release of that very instance is saved. */
  lemma {:induction false} SlotIsKept(states: seq<System>, events: seq<Event>, m: nat, n: nat, id: string)
    requires Run(states, events) && m <= n < |states| && id in states[m].disk
    requires forall k :: m <= k < n ==> !Releases(states[k], events[k], id)
    ensures id in states[n].disk && states[n].disk[id] == states[m].disk[id]
    decreases n
  {
    if m < n {
      SlotIsKept(states, events, m, n - 1, id);
      RunKeepsInv(states, events, n - 1);
      var s, e := states[n - 1], events[n - 1];
      assert Next(s, e, states[n]) && !Releases(s, e, id);
      if e.Save? && s.procs[e.p].req.Allocate? {
        AnswerKeepsLedger(s.disk, s.procs[e.p].req.id, e.result);
      }
    }
  }
}
