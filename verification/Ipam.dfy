/** The slot ledger: allocation of the lowest free slot, its release, and the read-only preview. */
module Ipam {
  import opened Options
  import opened Subnets
  import opened Graphs

  type Ledger = map<string, nat>

  datatype SlotResult = Slot(slot: nat, existing: bool) | Exhausted | LockBusy

  /** Distinct instances have distinct slots, all of them in range. */
  ghost predicate GoodLedger(d: Ledger) {
    (forall id :: id in d ==> d[id] < MAX_SLOTS) && Injective(d)
  }

  ghost predicate Injective(d: Ledger) {
    forall a, b :: a in d && b in d && d[a] == d[b] ==> a == b
  }

  predicate Used(d: Ledger, slot: nat) { slot in d.Values }

  ghost predicate IsLeastFree(d: Ledger, slot: nat) {
    slot < MAX_SLOTS && !Used(d, slot) && forall c: nat :: c < slot ==> Used(d, c)
  }

  ghost predicate AllUsed(d: Ledger) { forall c: nat :: c < MAX_SLOTS ==> Used(d, c) }

  /** What an allocation for `id` has to answer on ledger `d`. */
  ghost predicate Answers(d: Ledger, id: string, r: SlotResult) {
    match r
    case Slot(slot, existing) => if existing then id in d && d[id] == slot else id !in d && IsLeastFree(d, slot)
    case Exhausted => id !in d && AllUsed(d)
    case LockBusy => false
  }

  /** The ledger after such an answer. */
  function After(d: Ledger, id: string, r: SlotResult): Ledger {
    if r.Slot? && !r.existing then d[id := r.slot] else d
  }

  /** There is exactly one right answer. */
  lemma {:induction false} AnswerIsUnique(d: Ledger, id: string, r: SlotResult, q: SlotResult)
    requires Answers(d, id, r) && Answers(d, id, q)
    ensures r == q
  {
    if r.Slot? && !r.existing {
      LeastFreeIsFree(d, r.slot);
    }
    if q.Slot? && !q.existing {
      LeastFreeIsFree(d, q.slot);
    }
    if r.Slot? && q.Slot? && !r.existing {
      LeastFreeIsUnique(d, r.slot, q.slot);
    }
  }

  lemma LeastFreeIsFree(d: Ledger, slot: nat)
    requires IsLeastFree(d, slot)
    ensures !AllUsed(d)
  {}

  lemma LeastFreeIsUnique(d: Ledger, slot: nat, other: nat)
    requires IsLeastFree(d, slot) && IsLeastFree(d, other)
    ensures slot == other
  {}

  /** An answered allocation keeps the ledger good, and the instance now owns the slot. */
  lemma {:induction false} AnswerKeepsLedger(d: Ledger, id: string, r: SlotResult)
    requires GoodLedger(d) && Answers(d, id, r)
    ensures GoodLedger(After(d, id, r))
    ensures r.Slot? ==> id in After(d, id, r) && After(d, id, r)[id] == r.slot
    ensures forall other :: other in d ==> other in After(d, id, r) && After(d, id, r)[other] == d[other]
  {
    forall a | a in d
      ensures Used(d, d[a])
    {}
  }

  /** Asking again changes nothing and gives the same slot. */
  lemma {:induction false} AllocateIsIdempotent(d: Ledger, id: string, r: SlotResult, q: SlotResult)
    requires Answers(d, id, r) && r.Slot? && Answers(After(d, id, r), id, q)
    ensures q == Slot(r.slot, true) && After(After(d, id, r), id, q) == After(d, id, r)
  {
    AnswerIsUnique(After(d, id, r), id, q, Slot(r.slot, true));
  }

  lemma ReleaseKeepsLedger(d: Ledger, id: string)
    requires GoodLedger(d)
    ensures GoodLedger(d - {id})
  {}

  // ----- When it is exhausted -----

  ghost function Below(n: nat): set<nat> { if n == 0 then {} else Below(n - 1) + {n - 1} }

  lemma {:induction false} BelowIs(n: nat)
    ensures |Below(n)| == n && forall c :: c in Below(n) <==> 0 <= c < n
  {
    if n > 0 {
      BelowIs(n - 1);
    }
  }

  lemma {:induction false} InjectiveSize(d: Ledger)
    requires Injective(d)
    ensures |d.Values| == |d|
    decreases |d|
  {
    if d != map[] {
      var id :| id in d;
      var rest := d - {id};
      InjectiveSize(rest);
      OneLess(d, id, rest);
    }
  }

  lemma OneLess(d: Ledger, id: string, rest: Ledger)
    requires Injective(d) && id in d && rest == d - {id}
    ensures |d| == |rest| + 1 && |d.Values| == |rest.Values| + 1
  {
    assert d.Keys == rest.Keys + {id};
    assert |d.Keys| == |rest.Keys| + 1;
    OneValueLess(d, id, rest);
    assert |rest.Values + {d[id]}| == |rest.Values| + 1;
  }

  lemma OneValueLess(d: Ledger, id: string, rest: Ledger)
    requires Injective(d) && id in d && rest == d - {id}
    ensures d.Values == rest.Values + {d[id]} && d[id] !in rest.Values
  {
    forall v | v in d.Values
      ensures v in rest.Values + {d[id]}
    {
      var k :| k in d && d[k] == v;
      assert k != id ==> k in rest && rest[k] == v;
    }
  }

  /** All slots are in use exactly when as many instances are registered as there are slots. */
  lemma {:induction false} ExhaustedIffFull(d: Ledger)
    requires GoodLedger(d)
    ensures |d| <= MAX_SLOTS
    ensures AllUsed(d) <==> |d| == MAX_SLOTS
  {
    InjectiveSize(d);
    BelowIs(MAX_SLOTS);
    assert d.Values <= Below(MAX_SLOTS);
    SubsetSize(d.Values, Below(MAX_SLOTS));
    if AllUsed(d) {
      forall c | c in Below(MAX_SLOTS)
        ensures c in d.Values
      {
        assert Used(d, c);
      }
      assert d.Values == Below(MAX_SLOTS);
    } else {
      var c: nat :| c < MAX_SLOTS && !Used(d, c);
      SubsetSize(d.Values, Below(MAX_SLOTS) - {c});
    }
  }

  // ----- The ledger file -----

  /** The scan for the lowest candidate that is not in use. */
  method FirstUnused(d: Ledger) returns (r: Option<nat>)
    ensures r.Some? ==> IsLeastFree(d, r.value)
    ensures r.None? ==> AllUsed(d)
  {
    var used := d.Values;
    for candidate := 0 to MAX_SLOTS
      invariant forall c: nat :: c < candidate ==> Used(d, c)
    {
      if candidate !in used {
        return Some(candidate);
      }
    }
    return None;
  }

  class IPAMLedger {
    /** What a load finds in the file. */
    var data: Ledger

    constructor ()
      ensures data == map[]
    {
      data := map[];
    }

    /** `busy` says that another process holds the lock at the moment of the attempt. */
    method Allocate(busy: bool, id: string) returns (r: SlotResult)
      modifies this
      ensures busy ==> r == LockBusy && data == old(data)
      ensures !busy ==> Answers(old(data), id, r) && data == After(old(data), id, r)
    {
      if busy {
        return LockBusy;
      }
      var loaded := data;
      if id in loaded {
        return Slot(loaded[id], true);
      }
      var candidate := FirstUnused(loaded);
      if candidate.Some? {
        data := loaded[id := candidate.value];
        return Slot(candidate.value, false);
      }
      return Exhausted;
    }

    method Release(busy: bool, id: string) returns (ok: bool)
      modifies this
      ensures ok == !busy
      ensures data == if busy then old(data) else old(data) - {id}
    {
      if busy {
        return false;
      }
      data := data - {id};
      return true;
    }

    /** Takes no lock and writes nothing. */
    method PeekNextSlot(id: string) returns (r: SlotResult)
      ensures Answers(data, id, r)
    {
      var loaded := data;
      if id in loaded {
        return Slot(loaded[id], true);
      }
      var candidate := FirstUnused(loaded);
      if candidate.Some? {
        return Slot(candidate.value, false);
      }
      return Exhausted;
    }
  }
}
