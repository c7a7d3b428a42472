/** Giving users blocks of subordinate ids: the block picker, and why users never come to share one. */
module Subid {
  import opened IdMaps
  import opened SubidFiles

  const SUBID_BASE := 100000
  const SUBID_RANGE_SIZE := 65536
  const MIN_SUBID_RANGE := SUBID_RANGE_SIZE

  // ----- The block picker -----

  function Block(k: nat): IdRange { IdRange(SUBID_BASE + k * SUBID_RANGE_SIZE, SUBID_RANGE_SIZE) }

  /** What is picked starts a multiple of 65536 above 100000, and no such block before it is free. */
  lemma {:induction false} LowestOfAll(occupied: seq<IdRange>, r: IdRange, k: nat)
    requires IsLowestFree(occupied, r) && IsFree(occupied, IdRange(100000 + 65536 * k, 65536))
    ensures r.first <= 100000 + 65536 * k
    ensures r.first >= 100000 && (r.first - 100000) % 65536 == 0 && r.count == 65536
  {
    var i: nat :| r == Block(i) && IsFree(occupied, Block(i)) && forall j: nat :: j < i ==> !IsFree(occupied, Block(j));
    assert Block(k) == IdRange(100000 + 65536 * k, 65536);
  }

  predicate IsFree(occupied: seq<IdRange>, r: IdRange) {
    forall i :: 0 <= i < |occupied| ==> !RangesOverlap(r, occupied[i])
  }

  /** The lowest aligned block that meets nothing occupied. */
  ghost predicate IsLowestFree(occupied: seq<IdRange>, r: IdRange) {
    exists k: nat ::
      r == Block(k) && IsFree(occupied, Block(k)) && forall j: nat :: j < k ==> !IsFree(occupied, Block(j))
  }

  /** No block from this number on can meet anything occupied: why the search ends. */
  ghost function Reach(occupied: seq<IdRange>): nat {
    if occupied == [] then 0
    else
      var last := occupied[|occupied| - 1];
      var rest := Reach(occupied[..|occupied| - 1]);
      if last.first + last.count > rest then last.first + last.count else rest
  }

  lemma {:induction false} ReachBounds(occupied: seq<IdRange>, i: nat)
    requires i < |occupied|
    ensures occupied[i].first + occupied[i].count <= Reach(occupied)
  {
    if i < |occupied| - 1 {
      ReachBounds(occupied[..|occupied| - 1], i);
    }
  }

  lemma {:induction false} MetBelowReach(occupied: seq<IdRange>, k: nat)
    requires !IsFree(occupied, Block(k))
    ensures k < Reach(occupied)
  {
    var i :| 0 <= i < |occupied| && RangesOverlap(Block(k), occupied[i]);
    ReachBounds(occupied, i);
  }

  method AnyOverlap(r: IdRange, occupied: seq<IdRange>) returns (any: bool)
    ensures any <==> !IsFree(occupied, r)
  {
    for i := 0 to |occupied|
      invariant forall j :: 0 <= j < i ==> !RangesOverlap(r, occupied[j])
    {
      if RangesOverlap(r, occupied[i]) {
        return true;
      }
    }
    return false;
  }

  method PickFreeSubidBlock(occupied: seq<IdRange>) returns (start: int, size: int)
    ensures IsLowestFree(occupied, IdRange(start, size))
  {
    var k: nat := 0;
    while true
      invariant forall j: nat :: j < k ==> !IsFree(occupied, Block(j))
      decreases Reach(occupied) - k
    {
      start := SUBID_BASE + k * SUBID_RANGE_SIZE;
      var met := AnyOverlap(IdRange(start, SUBID_RANGE_SIZE), occupied);
      assert IdRange(start, SUBID_RANGE_SIZE) == Block(k);
      if !met {
        return start, SUBID_RANGE_SIZE;
      }
      MetBelowReach(occupied, k);
      k := k + 1;
    }
  }

  // ----- The state of both files -----

  datatype Files = Files(subuid: seq<Entry>, subgid: seq<Entry>)

  function AllEntries(f: Files): seq<Entry> { f.subuid + f.subgid }

  function Occupied(f: Files): seq<IdRange> {
    seq(|AllEntries(f)|, i requires 0 <= i < |AllEntries(f)| => AllEntries(f)[i].range)
  }

  /** Different users' ranges never meet, in either file or across them. */
  ghost predicate CrossUserDisjoint(es: seq<Entry>) {
    forall i, j :: 0 <= i < |es| && 0 <= j < |es| && es[i].user != es[j].user ==>
      !RangesOverlap(es[i].range, es[j].range)
  }

  datatype Status = Adequate | Absent | Inadequate | Overlapping

  function Sum(rs: seq<IdRange>): int {
    if rs == [] then 0 else Sum(rs[..|rs| - 1]) + rs[|rs| - 1].count
  }

  /** Every range counts, wherever it stands. */
  lemma {:induction false} SumConcat(a: seq<IdRange>, b: seq<IdRange>)
    ensures Sum(a + b) == Sum(a) + Sum(b)
    ensures |b| == 1 ==> Sum(b) == b[0].count
  {
    if b == [] {
      assert a + b == a;
    } else {
      SumConcat(a, b[..|b| - 1]);
      assert (a + b)[..|a + b| - 1] == a + b[..|b| - 1];
    }
  }

  predicate TooSmall(rs: seq<IdRange>) { rs != [] && Sum(rs) < MIN_SUBID_RANGE }

  /** One of the user's own ranges meets another user's. */
  ghost predicate Meets(es: seq<Entry>, own: seq<IdRange>, user: string) {
    exists i, j :: 0 <= i < |own| && 0 <= j < |es| && es[j].user != user && RangesOverlap(own[i], es[j].range)
  }

  ghost function StatusOf(f: Files, user: string): Status {
    var uids, gids := Own(f.subuid, user), Own(f.subgid, user);
    if uids == [] && gids == [] then Absent
    else if TooSmall(uids) || TooSmall(gids) then Inadequate
    else if Meets(AllEntries(f), uids + gids, user) then Overlapping
    else if uids == [] || gids == [] then Absent
    else Adequate
  }

  predicate Enough(rs: seq<IdRange>) { rs != [] && Sum(rs) >= 65536 }

  /** The four answers, each by itself. */
  lemma {:induction false} StatusIff(f: Files, user: string)
    ensures var uids, gids := Own(f.subuid, user), Own(f.subgid, user);
            var shared := Meets(AllEntries(f), uids + gids, user);
            var small := (uids != [] && !Enough(uids)) || (gids != [] && !Enough(gids));
            && (StatusOf(f, user) == Adequate <==> Enough(uids) && Enough(gids) && !shared)
            && (StatusOf(f, user) == Inadequate <==> small)
            && (StatusOf(f, user) == Overlapping <==> !small && (uids != [] || gids != []) && shared)
            && (StatusOf(f, user) == Absent <==>
                (uids == [] && gids == []) || (!small && !shared && (uids == [] || gids == [])))
  {
    assert forall rs: seq<IdRange> :: TooSmall(rs) <==> rs != [] && !Enough(rs);
  }

  method SumCounts(rs: seq<IdRange>) returns (total: int)
    ensures total == Sum(rs)
  {
    total := 0;
    for i := 0 to |rs|
      invariant total == Sum(rs[..i])
    {
      assert rs[..i + 1][..i] == rs[..i];
      total := total + rs[i].count;
    }
    assert rs[..|rs|] == rs;
  }

  method Foreign(es: seq<Entry>, user: string) returns (foreign: seq<IdRange>)
    ensures forall r :: r in foreign <==> exists j :: 0 <= j < |es| && es[j].user != user && es[j].range == r
  {
    foreign := [];
    for i := 0 to |es|
      invariant forall r :: r in foreign <==> exists j :: 0 <= j < i && es[j].user != user && es[j].range == r
    {
      if es[i].user != user {
        foreign := foreign + [es[i].range];
      }
    }
  }

  method CrossUserOverlap(f: Files, user: string) returns (found: bool)
    ensures found <==> Meets(AllEntries(f), Own(f.subuid, user) + Own(f.subgid, user), user)
  {
    var own := Own(f.subuid, user) + Own(f.subgid, user);
    if own == [] {
      return false;
    }
    var foreign := Foreign(AllEntries(f), user);
    for i := 0 to |own|
      invariant forall k, r :: 0 <= k < i && r in foreign ==> !RangesOverlap(own[k], r)
    {
      for j := 0 to |foreign|
        invariant forall k :: 0 <= k < j ==> !RangesOverlap(own[i], foreign[k])
      {
        if RangesOverlap(own[i], foreign[j]) {
          assert foreign[j] in foreign;
          return true;
        }
      }
    }
    forall k, j | 0 <= k < |own| && 0 <= j < |AllEntries(f)| && AllEntries(f)[j].user != user
      ensures !RangesOverlap(own[k], AllEntries(f)[j].range)
    {
      assert AllEntries(f)[j].range in foreign;
    }
    return false;
  }

  method SubidStatus(f: Files, user: string) returns (status: Status)
    ensures status == StatusOf(f, user)
  {
    var uids, gids := Own(f.subuid, user), Own(f.subgid, user);
    if uids == [] && gids == [] {
      return Absent;
    }
    var total := SumCounts(uids);
    if uids != [] && !(total >= MIN_SUBID_RANGE) {
      return Inadequate;
    }
    total := SumCounts(gids);
    if gids != [] && !(total >= MIN_SUBID_RANGE) {
      return Inadequate;
    }
    var overlap := CrossUserOverlap(f, user);
    if overlap {
      return Overlapping;
    }
    if uids == [] || gids == [] {
      return Absent;
    }
    return Adequate;
  }

  // ----- The two setup paths -----

  /** How far a run gets before it stops: before the first append, between the two, or to the end. */
  datatype Progress = Early | Between | Done

  /** The files after giving `user` the block `r`, in each file where it has nothing. */
  function Provisioned(f: Files, user: string, r: IdRange, progress: Progress): Files {
    Files(if Own(f.subuid, user) == [] && progress != Early then f.subuid + [Entry(user, r)] else f.subuid,
          if Own(f.subgid, user) == [] && progress == Done then f.subgid + [Entry(user, r)] else f.subgid)
  }

  /** Up to the first append nothing has changed, up to the second only the user ids, and at the end both. */
  lemma {:induction false} ProvisionedInSteps(f: Files, user: string, r: IdRange)
    ensures Provisioned(f, user, r, Early) == f
    ensures Provisioned(f, user, r, Between) ==
            f.(subuid := if Own(f.subuid, user) == [] then f.subuid + [Entry(user, r)] else f.subuid)
    ensures Provisioned(f, user, r, Done) ==
            Provisioned(f, user, r, Between).(
              subgid := if Own(f.subgid, user) == [] then f.subgid + [Entry(user, r)] else f.subgid)
  {}

  class Host {
    var files: Files

    constructor (f: Files)
      ensures files == f
    {
      files := f;
    }

    /** `usermod --add-subuids lo-hi user` */
    method AddSubuids(lo: int, hi: int, user: string)
      modifies this
      ensures files == old(files).(subuid := old(files).subuid + [Entry(user, IdRange(lo, hi - lo + 1))])
    {
      files := files.(subuid := files.subuid + [Entry(user, IdRange(lo, hi - lo + 1))]);
    }

    /** `usermod --add-subgids lo-hi user` */
    method AddSubgids(lo: int, hi: int, user: string)
      modifies this
      ensures files == old(files).(subgid := old(files).subgid + [Entry(user, IdRange(lo, hi - lo + 1))])
    {
      files := files.(subgid := files.subgid + [Entry(user, IdRange(lo, hi - lo + 1))]);
    }

    /** The batch path: append where there is nothing, with a block picked up front. */
    method ApplySubid(operator: string, progress: Progress) returns (ghost block: IdRange)
      modifies this
      ensures IsLowestFree(Occupied(old(files)), block)
      ensures files == Provisioned(old(files), operator, block, progress)
    {
      var start, size := PickFreeSubidBlock(Occupied(files));
      block := IdRange(start, size);
      if progress == Early {
        return;
      }
      if Own(files.subuid, operator) == [] {
        AddSubuids(start, start + size - 1, operator);
      }
      if progress == Between {
        return;
      }
      if Own(files.subgid, operator) == [] {
        AddSubgids(start, start + size - 1, operator);
      }
    }

    /** The subid steps of the phase: only an absent user is given anything; a corrupt state is refused. */
    method Act(user: string, progress: Progress) returns (refused: bool, ghost block: IdRange)
      modifies this
      ensures refused <==> StatusOf(old(files), user).Inadequate? || StatusOf(old(files), user).Overlapping?
      ensures StatusOf(old(files), user) != Absent ==> files == old(files)
      ensures StatusOf(old(files), user) == Absent ==>
                IsLowestFree(Occupied(old(files)), block) && files == Provisioned(old(files), user, block, progress)
    {
      block := IdRange(0, 0);
      var status := SubidStatus(files, user);
      if status == Inadequate || status == Overlapping {
        return true, block;
      }
      refused := false;
      if status == Absent {
        block := ApplySubid(user, progress);
      }
    }
  }
}
