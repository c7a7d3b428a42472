/**
 Container ids and host ids: the ranges of a subordinate-id file, taken in order, are laid end to end from
 container id 1.
*/
module IdMaps {
  import opened Options

  datatype IdRange = IdRange(first: int, count: int)

  /** `NoRange` also stands for a user that does not exist. */
  datatype Mapping = Mapped(id: int) | NoRange | OutOfRange

  predicate NonNegative(rs: seq<IdRange>) { forall i :: 0 <= i < |rs| ==> rs[i].count >= 0 }

  predicate InRange(r: IdRange, h: int) { r.first <= h < r.first + r.count }

  /** How many container ids the ranges before `i` take up. */
  function Base(rs: seq<IdRange>, i: nat): int
    requires i <= |rs|
  {
    if i == 0 then 0 else Base(rs, i - 1) + rs[i - 1].count
  }

  function Total(rs: seq<IdRange>): int { Base(rs, |rs|) }

  /** Host id `h` is offset `h - first` of range `i`; this is its container id there. */
  function ContainerId(rs: seq<IdRange>, i: nat, h: int): int
    requires i < |rs|
  {
    Base(rs, i) + (h - rs[i].first) + 1
  }

  /** Container id `n` lies in range `i`, at host id `h`. */
  predicate Places(rs: seq<IdRange>, n: int, i: nat, h: int) {
    i < |rs| && InRange(rs[i], h) && n == ContainerId(rs, i, h)
  }

  /** Range `i` is the first that holds host id `h`. */
  predicate FirstHolding(rs: seq<IdRange>, i: nat, h: int) {
    i < |rs| && InRange(rs[i], h) && forall j :: 0 <= j < i ==> !InRange(rs[j], h)
  }

  lemma {:induction false} BaseGrows(rs: seq<IdRange>, i: nat, j: nat)
    requires NonNegative(rs) && i <= j <= |rs|
    ensures Base(rs, i) <= Base(rs, j)
    decreases j
  {
    if i < j {
      BaseGrows(rs, i, j - 1);
    }
  }

  /** A container id is placed at most once. */
  lemma PlacedOnce(rs: seq<IdRange>, n: int, i: nat, h: int, j: nat, k: int)
    requires NonNegative(rs) && Places(rs, n, i, h) && Places(rs, n, j, k)
    ensures i == j && h == k
  {
    if i < j {
      BaseGrows(rs, i + 1, j);
    } else if j < i {
      BaseGrows(rs, j + 1, i);
    }
  }

  /** Every container id from 1 to the total is placed. */
  lemma {:induction false} PlacedSomewhere(rs: seq<IdRange>, n: int, limit: nat) returns (i: nat, h: int)
    requires NonNegative(rs) && limit <= |rs| && 1 <= n <= Base(rs, limit)
    ensures i < limit && Places(rs, n, i, h)
  {
    if n <= Base(rs, limit - 1) {
      i, h := PlacedSomewhere(rs, n, limit - 1);
    } else {
      i, h := limit - 1, rs[limit - 1].first + n - Base(rs, limit - 1) - 1;
    }
  }

  // ----- The maps -----

  /** Container id to host id: the primary id for 0, else a walk through the ranges. */
  method HostIdForInContainer(n: int, primary: Option<int>, rs: seq<IdRange>) returns (r: Mapping)
    ensures n == 0 ==> r == if primary.Some? then Mapped(primary.value) else NoRange
    ensures n < 0 ==> r == OutOfRange
    ensures n > 0 && rs == [] ==> r == NoRange
    ensures n > 0 && rs != [] && NonNegative(rs) ==> (r.Mapped? <==> n <= Total(rs)) && r != NoRange
    ensures n > 0 && NonNegative(rs) && r.Mapped? ==> exists i: nat :: Places(rs, n, i, r.id)
  {
    if n == 0 {
      return if primary.Some? then Mapped(primary.value) else NoRange;
    }
    if n < 0 {
      return OutOfRange;
    }
    if rs == [] {
      return NoRange;
    }
    var remaining := n;
    for i := 0 to |rs|
      invariant remaining == n - Base(rs, i)
      invariant NonNegative(rs) ==> remaining > 0
    {
      if remaining <= rs[i].count {
        if NonNegative(rs) {
          assert Places(rs, n, i, rs[i].first + remaining - 1);
          BaseGrows(rs, i + 1, |rs|);
        }
        return Mapped(rs[i].first + remaining - 1);
      }
      remaining := remaining - rs[i].count;
    }
    r := OutOfRange;
  }

  /** Host id to container id: the first range that holds it decides. */
  method InContainerIdForHostId(h: int, rs: seq<IdRange>) returns (r: Mapping)
    ensures r == NoRange <==> rs == []
    ensures r == OutOfRange <==> rs != [] && forall i :: 0 <= i < |rs| ==> !InRange(rs[i], h)
    ensures r.Mapped? ==> exists i: nat :: FirstHolding(rs, i, h) && r.id == ContainerId(rs, i, h)
  {
    if rs == [] {
      return NoRange;
    }
    var accumulated := 0;
    for i := 0 to |rs|
      invariant accumulated == Base(rs, i)
      invariant forall j :: 0 <= j < i ==> !InRange(rs[j], h)
    {
      var first, count := rs[i].first, rs[i].count;
      if first <= h && h < first + count {
        assert FirstHolding(rs, i, h);
        return Mapped(accumulated + (h - first) + 1);
      }
      accumulated := accumulated + count;
    }
    r := OutOfRange;
  }

  // ----- Round trips -----

  /**
   There and back from any host id in the ranges, overlapping or not: the container id computed for it is
   mapped to it, and to nothing else.
  */
  lemma {:induction false} HostRoundTrip(rs: seq<IdRange>, i: nat, h: int)
    requires NonNegative(rs) && FirstHolding(rs, i, h)
    ensures 1 <= ContainerId(rs, i, h) <= Total(rs) && Places(rs, ContainerId(rs, i, h), i, h)
    ensures forall j: nat, g :: Places(rs, ContainerId(rs, i, h), j, g) ==> g == h
  {
    BaseGrows(rs, 0, i);
    BaseGrows(rs, i + 1, |rs|);
    forall j: nat, g | Places(rs, ContainerId(rs, i, h), j, g)
      ensures g == h
    {
      PlacedOnce(rs, ContainerId(rs, i, h), i, h, j, g);
    }
  }

  ghost predicate Disjoint(rs: seq<IdRange>) {
    forall i, j, h :: 0 <= i < j < |rs| && InRange(rs[i], h) ==> !InRange(rs[j], h)
  }

  /** Container id `n` comes back as itself: the first range that holds its host id is the one that placed it. */
  ghost predicate ComesBack(rs: seq<IdRange>, n: int) {
    exists i: nat, h :: Places(rs, n, i, h) && FirstHolding(rs, i, h)
  }

  /** There and back from the container side is the identity on all of 1..total exactly when no two ranges meet. */
  lemma {:induction false} ContainerRoundTripIff(rs: seq<IdRange>)
    requires NonNegative(rs)
    ensures (forall n :: 1 <= n <= Total(rs) ==> ComesBack(rs, n)) <==> Disjoint(rs)
  {
    if Disjoint(rs) {
      forall n | 1 <= n <= Total(rs)
        ensures ComesBack(rs, n)
      {
        var i, h := PlacedSomewhere(rs, n, |rs|);
        assert FirstHolding(rs, i, h);
      }
    } else {
      var i, j, h :| 0 <= i < j < |rs| && InRange(rs[i], h) && InRange(rs[j], h);
      Overlap(rs, i, j, h);
    }
  }

  lemma Overlap(rs: seq<IdRange>, i: nat, j: nat, h: int)
    requires NonNegative(rs) && i < j < |rs| && InRange(rs[i], h) && InRange(rs[j], h)
    ensures 1 <= ContainerId(rs, j, h) <= Total(rs) && !ComesBack(rs, ContainerId(rs, j, h))
  {
    var n := ContainerId(rs, j, h);
    BaseGrows(rs, 0, j);
    BaseGrows(rs, j + 1, |rs|);
    forall k: nat, g | Places(rs, n, k, g)
      ensures !FirstHolding(rs, k, g)
    {
      PlacedOnce(rs, n, k, g, j, h);
    }
  }

  /** `ComesBack` is what the two maps compute: `n` to host id `h`, and `h` by its first range `j`. */
  lemma {:induction false} ComesBackIff(rs: seq<IdRange>, n: int, i: nat, h: int, j: nat)
    requires NonNegative(rs) && Places(rs, n, i, h) && FirstHolding(rs, j, h)
    ensures ContainerId(rs, j, h) == n <==> ComesBack(rs, n)
  {
    if ContainerId(rs, j, h) == n {
      assert Places(rs, n, j, h);
    }
    forall k: nat, g | Places(rs, n, k, g) && FirstHolding(rs, k, g)
      ensures ContainerId(rs, j, h) == n
    {
      PlacedOnce(rs, n, k, g, i, h);
      assert k == j;
    }
  }

  // ----- The recommended group id -----

  /** Container id `n` is high enough and its host gid is free. */
  predicate Suits(rs: seq<IdRange>, used: set<int>, min: int, n: int, i: nat, h: int) {
    n >= min && Places(rs, n, i, h) && h !in used
  }

  /** No container id up to `limit` suits. */
  ghost predicate NoneSuits(rs: seq<IdRange>, used: set<int>, min: int, limit: int) {
    forall n, i: nat, h :: n <= limit ==> !Suits(rs, used, min, n, i, h)
  }

  /** The free host gid with the least container id that is at least `min`, if there is one. */
  method RecommendGid(rs: seq<IdRange>, used: set<int>, min: int) returns (r: Mapping)
    ensures r == NoRange <==> rs == []
    ensures NonNegative(rs) && r.Mapped? ==>
              exists n, i: nat :: Suits(rs, used, min, n, i, r.id) && NoneSuits(rs, used, min, n - 1)
    ensures NonNegative(rs) && r == OutOfRange ==> NoneSuits(rs, used, min, Total(rs))
  {
    if rs == [] {
      return NoRange;
    }
    if NonNegative(rs) {
      NothingBelowOne(rs, used, min);
    }
    var accumulated := 0;
    for i := 0 to |rs|
      invariant accumulated == Base(rs, i)
      invariant NonNegative(rs) ==> NoneSuits(rs, used, min, accumulated)
    {
      var first, count := rs[i].first, rs[i].count;
      var offset := 0;
      while offset < count
        invariant 0 <= offset && (NonNegative(rs) ==> offset <= count)
        invariant NonNegative(rs) ==> NoneSuits(rs, used, min, accumulated + offset)
        decreases count - offset
      {
        var inContainer, hostGid := accumulated + offset + 1, first + offset;
        if NonNegative(rs) {
          OneMoreId(rs, used, min, i, hostGid);
        }
        if inContainer >= min && hostGid !in used {
          assert Suits(rs, used, min, inContainer, i, hostGid);
          return Mapped(hostGid);
        }
        offset := offset + 1;
      }
      accumulated := accumulated + count;
    }
    r := OutOfRange;
  }

  lemma NothingBelowOne(rs: seq<IdRange>, used: set<int>, min: int)
    requires NonNegative(rs)
    ensures NoneSuits(rs, used, min, 0)
  {
    forall n, i: nat, h | n <= 0
      ensures !Suits(rs, used, min, n, i, h)
    {
      if i < |rs| {
        BaseGrows(rs, 0, i);
      }
    }
  }

  lemma OneMoreId(rs: seq<IdRange>, used: set<int>, min: int, i: nat, h: int)
    requires NonNegative(rs) && i < |rs| && InRange(rs[i], h)
    requires NoneSuits(rs, used, min, ContainerId(rs, i, h) - 1)
    ensures ContainerId(rs, i, h) < min || h in used ==> NoneSuits(rs, used, min, ContainerId(rs, i, h))
  {
    var n := ContainerId(rs, i, h);
    assert Places(rs, n, i, h);
    if n < min || h in used {
      forall m, j: nat, g | m <= n
        ensures !Suits(rs, used, min, m, j, g)
      {
        if m == n && Places(rs, m, j, g) {
          PlacedOnce(rs, n, i, h, j, g);
        }
      }
    }
  }
}
