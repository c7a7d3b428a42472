/** Any sequence of provisionings, by either path and stopped anywhere, keeps different users apart. */
module SubidRuns {
  import opened IdMaps
  import opened SubidFiles
  import opened Subid

  lemma AddedEntryIsDisjoint(es: seq<Entry>, e: Entry, at: nat)
    requires CrossUserDisjoint(es) && at <= |es|
    requires forall i :: 0 <= i < |es| && es[i].user != e.user ==> !RangesOverlap(e.range, es[i].range)
    ensures CrossUserDisjoint(es[..at] + [e] + es[at..])
  {
    var fs := es[..at] + [e] + es[at..];
    forall i, j | 0 <= i < |fs| && 0 <= j < |fs| && fs[i].user != fs[j].user
      ensures !RangesOverlap(fs[i].range, fs[j].range)
    {
      var i', j' := if i <= at then i else i - 1, if j <= at then j else j - 1;
      assert i != at ==> fs[i] == es[i'];
      assert j != at ==> fs[j] == es[j'];
    }
  }

  lemma FreeMeetsNobody(f: Files, r: IdRange)
    requires IsLowestFree(Occupied(f), r)
    ensures forall i :: 0 <= i < |AllEntries(f)| ==> !RangesOverlap(r, AllEntries(f)[i].range)
  {
    forall i | 0 <= i < |AllEntries(f)|
      ensures !RangesOverlap(r, AllEntries(f)[i].range)
    {
      assert Occupied(f)[i] == AllEntries(f)[i].range;
    }
  }

  /** One provisioning, however far it got. */
  lemma {:induction false} ProvisioningKeepsDisjoint(f: Files, user: string, r: IdRange, progress: Progress)
    requires CrossUserDisjoint(AllEntries(f)) && IsLowestFree(Occupied(f), r)
    ensures CrossUserDisjoint(AllEntries(Provisioned(f, user, r, progress)))
  {
    FreeMeetsNobody(f, r);
    var e, es, n := Entry(user, r), AllEntries(f), |f.subuid|;
    var g := Files(Provisioned(f, user, r, progress).subuid, f.subgid);
    if g.subuid != f.subuid {
      AddedEntryIsDisjoint(es, e, n);
      assert AllEntries(g) == es[..n] + [e] + es[n..];
    }
    var h := Provisioned(f, user, r, progress);
    if h.subgid != f.subgid {
      var gs := AllEntries(g);
      assert forall i :: 0 <= i < |gs| ==> gs[i] == e || gs[i] in es;
      AddedEntryIsDisjoint(gs, e, |gs|);
      assert AllEntries(h) == gs[..|gs|] + [e] + gs[|gs|..];
    }
  }

  lemma {:induction false} OwnIsOwn(es: seq<Entry>, user: string, r: IdRange)
    ensures r in Own(es, user) <==> Entry(user, r) in es
  {
    if es != [] {
      var n := |es| - 1;
      OwnIsOwn(es[..n], user, r);
      assert es == es[..n] + [es[n]];
    }
  }

  /** While different users' ranges are disjoint, nobody's status is `Overlapping`. */
  lemma DisjointNeverOverlapping(f: Files, user: string)
    requires CrossUserDisjoint(AllEntries(f))
    ensures StatusOf(f, user) != Overlapping
  {
    var own, es := Own(f.subuid, user) + Own(f.subgid, user), AllEntries(f);
    forall i, j | 0 <= i < |own| && 0 <= j < |es| && es[j].user != user
      ensures !RangesOverlap(own[i], es[j].range)
    {
      OwnIsOwn(f.subuid, user, own[i]);
      OwnIsOwn(f.subgid, user, own[i]);
      assert own[i] in Own(f.subuid, user) || own[i] in Own(f.subgid, user);
      assert Entry(user, own[i]) in es;
      var k :| 0 <= k < |es| && es[k] == Entry(user, own[i]);
    }
  }

  /** `Overlapping` is reported for some user as soon as users meet and each has enough ids. */
  lemma {:induction false} OverlapIsReported(f: Files, i: nat, j: nat)
    requires i < |AllEntries(f)| && j < |AllEntries(f)| && AllEntries(f)[i].user != AllEntries(f)[j].user
    requires RangesOverlap(AllEntries(f)[i].range, AllEntries(f)[j].range)
    ensures StatusOf(f, AllEntries(f)[i].user) in {Overlapping, Inadequate}
  {
    var e := AllEntries(f)[i];
    assert e in f.subuid || e in f.subgid;
    OwnIsOwn(f.subuid, e.user, e.range);
    OwnIsOwn(f.subgid, e.user, e.range);
    var own := Own(f.subuid, e.user) + Own(f.subgid, e.user);
    assert e.range in own;
    var k :| 0 <= k < |own| && own[k] == e.range;
    assert Meets(AllEntries(f), own, e.user);
  }

  // ----- Runs -----

  datatype Provisioning = Provisioning(user: string, viaPhase: bool, progress: Progress)

  /** One provisioning by either path. */
  ghost predicate Step(f: Files, p: Provisioning, g: Files) {
    if p.viaPhase && StatusOf(f, p.user) != Absent then g == f
    else exists r :: IsLowestFree(Occupied(f), r) && g == Provisioned(f, p.user, r, p.progress)
  }

  ghost predicate Run(states: seq<Files>, steps: seq<Provisioning>) {
    && |states| == |steps| + 1
    && forall i :: 0 <= i < |steps| ==> Step(states[i], steps[i], states[i + 1])
  }

  /** From files in which different users are apart, no run ever makes anyone's status `Overlapping`. */
  lemma {:induction false} NeverOverlapping(states: seq<Files>, steps: seq<Provisioning>, n: nat)
    requires Run(states, steps) && n < |states| && CrossUserDisjoint(AllEntries(states[0]))
    ensures CrossUserDisjoint(AllEntries(states[n]))
    ensures forall user :: StatusOf(states[n], user) != Overlapping
  {
    if n > 0 {
      NeverOverlapping(states, steps, n - 1);
      var f, p, g := states[n - 1], steps[n - 1], states[n];
      assert Step(f, p, g);
      if !(p.viaPhase && StatusOf(f, p.user) != Absent) {
        var r :| IsLowestFree(Occupied(f), r) && g == Provisioned(f, p.user, r, p.progress);
        ProvisioningKeepsDisjoint(f, p.user, r, p.progress);
      }
    }
    forall user
      ensures StatusOf(states[n], user) != Overlapping
    {
      DisjointNeverOverlapping(states[n], user);
    }
  }

  // ----- What the phase achieves -----

  /** A user that was absent is adequate after a run of the phase that got to its end. */
  lemma {:induction false} ActMakesAdequate(f: Files, user: string, r: IdRange)
    requires CrossUserDisjoint(AllEntries(f)) && StatusOf(f, user) == Absent && IsLowestFree(Occupied(f), r)
    ensures StatusOf(Provisioned(f, user, r, Done), user) == Adequate
  {
    var g := Provisioned(f, user, r, Done);
    ProvisioningKeepsDisjoint(f, user, r, Done);
    DisjointNeverOverlapping(g, user);
    OwnAfterDone(f, user, r);
    SumOfOne(r);
    EnoughIsAdequate(g, user);
  }

  lemma OwnAfterDone(f: Files, user: string, r: IdRange)
    ensures var g := Provisioned(f, user, r, Done);
            && Own(g.subuid, user) == (if Own(f.subuid, user) == [] then [r] else Own(f.subuid, user))
            && Own(g.subgid, user) == if Own(f.subgid, user) == [] then [r] else Own(f.subgid, user)
  {
    OwnOfMore(f.subuid, Entry(user, r), user);
    OwnOfMore(f.subgid, Entry(user, r), user);
  }

  lemma EnoughIsAdequate(g: Files, user: string)
    requires StatusOf(g, user) != Overlapping
    requires Own(g.subuid, user) != [] && !TooSmall(Own(g.subuid, user))
    requires Own(g.subgid, user) != [] && !TooSmall(Own(g.subgid, user))
    ensures StatusOf(g, user) == Adequate
  {}

  lemma SumOfOne(r: IdRange)
    ensures Sum([r]) == r.count
  {
    assert [r][..0] == [];
  }
}
