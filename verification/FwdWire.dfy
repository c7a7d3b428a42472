/** The wire of the `fwd` operation: `--project` and `--ip`, each exactly once. */
module FwdWire {
  import opened Options
  import opened Wire

  datatype FwdRequest = FwdRequest(project: string, ip: string)

  ghost predicate FwdLegal(ts: seq<Token>) {
    && (forall i :: 0 <= i < |ts| ==> ts[i].Pair? && ts[i].flag in {Project, Ip})
    && |Values(ts, Project)| <= 1 && |Values(ts, Ip)| <= 1
  }

  /** What a `fwd` wire means, if it means anything. */
  ghost function FwdMeaning(wire: seq<string>): Option<FwdRequest> {
    if wire == [] then None
    else
      match Tokens(wire[1..], false)
      case None => None
      case Some(ts) =>
        if FwdLegal(ts) && Values(ts, Project) != [] && Values(ts, Ip) != [] then
          Some(FwdRequest(Values(ts, Project)[0], Values(ts, Ip)[0]))
        else None
  }

  datatype FwdVars = FwdVars(project: Option<string>, ip: Option<string>)

  ghost function FwdTake(v: FwdVars, t: Token): Option<FwdVars> {
    if t.Lone? then None
    else
      match t.flag
      case Project => if v.project.Some? then None else Some(v.(project := Some(t.value)))
      case Ip => if v.ip.Some? then None else Some(v.(ip := Some(t.value)))
      case _ => None
  }

  ghost predicate FwdState(rest: seq<string>, i: nat, ts: seq<Token>, v: FwdVars) {
    && ReadSoFar(rest, i, false, ts) && FwdLegal(ts)
    && v == FwdVars(First(Values(ts, Project)), First(Values(ts, Ip)))
  }

  lemma FwdIllegalIsMeaningless(wire: seq<string>, i: nat, ts: seq<Token>)
    requires wire != [] && ReadSoFar(wire[1..], i, false, ts) && !FwdLegal(ts)
    ensures FwdMeaning(wire) == None
  {
    if Tokens(wire[1..], false).Some? {
      var more := Tokens(wire[1..][i..], false).value;
      if FwdLegal(ts + more) {
        FwdLegalPrefix(ts, more);
      }
    }
  }

  lemma FwdLegalPrefix(ts: seq<Token>, more: seq<Token>)
    requires FwdLegal(ts + more)
    ensures FwdLegal(ts)
  {
    ValuesOfMore(ts, more, Project);
    ValuesOfMore(ts, more, Ip);
    forall i | 0 <= i < |ts|
      ensures ts[i].Pair? && ts[i].flag in {Project, Ip}
    {
      assert (ts + more)[i] == ts[i];
    }
  }

  lemma FwdTakeIsRight(wire: seq<string>, i: nat, ts: seq<Token>, v: FwdVars, t: Token, j: nat)
    requires wire != [] && FwdState(wire[1..], i, ts, v) && Reads(wire[1..], i, false, t, j)
    ensures FwdTake(v, t).Some? ==> FwdState(wire[1..], j, ts + [t], FwdTake(v, t).value)
    ensures FwdTake(v, t).None? ==> FwdMeaning(wire) == None
  {
    ReadOne(wire[1..], i, false, ts, t, j);
    if FwdTake(v, t).None? {
      assert (ts + [t])[|ts|] == t;
      FwdIllegalIsMeaningless(wire, j, ts + [t]);
    }
  }

  lemma FwdNoValue(wire: seq<string>, i: nat, ts: seq<Token>)
    requires wire != [] && ReadSoFar(wire[1..], i, false, ts) && i + 1 == |wire[1..]|
    ensures FwdMeaning(wire) == None
  {
    assert wire[1..][i..] == [wire[1..][i]];
  }

  lemma FwdNothingRead(rest: seq<string>)
    ensures FwdState(rest, 0, [], FwdVars(None, None))
  {
    assert rest[0..] == rest;
    if Tokens(rest, false).Some? {
      assert [] + Tokens(rest, false).value == Tokens(rest, false).value;
    }
  }

  lemma FwdAllRead(wire: seq<string>, ts: seq<Token>, v: FwdVars)
    requires wire != [] && FwdState(wire[1..], |wire[1..]|, ts, v)
    ensures FwdMeaning(wire) ==
            if v.project.Some? && v.ip.Some? then Some(FwdRequest(v.project.value, v.ip.value)) else None
  {
    assert Tokens(wire[1..][|wire[1..]|..], false) == Some([]);
    assert ts + [] == ts;
  }

  /** The operator's parser. */
  method ParseFwdWire(wire: seq<string>) returns (r: Option<FwdRequest>)
    ensures r == FwdMeaning(wire)
  {
    if wire == [] {
      return None;
    }
    var rest := wire[1..];
    var project: Option<string>, ip: Option<string> := None, None;
    var i := 0;
    ghost var ts: seq<Token> := [];
    FwdNothingRead(rest);
    while i < |rest|
      invariant FwdState(rest, i, ts, FwdVars(project, ip))
    {
      var flag := rest[i];
      FlagIs(flag);
      if i + 1 >= |rest| {
        FwdNoValue(wire, i, ts);
        return None;
      }
      var value := rest[i + 1];
      FwdTakeIsRight(wire, i, ts, FwdVars(project, ip), Pair(FlagOf(flag), value), i + 2);
      ts := ts + [Pair(FlagOf(flag), value)];
      if flag == PROJECT {
        if project.Some? {
          return None;
        }
        project := Some(value);
      } else if flag == IP {
        if ip.Some? {
          return None;
        }
        ip := Some(value);
      } else {
        return None;
      }
      i := i + 2;
    }
    FwdAllRead(wire, ts, FwdVars(project, ip));
    if project.None? || ip.None? {
      return None;
    }
    r := Some(FwdRequest(project.value, ip.value));
  }

  ghost function GoFwdVars(project: string, ip: string, haveProject: bool, haveIp: bool): FwdVars {
    FwdVars(if haveProject then Some(project) else None, if haveIp then Some(ip) else None)
  }

  /** The dispatcher's parser. */
  method GoParseFwdWire(wire: seq<string>) returns (r: Option<FwdRequest>)
    ensures r == FwdMeaning(wire)
  {
    var project, ip := "", "";
    if |wire| == 0 {
      return None;
    }
    var rest := wire[1..];
    var haveProject, haveIp := false, false;
    var i := 0;
    ghost var ts: seq<Token> := [];
    ghost var vars := FwdVars(None, None);
    FwdNothingRead(rest);
    while i < |rest|
      invariant FwdState(rest, i, ts, vars) && vars == GoFwdVars(project, ip, haveProject, haveIp)
    {
      var flag := rest[i];
      FlagIs(flag);
      if i + 1 >= |rest| {
        FwdNoValue(wire, i, ts);
        return None;
      }
      var value := rest[i + 1];
      FwdTakeIsRight(wire, i, ts, vars, Pair(FlagOf(flag), value), i + 2);
      ghost var taken := FwdTake(vars, Pair(FlagOf(flag), value));
      ts := ts + [Pair(FlagOf(flag), value)];
      if flag == PROJECT {
        if haveProject {
          return None;
        }
        project, haveProject := value, true;
      } else if flag == IP {
        if haveIp {
          return None;
        }
        ip, haveIp := value, true;
      } else {
        return None;
      }
      vars := taken.value;
      i := i + 2;
    }
    FwdAllRead(wire, ts, vars);
    if !haveProject {
      return None;
    }
    if !haveIp {
      return None;
    }
    r := Some(FwdRequest(project, ip));
  }
}
