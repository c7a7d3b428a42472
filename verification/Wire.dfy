/**
 The named-flag wire of the compose and `fwd` operations: the two parsers, the operator's and the
 dispatcher's, against one declarative reading of a flag list.
*/
module Wire {
  import opened Options

  datatype ComposeOp = Up | Down | Ps

  // ----- What a flag list says -----

  datatype Flag = Project | EnvFile | ComposeFile | Volumes | Ip | Unknown

  const PROJECT := "--project"
  const ENV_FILE := "--env-file"
  const COMPOSE_FILE := "--compose-file"
  const VOLUMES := "--volumes"
  const IP := "--ip"

  function FlagOf(s: string): Flag {
    if s == PROJECT then Project
    else if s == ENV_FILE then EnvFile
    else if s == COMPOSE_FILE then ComposeFile
    else if s == VOLUMES then Volumes
    else if s == IP then Ip
    else Unknown
  }

  lemma FlagNames()
    ensures FlagOf(PROJECT) == Project && FlagOf(ENV_FILE) == EnvFile && FlagOf(COMPOSE_FILE) == ComposeFile
    ensures FlagOf(VOLUMES) == Volumes && FlagOf(IP) == Ip
  {
    assert |PROJECT| == 9 && |ENV_FILE| == 10 && |COMPOSE_FILE| == 14 && |VOLUMES| == 9 && |IP| == 4;
    assert PROJECT[2] == 'p' && VOLUMES[2] == 'v';
  }

  lemma FlagIs(s: string)
    ensures FlagOf(s) == Project <==> s == PROJECT
    ensures FlagOf(s) == EnvFile <==> s == ENV_FILE
    ensures FlagOf(s) == ComposeFile <==> s == COMPOSE_FILE
    ensures FlagOf(s) == Volumes <==> s == VOLUMES
    ensures FlagOf(s) == Ip <==> s == IP
  {
    FlagNames();
  }

  /** A flag with its value, or the lone `--volumes` where the operation knows it. */
  datatype Token = Pair(flag: Flag, value: string) | Lone

  /** Reads the list two by two; `None` if the last flag has no value. */
  function Tokens(rest: seq<string>, lone: bool): Option<seq<Token>> {
    if rest == [] then Some([])
    else if lone && FlagOf(rest[0]) == Volumes then
      match Tokens(rest[1..], lone)
      case None => None
      case Some(more) => Some([Lone] + more)
    else if |rest| == 1 then None
    else
      match Tokens(rest[2..], lone)
      case None => None
      case Some(more) => Some([Pair(FlagOf(rest[0]), rest[1])] + more)
  }

  /** The values given for one flag, in order. */
  function Values(ts: seq<Token>, f: Flag): seq<string> {
    if ts == [] then []
    else
      var last := ts[|ts| - 1];
      Values(ts[..|ts| - 1], f) + if last.Pair? && last.flag == f then [last.value] else []
  }

  function Lones(ts: seq<Token>): nat {
    if ts == [] then 0 else Lones(ts[..|ts| - 1]) + if ts[|ts| - 1].Lone? then 1 else 0
  }

  lemma {:induction false} ValuesOfMore(ts: seq<Token>, more: seq<Token>, f: Flag)
    ensures Values(ts + more, f) == Values(ts, f) + Values(more, f)
  {
    if more == [] {
      assert ts + more == ts;
    } else {
      ValuesOfMore(ts, more[..|more| - 1], f);
      assert (ts + more)[..|ts + more| - 1] == ts + more[..|more| - 1];
    }
  }

  lemma {:induction false} LonesOfMore(ts: seq<Token>, more: seq<Token>)
    ensures Lones(ts + more) == Lones(ts) + Lones(more)
  {
    if more == [] {
      assert ts + more == ts;
    } else {
      LonesOfMore(ts, more[..|more| - 1]);
      assert (ts + more)[..|ts + more| - 1] == ts + more[..|more| - 1];
    }
  }

  lemma ValuesOfOne(t: Token, f: Flag)
    ensures Values([t], f) == if t.Pair? && t.flag == f then [t.value] else []
    ensures Lones([t]) == if t.Lone? then 1 else 0
  {
    assert [t][..0] == [];
  }

  // ----- The compose wire -----

  datatype ComposeWire = ComposeWire(project: string, envFile: string, files: seq<string>, volumes: bool)

  /** Only known flags, and `--volumes` only where it is allowed, at most once each but for `--compose-file`. */
  ghost predicate Legal(op: ComposeOp, ts: seq<Token>) {
    && (forall i :: 0 <= i < |ts| ==> ts[i].Lone? || ts[i].flag in {Project, EnvFile, ComposeFile})
    && |Values(ts, Project)| <= 1 && |Values(ts, EnvFile)| <= 1
    && Lones(ts) <= 1 && (Lones(ts) == 1 ==> op == Down)
  }

  /** What a compose wire means, if it means anything. */
  ghost function ComposeMeaning(op: ComposeOp, wire: seq<string>): Option<ComposeWire> {
    if wire == [] then None
    else
      match Tokens(wire[1..], true)
      case None => None
      case Some(ts) =>
        if Legal(op, ts) && Values(ts, Project) != [] && Values(ts, EnvFile) != [] && Values(ts, ComposeFile) != [] then
          Some(ComposeWire(Values(ts, Project)[0], Values(ts, EnvFile)[0], Values(ts, ComposeFile), Lones(ts) == 1))
        else None
  }

  /** The token at the front of the unread part, and the unread part after it. */
  predicate Reads(rest: seq<string>, i: nat, lone: bool, t: Token, j: nat) {
    && i < j <= |rest|
    && (if lone && FlagOf(rest[i]) == Volumes then t == Lone && j == i + 1
        else j == i + 2 && t == Pair(FlagOf(rest[i]), rest[i + 1]))
  }

  lemma TokensFrom(rest: seq<string>, i: nat, lone: bool, t: Token, j: nat)
    requires Reads(rest, i, lone, t, j)
    ensures Tokens(rest[i..], lone).None? <==> Tokens(rest[j..], lone).None?
    ensures Tokens(rest[i..], lone).Some? ==> Tokens(rest[i..], lone).value == [t] + Tokens(rest[j..], lone).value
  {
    var s := rest[i..];
    assert s[0] == rest[i] && s[1..] == rest[i + 1..];
    if j == i + 2 {
      assert s[1] == rest[i + 1] && s[2..] == rest[j..];
    }
  }

  /** `ts` are the tokens read from the first `i` words. */
  ghost predicate ReadSoFar(rest: seq<string>, i: nat, lone: bool, ts: seq<Token>) {
    && i <= |rest|
    && (Tokens(rest, lone).None? <==> Tokens(rest[i..], lone).None?)
    && (Tokens(rest, lone).Some? ==> Tokens(rest, lone).value == ts + Tokens(rest[i..], lone).value)
  }

  lemma ReadOne(rest: seq<string>, i: nat, lone: bool, ts: seq<Token>, t: Token, j: nat)
    requires ReadSoFar(rest, i, lone, ts) && Reads(rest, i, lone, t, j)
    ensures ReadSoFar(rest, j, lone, ts + [t])
    ensures forall f :: Values(ts + [t], f) == Values(ts, f) + if t.Pair? && t.flag == f then [t.value] else []
    ensures Lones(ts + [t]) == Lones(ts) + if t.Lone? then 1 else 0
  {
    TokensFrom(rest, i, lone, t, j);
    if Tokens(rest[j..], lone).Some? {
      assert ts + ([t] + Tokens(rest[j..], lone).value) == ts + [t] + Tokens(rest[j..], lone).value;
    }
    assert (ts + [t])[..|ts|] == ts;
  }

  // ----- The compose parsers -----

  function First(values: seq<string>): Option<string> {
    if values == [] then None else Some(values[0])
  }

  /** What a parser has collected. */
  datatype Vars = Vars(project: Option<string>, envFile: Option<string>, files: seq<string>, volumes: bool)

  /** One token, accepted or not. */
  ghost function Take(op: ComposeOp, v: Vars, t: Token): Option<Vars> {
    if t.Lone? then (if op != Down || v.volumes then None else Some(v.(volumes := true)))
    else
      match t.flag
      case Project => if v.project.Some? then None else Some(v.(project := Some(t.value)))
      case EnvFile => if v.envFile.Some? then None else Some(v.(envFile := Some(t.value)))
      case ComposeFile => Some(v.(files := v.files + [t.value]))
      case _ => None
  }

  /** What has been collected is what has been read so far, and all of it was legal. */
  ghost predicate ComposeState(op: ComposeOp, rest: seq<string>, i: nat, ts: seq<Token>, v: Vars) {
    && ReadSoFar(rest, i, true, ts) && Legal(op, ts)
    && v == Vars(First(Values(ts, Project)), First(Values(ts, EnvFile)), Values(ts, ComposeFile), Lones(ts) == 1)
  }

  lemma IllegalIsMeaningless(op: ComposeOp, wire: seq<string>, i: nat, ts: seq<Token>)
    requires wire != [] && ReadSoFar(wire[1..], i, true, ts) && !Legal(op, ts)
    ensures ComposeMeaning(op, wire) == None
  {
    if Tokens(wire[1..], true).Some? {
      var more := Tokens(wire[1..][i..], true).value;
      if Legal(op, ts + more) {
        LegalPrefix(op, ts, more);
      }
    }
  }

  lemma LegalPrefix(op: ComposeOp, ts: seq<Token>, more: seq<Token>)
    requires Legal(op, ts + more)
    ensures Legal(op, ts)
  {
    ValuesOfMore(ts, more, Project);
    ValuesOfMore(ts, more, EnvFile);
    LonesOfMore(ts, more);
    forall i | 0 <= i < |ts|
      ensures ts[i].Lone? || ts[i].flag in {Project, EnvFile, ComposeFile}
    {
      assert (ts + more)[i] == ts[i];
    }
  }

  /** Taking a token keeps the state; refusing one is right. */
  lemma TakeIsRight(op: ComposeOp, wire: seq<string>, i: nat, ts: seq<Token>, v: Vars, t: Token, j: nat)
    requires wire != [] && ComposeState(op, wire[1..], i, ts, v) && Reads(wire[1..], i, true, t, j)
    ensures Take(op, v, t).Some? ==> ComposeState(op, wire[1..], j, ts + [t], Take(op, v, t).value)
    ensures Take(op, v, t).None? ==> ComposeMeaning(op, wire) == None
  {
    ReadOne(wire[1..], i, true, ts, t, j);
    if Take(op, v, t).None? {
      assert (ts + [t])[|ts|] == t;
      IllegalIsMeaningless(op, wire, j, ts + [t]);
    }
  }

  lemma NoValueIsMeaningless(op: ComposeOp, wire: seq<string>, i: nat, ts: seq<Token>)
    requires wire != [] && ReadSoFar(wire[1..], i, true, ts)
    requires i + 1 == |wire[1..]| && FlagOf(wire[1..][i]) != Volumes
    ensures ComposeMeaning(op, wire) == None
  {
    assert wire[1..][i..] == [wire[1..][i]];
  }

  lemma NothingRead(op: ComposeOp, rest: seq<string>)
    ensures ComposeState(op, rest, 0, [], Vars(None, None, [], false))
  {
    assert rest[0..] == rest;
    if Tokens(rest, true).Some? {
      assert [] + Tokens(rest, true).value == Tokens(rest, true).value;
    }
  }

  /** When everything has been read, what was collected decides. */
  lemma AllRead(op: ComposeOp, wire: seq<string>, ts: seq<Token>, v: Vars)
    requires wire != [] && ComposeState(op, wire[1..], |wire[1..]|, ts, v)
    ensures ComposeMeaning(op, wire) ==
            if v.project.Some? && v.envFile.Some? && v.files != [] then
              Some(ComposeWire(v.project.value, v.envFile.value, v.files, v.volumes))
            else None
  {
    assert Tokens(wire[1..][|wire[1..]|..], true) == Some([]);
    assert ts + [] == ts;
  }

  /** The operator's parser. */
  method ParseComposeWire(op: ComposeOp, wire: seq<string>) returns (r: Option<ComposeWire>)
    ensures r == ComposeMeaning(op, wire)
  {
    if wire == [] {
      return None;
    }
    var rest := wire[1..];
    var project: Option<string>, envFile: Option<string> := None, None;
    var files: seq<string>, volumes := [], false;
    var i := 0;
    ghost var ts: seq<Token> := [];
    NothingRead(op, rest);
    while i < |rest|
      invariant ComposeState(op, rest, i, ts, Vars(project, envFile, files, volumes))
    {
      var flag := rest[i];
      FlagIs(flag);
      if flag == VOLUMES {
        TakeIsRight(op, wire, i, ts, Vars(project, envFile, files, volumes), Lone, i + 1);
        ts := ts + [Lone];
        if op != Down {
          return None;
        }
        if volumes {
          return None;
        }
        volumes := true;
        i := i + 1;
        continue;
      }
      if i + 1 >= |rest| {
        NoValueIsMeaningless(op, wire, i, ts);
        return None;
      }
      var value := rest[i + 1];
      TakeIsRight(op, wire, i, ts, Vars(project, envFile, files, volumes), Pair(FlagOf(flag), value), i + 2);
      ts := ts + [Pair(FlagOf(flag), value)];
      if flag == PROJECT {
        if project.Some? {
          return None;
        }
        project := Some(value);
      } else if flag == ENV_FILE {
        if envFile.Some? {
          return None;
        }
        envFile := Some(value);
      } else if flag == COMPOSE_FILE {
        files := files + [value];
      } else {
        return None;
      }
      i := i + 2;
    }
    AllRead(op, wire, ts, Vars(project, envFile, files, volumes));
    if project.None? || envFile.None? || files == [] {
      return None;
    }
    r := Some(ComposeWire(project.value, envFile.value, files, volumes));
  }

  /** `^[a-z0-9][a-z0-9_-]*$` */
  predicate IsProjectName(s: string) {
    s != "" && IsProjectStart(s[0]) && forall i :: 0 <= i < |s| ==> IsProjectChar(s[i])
  }

  predicate IsProjectStart(c: char) { 'a' <= c <= 'z' || '0' <= c <= '9' }

  predicate IsProjectChar(c: char) { IsProjectStart(c) || c == '_' || c == '-' }

  predicate HasSuffix(s: string, suffix: string) {
    |suffix| <= |s| && s[|s| - |suffix|..] == suffix
  }

  /** The dispatcher's rule for `--project`. */
  predicate ProjectFits(project: string, inst: string) {
    IsProjectName(project) && HasSuffix(project, "-" + inst)
  }

  /** The dispatcher accepts what has a meaning and a fitting project. */
  ghost function GoComposeMeaning(op: ComposeOp, wire: seq<string>): (r: Option<ComposeWire>)
    ensures r.Some? ==> r == ComposeMeaning(op, wire)
  {
    var cw := ComposeMeaning(op, wire);
    if cw.Some? && ProjectFits(cw.value.project, wire[0]) then cw else None
  }

  /** The dispatcher's parser: zero values and two flags in place of options, and the rule for the project. */
  method GoParseComposeWire(op: ComposeOp, wire: seq<string>) returns (ok: bool, cw: ComposeWire)
    ensures GoComposeMeaning(op, wire) == if ok then Some(cw) else None
  {
    cw := ComposeWire("", "", [], false);
    if |wire| == 0 {
      return false, cw;
    }
    var inst, rest := wire[0], wire[1..];
    var haveProject, haveEnv := false, false;
    var i := 0;
    ghost var ts: seq<Token> := [];
    ghost var vars := Vars(None, None, [], false);
    NothingRead(op, rest);
    while i < |rest|
      invariant ComposeState(op, rest, i, ts, vars) && vars == GoVars(cw, haveProject, haveEnv)
    {
      var flag := rest[i];
      FlagIs(flag);
      if flag == VOLUMES {
        TakeIsRight(op, wire, i, ts, vars, Lone, i + 1);
        ghost var taken := Take(op, vars, Lone);
        ts := ts + [Lone];
        if op != Down {
          return false, cw;
        }
        if cw.volumes {
          return false, cw;
        }
        cw := cw.(volumes := true);
        vars := taken.value;
        i := i + 1;
        continue;
      }
      if i + 1 >= |rest| {
        NoValueIsMeaningless(op, wire, i, ts);
        return false, cw;
      }
      var value := rest[i + 1];
      TakeIsRight(op, wire, i, ts, vars, Pair(FlagOf(flag), value), i + 2);
      ghost var taken := Take(op, vars, Pair(FlagOf(flag), value));
      ts := ts + [Pair(FlagOf(flag), value)];
      if flag == PROJECT {
        if haveProject {
          return false, cw;
        }
        cw, haveProject := cw.(project := value), true;
      } else if flag == ENV_FILE {
        if haveEnv {
          return false, cw;
        }
        cw, haveEnv := cw.(envFile := value), true;
      } else if flag == COMPOSE_FILE {
        cw := cw.(files := cw.files + [value]);
      } else {
        return false, cw;
      }
      vars := taken.value;
      i := i + 2;
    }
    AllRead(op, wire, ts, vars);
    if !haveProject || !haveEnv || |cw.files| == 0 {
      return false, cw;
    }
    ok := ProjectFits(cw.project, inst);
  }

  ghost function GoVars(cw: ComposeWire, haveProject: bool, haveEnv: bool): Vars {
    Vars(if haveProject then Some(cw.project) else None, if haveEnv then Some(cw.envFile) else None,
         cw.files, cw.volumes)
  }
}
