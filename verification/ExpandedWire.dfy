/** From the operator's request to the dispatcher's reading of it, through the shell. */
module ExpandedWire {
  import opened Options
  import opened Shell
  import opened Wire
  import opened FwdWire

  // ----- Expansion -----

  /** One `--compose-file` per file, in order. */
  function FileFlags(files: seq<string>): seq<string> {
    if files == [] then [] else FileFlags(files[..|files| - 1]) + [COMPOSE_FILE, files[|files| - 1]]
  }

  function Expanded(inst: string, cw: ComposeWire): seq<string> {
    [inst, PROJECT, cw.project, ENV_FILE, cw.envFile] + FileFlags(cw.files) + if cw.volumes then [VOLUMES] else []
  }

  method ExpandComposeWire(op: ComposeOp, inst: string, destroyVolumes: bool, project: string, files: seq<string>,
                           envFile: string)
    returns (wire: seq<string>)
    ensures wire == Expanded(inst, ComposeWire(project, envFile, files, op == Down && destroyVolumes))
  {
    wire := [inst, PROJECT, project, ENV_FILE, envFile];
    ghost var head := wire;
    for i := 0 to |files|
      invariant wire == head + FileFlags(files[..i])
    {
      assert files[..i + 1][..i] == files[..i];
      wire := wire + [COMPOSE_FILE, files[i]];
    }
    assert files[..|files|] == files;
    if op == Down && destroyVolumes {
      wire := wire + [VOLUMES];
    }
  }

  // ----- Reading it back -----

  function FileTokens(files: seq<string>): seq<Token> {
    seq(|files|, i requires 0 <= i < |files| => Pair(ComposeFile, files[i]))
  }

  lemma {:induction false} TokensOfMore(rest: seq<string>, more: seq<string>, lone: bool)
    requires Tokens(rest, lone).Some?
    ensures Tokens(rest + more, lone).Some? <==> Tokens(more, lone).Some?
    ensures Tokens(more, lone).Some? ==>
              Tokens(rest + more, lone).value == Tokens(rest, lone).value + Tokens(more, lone).value
  {
    if rest == [] {
      assert rest + more == more;
    } else {
      var alone := lone && FlagOf(rest[0]) == Volumes;
      var j, t := if alone then 1 else 2, if alone then Lone else Pair(FlagOf(rest[0]), rest[1]);
      OneToken(rest, lone, t, j);
      OneToken(rest + more, lone, t, j);
      assert (rest + more)[j..] == rest[j..] + more;
      TokensOfMore(rest[j..], more, lone);
      if Tokens(more, lone).Some? {
        Associate(t, Tokens(rest[j..], lone).value, Tokens(more, lone).value);
      }
    }
  }

  lemma OneToken(rest: seq<string>, lone: bool, t: Token, j: nat)
    requires Reads(rest, 0, lone, t, j)
    ensures Tokens(rest, lone).None? <==> Tokens(rest[j..], lone).None?
    ensures Tokens(rest, lone).Some? ==> Tokens(rest, lone).value == [t] + Tokens(rest[j..], lone).value
  {}

  lemma Associate(a: Token, b: seq<Token>, c: seq<Token>)
    ensures [a] + (b + c) == [a] + b + c
  {}

  lemma TokensOfPair(flag: string, value: string, lone: bool)
    requires FlagOf(flag) != Volumes
    ensures Tokens([flag, value], lone) == Some([Pair(FlagOf(flag), value)])
  {
    assert [flag, value][2..] == [];
    assert [Pair(FlagOf(flag), value)] + [] == [Pair(FlagOf(flag), value)];
  }

  lemma {:induction false} TokensOfFiles(files: seq<string>)
    ensures Tokens(FileFlags(files), true) == Some(FileTokens(files))
  {
    if files == [] {
      assert FileTokens(files) == [];
    } else {
      var n := |files| - 1;
      TokensOfFiles(files[..n]);
      FlagNames();
      TokensOfPair(COMPOSE_FILE, files[n], true);
      TokensOfMore(FileFlags(files[..n]), [COMPOSE_FILE, files[n]], true);
      assert FileTokens(files) == FileTokens(files[..n]) + [Pair(ComposeFile, files[n])];
    }
  }

  lemma {:induction false} ValuesOfFiles(files: seq<string>)
    ensures Values(FileTokens(files), ComposeFile) == files
    ensures Values(FileTokens(files), Project) == [] && Values(FileTokens(files), EnvFile) == []
    ensures Lones(FileTokens(files)) == 0
  {
    if files != [] {
      var n := |files| - 1;
      ValuesOfFiles(files[..n]);
      assert FileTokens(files)[..n] == FileTokens(files[..n]);
      assert files == files[..n] + [files[n]];
    }
  }

  /** The tokens of an expanded request. */
  function RequestTokens(cw: ComposeWire): seq<Token> {
    [Pair(Project, cw.project), Pair(EnvFile, cw.envFile)] + (FileTokens(cw.files) + if cw.volumes then [Lone] else [])
  }

  lemma TokensOfExpanded(inst: string, cw: ComposeWire)
    ensures Tokens(Expanded(inst, cw)[1..], true) == Some(RequestTokens(cw))
  {
    var tail := FileFlags(cw.files) + if cw.volumes then [VOLUMES] else [];
    var rest := Expanded(inst, cw)[1..];
    assert rest == [PROJECT, cw.project] + ([ENV_FILE, cw.envFile] + tail);
    FlagNames();
    TokensOfTail(cw);
    TokensOfPair(ENV_FILE, cw.envFile, true);
    TokensOfMore([ENV_FILE, cw.envFile], tail, true);
    TokensOfPair(PROJECT, cw.project, true);
    TokensOfMore([PROJECT, cw.project], [ENV_FILE, cw.envFile] + tail, true);
    Regroup(Pair(Project, cw.project), Pair(EnvFile, cw.envFile),
            FileTokens(cw.files) + if cw.volumes then [Lone] else []);
  }

  lemma Regroup(a: Token, b: Token, c: seq<Token>)
    ensures [a] + ([b] + c) == [a, b] + c
  {}

  lemma TokensOfTail(cw: ComposeWire)
    ensures Tokens(FileFlags(cw.files) + if cw.volumes then [VOLUMES] else [], true) ==
            Some(FileTokens(cw.files) + if cw.volumes then [Lone] else [])
  {
    FlagNames();
    TokensOfFiles(cw.files);
    var last := if cw.volumes then [VOLUMES] else [];
    assert [VOLUMES][1..] == [] && [Lone] + [] == [Lone];
    TokensOfMore(FileFlags(cw.files), last, true);
  }

  lemma ValuesOfRequest(cw: ComposeWire)
    ensures Values(RequestTokens(cw), Project) == [cw.project] && Values(RequestTokens(cw), EnvFile) == [cw.envFile]
    ensures Values(RequestTokens(cw), ComposeFile) == cw.files
    ensures Lones(RequestTokens(cw)) == if cw.volumes then 1 else 0
  {
    var a, b := Pair(Project, cw.project), Pair(EnvFile, cw.envFile);
    ValuesOfFiles(cw.files);
    ValuesAround(a, b, FileTokens(cw.files), cw.volumes, Project);
    ValuesAround(a, b, FileTokens(cw.files), cw.volumes, EnvFile);
    ValuesAround(a, b, FileTokens(cw.files), cw.volumes, ComposeFile);
  }

  lemma ValuesAround(a: Token, b: Token, files: seq<Token>, lone: bool, f: Flag)
    requires a.Pair? && b.Pair?
    ensures Values([a, b] + (files + if lone then [Lone] else []), f) ==
            (if a.flag == f then [a.value] else []) + (if b.flag == f then [b.value] else []) + Values(files, f)
    ensures Lones([a, b] + (files + if lone then [Lone] else [])) == Lones(files) + if lone then 1 else 0
  {
    var last := if lone then [Lone] else [];
    ValuesOfMore(files, last, f);
    LonesOfMore(files, last);
    ValuesOfMore([a, b], files + last, f);
    LonesOfMore([a, b], files + last);
    ValuesOfOne(Lone, f);
    ValuesOfTwo(a, b, f);
    assert Values(files, f) + [] == Values(files, f);
  }

  lemma ValuesOfTwo(a: Token, b: Token, f: Flag)
    ensures Values([a, b], f) == Values([a], f) + Values([b], f)
    ensures Values([a], f) == if a.Pair? && a.flag == f then [a.value] else []
    ensures Values([b], f) == if b.Pair? && b.flag == f then [b.value] else []
    ensures Lones([a, b]) == (if a.Lone? then 1 else 0) + if b.Lone? then 1 else 0
  {
    assert [a, b] == [a] + [b];
    ValuesOfMore([a], [b], f);
    LonesOfMore([a], [b]);
    ValuesOfOne(a, f);
    ValuesOfOne(b, f);
  }

  /** An expanded request means what was requested, whatever its strings hold. */
  lemma {:induction false} ExpandedMeaning(op: ComposeOp, inst: string, cw: ComposeWire)
    requires cw.files != [] && (cw.volumes ==> op == Down)
    ensures ComposeMeaning(op, Expanded(inst, cw)) == Some(cw)
  {
    TokensOfExpanded(inst, cw);
    ValuesOfRequest(cw);
    RequestIsLegal(op, cw);
    assert Expanded(inst, cw) != [];
  }

  lemma RequestIsLegal(op: ComposeOp, cw: ComposeWire)
    requires cw.volumes ==> op == Down
    ensures Legal(op, RequestTokens(cw))
  {
    ValuesOfRequest(cw);
    var ts := RequestTokens(cw);
    forall i | 0 <= i < |ts|
      ensures ts[i].Lone? || ts[i].flag in {Project, EnvFile, ComposeFile}
    {}
  }

  function ExpandedFwd(inst: string, project: string, ip: string): seq<string> {
    [inst, PROJECT, project, IP, ip]
  }

  lemma ExpandedFwdMeaning(inst: string, project: string, ip: string)
    ensures FwdMeaning(ExpandedFwd(inst, project, ip)) == Some(FwdRequest(project, ip))
  {
    assert ExpandedFwd(inst, project, ip)[1..] == [PROJECT, project] + [IP, ip];
    FwdTokens(project, ip);
    FwdTokensAreLegal(project, ip);
  }

  lemma FwdTokens(project: string, ip: string)
    ensures Tokens([PROJECT, project] + [IP, ip], false) == Some([Pair(Project, project), Pair(Ip, ip)])
  {
    FlagNames();
    TokensOfPair(PROJECT, project, false);
    TokensOfPair(IP, ip, false);
    TokensOfMore([PROJECT, project], [IP, ip], false);
    assert [Pair(Project, project)] + [Pair(Ip, ip)] == [Pair(Project, project), Pair(Ip, ip)];
  }

  lemma FwdTokensAreLegal(project: string, ip: string)
    ensures var ts := [Pair(Project, project), Pair(Ip, ip)];
            FwdLegal(ts) && Values(ts, Project) == [project] && Values(ts, Ip) == [ip]
  {
    var ts := [Pair(Project, project), Pair(Ip, ip)];
    ValuesOfTwo(ts[0], ts[1], Project);
    ValuesOfTwo(ts[0], ts[1], Ip);
  }

  // ----- Through the shell -----

  function OpName(op: ComposeOp): string {
    match op
    case Up => "compose-up"
    case Down => "compose-down"
    case Ps => "compose-ps"
  }

  lemma OpNamesAreSafe(op: ComposeOp)
    ensures AllSafe(OpName(op)) && OpName(op) != ""
  {}

  /**
   The dispatcher, started by the shell on the payload, reads exactly the project, env file, ordered compose
   files and volumes flag that were requested.
  */
  lemma {:induction false} ComposeThroughShell(op: ComposeOp, inst: string, cw: ComposeWire)
    requires cw.files != [] && (cw.volumes ==> op == Down)
    ensures var words := Split(Payload(DISPATCH_BINARY, OpName(op), Expanded(inst, cw)));
            && words.Some? && |words.value| > 2
            && words.value[..2] == [DISPATCH_BINARY, match op case Up => "compose-up" case Down => "compose-down"
                                                              case Ps => "compose-ps"]
            && words.value[2] == inst && ComposeMeaning(op, words.value[2..]) == Some(cw)
  {
    DispatchBinaryIsSafe();
    OpNamesAreSafe(op);
    PayloadSplits(DISPATCH_BINARY, OpName(op), Expanded(inst, cw));
    var words := [DISPATCH_BINARY, OpName(op)] + Expanded(inst, cw);
    assert words[2..] == Expanded(inst, cw);
    ExpandedMeaning(op, inst, cw);
  }

  lemma {:induction false} FwdThroughShell(inst: string, project: string, ip: string)
    ensures var words := Split(Payload(DISPATCH_BINARY, "fwd", ExpandedFwd(inst, project, ip)));
            && words.Some? && |words.value| > 2
            && words.value[..2] == [DISPATCH_BINARY, "fwd"]
            && words.value[2] == inst && FwdMeaning(words.value[2..]) == Some(FwdRequest(project, ip))
  {
    DispatchBinaryIsSafe();
    PayloadSplits(DISPATCH_BINARY, "fwd", ExpandedFwd(inst, project, ip));
    var words := [DISPATCH_BINARY, "fwd"] + ExpandedFwd(inst, project, ip);
    assert words[2..] == ExpandedFwd(inst, project, ip);
    ExpandedFwdMeaning(inst, project, ip);
  }
}
