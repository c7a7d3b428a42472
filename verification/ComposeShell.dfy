/**
 What the shell makes of the compose command line.  The path operands stand in it without quotes, so the words
 that reach docker are the intended ones only for some paths: exactly which ones is proved here.
*/
module ComposeShell {
  import opened Options
  import opened Text
  import opened Shell
  import opened PlainWords
  import opened Paths
  import opened Wire
  import opened ComposeArgv
  import opened OperatorWire

  // ----- The intended words -----

  function FileWords(files: seq<string>): seq<string> {
    if files == [] then [] else ["-f", files[0]] + FileWords(files[1..])
  }

  function EnvWords(project: string): seq<string> {
    ["TERM=dumb", "NO_COLOR=1", "BUILDKIT_PROGRESS=plain", "COMPOSE_PROJECT_NAME=" + project, "docker", "compose"]
  }

  function OptionWords(op: ComposeOp, envFile: string): seq<string> {
    if op == Ps then ["--env-file", envFile, "--ansi", "never"] else ["--ansi", "never", "--env-file", envFile]
  }

  function VerbWords(op: ComposeOp, volumes: bool): seq<string> {
    match op
    case Up => ["up", "-d", "--build", "--wait"]
    case Down => if volumes then ["down", "-v"] else ["down"]
    case Ps => ["ps", "--format", "json"]
  }

  /** The assignments, docker, compose, each file after its flag, the options, and the operation's own verb. */
  function CommandWords(op: ComposeOp, cw: ComposeWire): seq<string> {
    EnvWords(cw.project) + (FileWords(cw.files) + (OptionWords(op, cw.envFile) + VerbWords(op, cw.volumes)))
  }

  // ----- The command line is these words, joined -----

  lemma {:induction false} JoinFiles(files: seq<string>)
    ensures JoinWithSpace(FileWords(files)) == JoinWithSpace(FileParts(files))
  {
    if files != [] {
      JoinFiles(files[1..]);
      assert FileParts(files) == ["-f " + files[0]] + FileParts(files[1..]);
      JoinPair("-f", files[0]);
      if |files| == 1 {
        assert FileWords(files) == ["-f", files[0]];
      } else {
        JoinConcat(["-f", files[0]], FileWords(files[1..]));
        assert "-f " + files[0] == "-f" + (" " + files[0]);
      }
    }
  }

  lemma JoinPair(a: string, b: string)
    ensures JoinWithSpace([a, b]) == a + (" " + b)
  {
    assert [a, b][1..] == [b];
  }

  lemma JoinFour(a: string, b: string, c: string, d: string)
    ensures JoinWithSpace([a, b, c, d]) == a + (" " + (b + (" " + (c + (" " + d)))))
  {
    JoinConcat([a, b], [c, d]);
    JoinPair(a, b);
    JoinPair(c, d);
    assert [a, b] + [c, d] == [a, b, c, d];
  }

  lemma AppendLast(a: string, b: string, c: string, d: string, p: string)
    ensures a + (" " + (b + (" " + (c + (" " + (d + p)))))) == a + (" " + (b + (" " + (c + (" " + d))))) + p
  {}

  lemma JoinEnv(project: string)
    ensures JoinWithSpace(EnvWords(project)) == ENV_PREFIX + project + (" " + JoinWithSpace(["docker", "compose"]))
  {
    var a := ["TERM=dumb", "NO_COLOR=1", "BUILDKIT_PROGRESS=plain", "COMPOSE_PROJECT_NAME=" + project];
    assert EnvWords(project) == a + ["docker", "compose"];
    JoinConcat(a, ["docker", "compose"]);
    JoinFour(a[0], a[1], a[2], a[3]);
    AppendLast("TERM=dumb", "NO_COLOR=1", "BUILDKIT_PROGRESS=plain", "COMPOSE_PROJECT_NAME=", project);
  }

  lemma JoinDocker()
    ensures " " + JoinWithSpace(["docker", "compose"]) == " docker compose"
  {
    JoinPair("docker", "compose");
  }

  lemma JoinUp()
    ensures JoinWithSpace(["up", "-d", "--build", "--wait"]) == "up -d --build --wait"
  {
    JoinFour("up", "-d", "--build", "--wait");
  }

  lemma JoinDown()
    ensures JoinWithSpace(["down", "-v"]) == "down -v" && JoinWithSpace(["down"]) == "down"
  {
    JoinPair("down", "-v");
  }

  lemma JoinPs()
    ensures JoinWithSpace(["ps", "--format", "json"]) == "ps --format json"
  {
    JoinConcat(["ps"], ["--format", "json"]);
    JoinPair("--format", "json");
    assert ["ps"] + ["--format", "json"] == ["ps", "--format", "json"];
  }

  lemma JoinVerb(op: ComposeOp, volumes: bool)
    ensures JoinWithSpace(VerbWords(op, volumes)) == Verb(op, volumes)
  {
    match op
    case Up => JoinUp();
    case Down => JoinDown();
    case Ps => JoinPs();
  }

  lemma EnvFileFirst(envFile: string)
    ensures " " + (JoinWithSpace(["--env-file", envFile, "--ansi", "never"]) + " ") ==
            " --env-file " + envFile + " --ansi never "
  {
    JoinFour("--env-file", envFile, "--ansi", "never");
    assert " --env-file " == " " + ("--env-file" + " ");
    assert " --ansi never " == " " + ("--ansi" + (" " + ("never" + " ")));
    Spread(" ", "--env-file", envFile, "--ansi", "never");
  }

  lemma EnvFileLast(envFile: string)
    ensures " " + (JoinWithSpace(["--ansi", "never", "--env-file", envFile]) + " ") ==
            " --ansi never --env-file " + envFile + " "
  {
    JoinFour("--ansi", "never", "--env-file", envFile);
    AnsiText();
    SpreadLast(" ", "--ansi", "never", "--env-file", envFile);
  }

  lemma AnsiText()
    ensures " --ansi never --env-file " == " " + ("--ansi" + (" " + ("never" + (" " + ("--env-file" + " ")))))
  {}

  lemma Spread(s: string, a: string, e: string, b: string, c: string)
    ensures s + (a + (s + (e + (s + (b + (s + c))))) + s) == s + (a + s) + e + (s + (b + (s + (c + s))))
  {}

  lemma SpreadLast(s: string, a: string, b: string, c: string, e: string)
    ensures s + (a + (s + (b + (s + (c + (s + e))))) + s) == s + (a + (s + (b + (s + (c + s))))) + e + s
  {}

  lemma JoinOptions(op: ComposeOp, envFile: string)
    ensures " " + (JoinWithSpace(OptionWords(op, envFile)) + " ") ==
            if op == Ps then " --env-file " + envFile + " --ansi never "
            else " --ansi never --env-file " + envFile + " "
  {
    EnvFileFirst(envFile);
    EnvFileLast(envFile);
  }

  lemma JoinGroups(a: seq<string>, b: seq<string>, c: seq<string>, d: seq<string>)
    requires a != [] && b != [] && c != [] && d != []
    ensures JoinWithSpace(a + (b + (c + d))) ==
            JoinWithSpace(a) + (" " + (JoinWithSpace(b) + (" " + (JoinWithSpace(c) + (" " + JoinWithSpace(d))))))
  {
    JoinConcat(c, d);
    JoinConcat(b, c + d);
    JoinConcat(a, b + (c + d));
  }

  lemma InnerText(op: ComposeOp, cw: ComposeWire)
    ensures Inner(op, cw) ==
            ENV_PREFIX + cw.project + (" docker compose" + " ") + JoinWithSpace(FileParts(cw.files)) +
            (" " + (JoinWithSpace(OptionWords(op, cw.envFile)) + " ")) + Verb(op, cw.volumes)
  {
    JoinOptions(op, cw.envFile);
    assert " docker compose" + " " == " docker compose ";
  }

  lemma InnerIsJoined(op: ComposeOp, cw: ComposeWire)
    requires cw.files != []
    ensures Inner(op, cw) == JoinWithSpace(CommandWords(op, cw))
  {
    var options := OptionWords(op, cw.envFile);
    JoinGroups(EnvWords(cw.project), FileWords(cw.files), options, VerbWords(op, cw.volumes));
    JoinEnv(cw.project);
    JoinDocker();
    JoinFiles(cw.files);
    JoinVerb(op, cw.volumes);
    InnerText(op, cw);
    Assemble(ENV_PREFIX + cw.project, " docker compose", JoinWithSpace(FileParts(cw.files)), JoinWithSpace(options),
             Verb(op, cw.volumes));
  }

  lemma Assemble(env: string, docker: string, files: string, options: string, verb: string)
    ensures env + (docker + " ") + files + (" " + (options + " ")) + verb ==
            env + docker + (" " + (files + (" " + (options + (" " + verb)))))
  {}

  // ----- Which words are plain -----

  lemma {:induction false} PlainFileWords(files: seq<string>)
    ensures AllPlainWords(FileWords(files)) <==> AllPlainWords(files)
  {
    if files != [] {
      PlainFileWords(files[1..]);
      PlainWordsConcat(["-f", files[0]], FileWords(files[1..]));
      PlainWordsConcat([files[0]], files[1..]);
      assert files == [files[0]] + files[1..];
      PlainPair("-f", files[0]);
      SafeWordIsPlain("-f");
      assert AllPlainWords([files[0]]) <==> IsPlainWord(files[0]);
    }
  }

  lemma PlainPair(a: string, b: string)
    ensures AllPlainWords([a, b]) <==> IsPlainWord(a) && IsPlainWord(b)
  {
    assert [a, b][0] == a && [a, b][1] == b;
  }

  lemma PlainFour(a: string, b: string, c: string, d: string)
    ensures AllPlainWords([a, b, c, d]) <==> IsPlainWord(a) && IsPlainWord(b) && IsPlainWord(c) && IsPlainWord(d)
  {
    PlainPair(a, b);
    PlainPair(c, d);
    PlainWordsConcat([a, b], [c, d]);
    assert [a, b] + [c, d] == [a, b, c, d];
  }

  lemma ProjectIsSafe(project: string)
    requires IsProjectName(project)
    ensures AllSafe(project) && project != ""
  {
    forall i | 0 <= i < |project|
      ensures IsSafe(project[i])
    {
      assert IsProjectChar(project[i]);
    }
  }

  lemma SettingsAreSafe()
    ensures AllSafe("TERM=dumb") && AllSafe("NO_COLOR=1")
  {}

  lemma ProgressIsSafe()
    ensures AllSafe("BUILDKIT_PROGRESS=plain")
  {}

  lemma ProjectKeyIsSafe()
    ensures AllSafe("COMPOSE_PROJECT_NAME=")
  {}

  lemma FixedWordsAreSafe()
    ensures AllSafe("docker") && AllSafe("compose") && AllSafe("--ansi") && AllSafe("never") && AllSafe("--env-file")
  {}

  lemma PlainEnv(project: string)
    requires IsProjectName(project)
    ensures AllPlainWords(EnvWords(project))
  {
    ProjectIsSafe(project);
    SettingsAreSafe();
    ProgressIsSafe();
    ProjectKeyIsSafe();
    FixedWordsAreSafe();
    SafeWordIsPlain("TERM=dumb");
    SafeWordIsPlain("NO_COLOR=1");
    SafeWordIsPlain("BUILDKIT_PROGRESS=plain");
    SafeWordIsPlain("COMPOSE_PROJECT_NAME=" + project);
    SafeWordIsPlain("docker");
    SafeWordIsPlain("compose");
  }

  lemma PlainOptions(op: ComposeOp, envFile: string)
    ensures AllPlainWords(OptionWords(op, envFile)) <==> IsPlainWord(envFile)
  {
    FixedWordsAreSafe();
    SafeWordIsPlain("--env-file");
    SafeWordIsPlain("--ansi");
    SafeWordIsPlain("never");
    PlainFour("--env-file", envFile, "--ansi", "never");
    PlainFour("--ansi", "never", "--env-file", envFile);
  }

  lemma PlainVerb(op: ComposeOp, volumes: bool)
    ensures AllPlainWords(VerbWords(op, volumes))
  {
    VerbsAreSafe(op, volumes);
    forall i | 0 <= i < |VerbWords(op, volumes)|
      ensures IsPlainWord(VerbWords(op, volumes)[i])
    {
      SafeWordIsPlain(VerbWords(op, volumes)[i]);
    }
  }

  lemma VerbsAreSafe(op: ComposeOp, volumes: bool)
    ensures forall i :: 0 <= i < |VerbWords(op, volumes)| ==>
              AllSafe(VerbWords(op, volumes)[i]) && VerbWords(op, volumes)[i] != ""
  {}

  lemma PlainCommand(op: ComposeOp, cw: ComposeWire)
    requires IsProjectName(cw.project)
    ensures AllPlainWords(CommandWords(op, cw)) <==> AllPlainWords(cw.files) && IsPlainWord(cw.envFile)
  {
    var options, verb := OptionWords(op, cw.envFile), VerbWords(op, cw.volumes);
    PlainEnv(cw.project);
    PlainFileWords(cw.files);
    PlainOptions(op, cw.envFile);
    PlainVerb(op, cw.volumes);
    PlainWordsConcat(options, verb);
    PlainWordsConcat(FileWords(cw.files), options + verb);
    PlainWordsConcat(EnvWords(cw.project), FileWords(cw.files) + (options + verb));
  }

  // ----- The theorems -----

  ghost predicate PlainPaths(cw: ComposeWire) { AllPlainWords(cw.files) && IsPlainWord(cw.envFile) }

  /**
   For a wire that the dispatcher accepts, the shell reads the intended words off the command line, path by path
   and nothing else, exactly when every path operand stands for itself without quotes.
  */
  lemma {:induction false} CommandIsReadIff(op: ComposeOp, wire: seq<string>)
    requires ComposeMeaning(op, wire).Some? && GoAccepts(ComposeMeaning(op, wire).value, wire[0])
    ensures var cw := ComposeMeaning(op, wire).value;
            PyComposeTarget(op, wire) == Some(["/bin/bash", "-c", Inner(op, cw)]) &&
            (Split(Inner(op, cw)) == Some(CommandWords(op, cw)) <==> PlainPaths(cw))
  {
    AcceptedIsReadIff(op, ComposeMeaning(op, wire).value, wire[0]);
    BashReads(Inner(op, ComposeMeaning(op, wire).value));
  }

  lemma AcceptedIsReadIff(op: ComposeOp, cw: ComposeWire, inst: string)
    requires cw.files != [] && GoAccepts(cw, inst)
    ensures Split(Inner(op, cw)) == Some(CommandWords(op, cw)) <==> PlainPaths(cw)
  {
    InnerIsJoined(op, cw);
    UnquotedIsReadIff(CommandWords(op, cw));
    PlainCommand(op, cw);
  }

  // ----- The operator's own requests -----

  lemma PlainJoin(dir: string, name: string)
    requires dir != "" && AllSafe(name)
    ensures IsPlainWord(JoinPath(dir, name)) <==> IsPlainWord(dir)
  {
    PlainBeforeSafe(dir, name);
    PlainBeforeSafe(dir, "/" + name);
  }

  lemma NamesAreSafe()
    ensures AllSafe(DOCKER) && AllSafe(EXTRAS) && AllSafe(COMPOSE_YML) && AllSafe(ENV_NAME) && AllSafe(INSTANCES)
  {}

  lemma PostgresIsSafe()
    ensures AllSafe(POSTGRES_YML)
  {}

  lemma FirecrawlIsSafe()
    ensures AllSafe(FIRECRAWL_YML)
  {}

  lemma PlainFiles(dir: string, settings: Settings, i: nat)
    requires dir != "" && i < |ComposeFiles(dir, settings)|
    ensures IsPlainWord(ComposeFiles(dir, settings)[i]) <==> IsPlainWord(dir)
  {
    NamesAreSafe();
    PostgresIsSafe();
    FirecrawlIsSafe();
    PlainJoin(dir, DOCKER);
    PlainJoin(JoinPath(dir, DOCKER), COMPOSE_YML);
    PlainJoin(JoinPath(dir, DOCKER), EXTRAS);
    PlainJoin(JoinPath(JoinPath(dir, DOCKER), EXTRAS), POSTGRES_YML);
    PlainJoin(JoinPath(JoinPath(dir, DOCKER), EXTRAS), FIRECRAWL_YML);
  }

  /** The home directory, given by its components, has a path that stands for itself. */
  predicate IsPlainHome(home: seq<string>) { home == [] || IsPlainWord(PathOf(home)) }

  lemma PlainInstanceDir(home: seq<string>, inst: string)
    requires IsProjectName(inst) && AllClean(home)
    ensures InstanceDir(home, inst) != ""
    ensures IsPlainWord(InstanceDir(home, inst)) <==> IsPlainHome(home)
  {
    ProjectIsSafe(inst);
    NamesAreSafe();
    InstancesIsClean();
    assert home + [INSTANCES, inst] == home + [INSTANCES] + [inst];
    PathOneMore(home + [INSTANCES], inst);
    PlainJoin(PathOf(home + [INSTANCES]), inst);
    if home == [] {
      assert home + [INSTANCES] == [INSTANCES];
      SafeWordIsPlain("/" + INSTANCES);
    } else {
      PathOneMore(home, INSTANCES);
      PlainJoin(PathOf(home), INSTANCES);
    }
  }

  /**
   For every instance, user and configuration the operator's compose command reaches docker as intended exactly
   when the path of the home directory stands for itself.
  */
  lemma {:induction false} OperatorCommandIsReadIff(
    op: ComposeOp, inst: string, username: string, home: seq<string>, settings: Settings, volumes: bool)
    requires IsInstanceName(inst) && ComposeProjectName(inst, username).Some? && AllClean(home)
    requires volumes ==> op == Down
    ensures var cw := OperatorCompose(inst, username, home, settings, volumes);
            Split(Inner(op, cw)) == Some(CommandWords(op, cw)) <==> IsPlainHome(home)
  {
    var cw := OperatorCompose(inst, username, home, settings, volumes);
    var dir := InstanceDir(home, inst);
    ProjectNameFits(inst, username);
    OperatorComposeIsAccepted(op, inst, username, home, settings, volumes);
    AcceptedIsReadIff(op, cw, inst);
    PlainInstanceDir(home, inst);
    NamesAreSafe();
    PlainJoin(dir, ENV_NAME);
    forall i | 0 <= i < |cw.files|
      ensures IsPlainWord(cw.files[i]) <==> IsPlainWord(dir)
    {
      PlainFiles(dir, settings, i);
    }
  }

  /** A clean home whose name holds a blank: the request is accepted, and the shell reads other words. */
  lemma {:induction false} BlankInHome(op: ComposeOp, inst: string, username: string, settings: Settings)
    requires IsInstanceName(inst) && ComposeProjectName(inst, username).Some?
    ensures var cw := OperatorCompose(inst, username, ["my home"], settings, false);
            GoAccepts(cw, inst) && Split(Inner(op, cw)) != Some(CommandWords(op, cw))
  {
    var home := ["my home"];
    assert PathOf(home)[3] == ' ' && !PlainAt(PathOf(home), 3);
    assert AllClean(home) by {
      assert IsCleanComponent("my home");
    }
    ProjectNameFits(inst, username);
    OperatorComposeIsAccepted(op, inst, username, home, settings, false);
    OperatorCommandIsReadIff(op, inst, username, home, settings, false);
  }

  /** A `}` with nothing to separate before it is an ordinary character, and the brace expansion ends at the next. */
  lemma {:induction false} BracesInHome(op: ComposeOp, inst: string, username: string, settings: Settings)
    requires IsInstanceName(inst) && ComposeProjectName(inst, username).Some?
    ensures var cw := OperatorCompose(inst, username, ["{a},b}"], settings, false);
            GoAccepts(cw, inst) && Split(Inner(op, cw)) != Some(CommandWords(op, cw))
  {
    var home := ["{a},b}"];
    assert PathOf(home) == "/{a},b}";
    BraceExpands("/{a},b}");
    assert AllClean(home) by {
      assert IsCleanComponent("{a},b}");
    }
    ProjectNameFits(inst, username);
    OperatorComposeIsAccepted(op, inst, username, home, settings, false);
    OperatorCommandIsReadIff(op, inst, username, home, settings, false);
  }

  lemma BraceExpands(w: string)
    requires w == "/{a},b}"
    ensures !IsPlainWord(w)
  {
    assert "/" + ("{a},b" + "}") == "/{a},b}";
    BetweenThem('/', "{a},b", '}');
    BraceWaitsInIt("{a},b");
    assert OpensBrace(w[..6]) && !PlainAt(w, 6);
  }

  lemma BetweenThem(a: char, s: string, b: char)
    ensures var w := [a] + (s + [b]); w[0] == a && w[..|s| + 1][1..] == s && w[|s| + 1] == b
  {}

  lemma BraceWaitsInIt(s: string)
    requires s == "{a},b"
    ensures BraceWaits(s, false)
  {
    var list := s[1..] + "}";
    assert list == "a},b}";
    assert BraceEnd(list, 2, 0, false) == BraceEnd(list, 3, 0, true) == BraceEnd(list, 4, 0, true) == Some(4);
    assert BraceEnd(list, 0, 0, false) == BraceEnd(list, 1, 0, false) == BraceEnd(list, 2, 0, false);
    assert s[1..][2..] == ",b" && HasComma(",b", 0);
    assert s[1..][1..] == "},b" && HasComma("},b", 0);
    assert IsBraceList(s[1..]);
  }

  /** A home named with characters that are special only elsewhere: `#`, `~`, a lone `[` and a lone `{`. */
  lemma {:induction false} SpecialElsewhereInHome(op: ComposeOp, inst: string, username: string, settings: Settings)
    requires IsInstanceName(inst) && ComposeProjectName(inst, username).Some?
    ensures var cw := OperatorCompose(inst, username, ["a#~[{"], settings, false);
            GoAccepts(cw, inst) && Split(Inner(op, cw)) == Some(CommandWords(op, cw))
  {
    var home := ["a#~[{"];
    LoneSpecials("/a#~[{");
    assert PathOf(home) == "/a#~[{";
    assert AllClean(home) by {
      assert IsCleanComponent("a#~[{");
    }
    ProjectNameFits(inst, username);
    OperatorComposeIsAccepted(op, inst, username, home, settings, false);
    OperatorCommandIsReadIff(op, inst, username, home, settings, false);
  }

  lemma LoneSpecials(w: string)
    requires w == "/a#~[{"
    ensures IsPlainWord(w)
  {
    assert !OpensTilde(w[..3]) by {
      assert w[..3][2] == '#';
    }
  }
}
