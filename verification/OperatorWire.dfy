/** Everything the operator's side puts on the wire passes the dispatcher's checks. */
module OperatorWire {
  import opened Options
  import opened Paths
  import opened Wire
  import opened FwdWire
  import opened ExpandedWire
  import opened ComposeArgv
  import opened FwdArgv
  import opened Subnets

  // ----- The project name -----

  function ToLower(c: char): char { if 'A' <= c <= 'Z' then (c as int + 32) as char else c }

  /** `re.sub("[^a-z0-9]", "-", username.lower())` */
  function Dashed(username: string): (s: string)
    ensures |s| == |username|
    ensures forall i :: 0 <= i < |s| ==> s[i] == '-' || IsProjectStart(s[i])
  {
    seq(|username|, i requires 0 <= i < |username| =>
      if IsProjectStart(ToLower(username[i])) then ToLower(username[i]) else '-')
  }

  function LeftStripped(s: string): string {
    if s != "" && s[0] == '-' then LeftStripped(s[1..]) else s
  }

  function RightStripped(s: string): string {
    if s != "" && s[|s| - 1] == '-' then RightStripped(s[..|s| - 1]) else s
  }

  function SanitizeDevUsername(username: string): string { RightStripped(LeftStripped(Dashed(username))) }

  /** `None` for the error on a username that sanitises to nothing. */
  function ComposeProjectName(inst: string, username: string): Option<string> {
    var s := SanitizeDevUsername(username);
    if s == "" then None else Some(s + "-" + inst)
  }

  predicate OfDashes(s: string) { forall i :: 0 <= i < |s| ==> s[i] == '-' || IsProjectStart(s[i]) }

  predicate OnlyDashes(s: string) { forall i :: 0 <= i < |s| ==> s[i] == '-' }

  lemma {:induction false} LeftStrippedIs(s: string) returns (i: nat)
    ensures i <= |s| && LeftStripped(s) == s[i..] && OnlyDashes(s[..i])
    ensures LeftStripped(s) != "" ==> LeftStripped(s)[0] != '-'
  {
    i := 0;
    if s != "" && s[0] == '-' {
      var k := LeftStrippedIs(s[1..]);
      i := k + 1;
      OneDashMore(s, k);
    }
  }

  lemma OneDashMore(s: string, k: nat)
    requires k < |s| && s[0] == '-' && OnlyDashes(s[1..][..k])
    ensures OnlyDashes(s[..k + 1]) && s[k + 1..] == s[1..][k..]
  {
    assert s[..k + 1] == [s[0]] + s[1..][..k];
  }

  lemma {:induction false} RightStrippedIs(s: string) returns (j: nat)
    ensures j <= |s| && RightStripped(s) == s[..j] && OnlyDashes(s[j..])
    ensures RightStripped(s) != "" ==> RightStripped(s)[|RightStripped(s)| - 1] != '-'
  {
    j := |s|;
    if s != "" && s[|s| - 1] == '-' {
      j := RightStrippedIs(s[..|s| - 1]);
      assert s[j..] == s[..|s| - 1][j..] + [s[|s| - 1]];
    }
  }

  /**
   A sanitised name is the lower-cased name with a dash for every other character, without the dashes at its two
   ends: what is cut off is dashes only, and neither end is one.
  */
  lemma {:induction false} SanitizedIs(username: string) returns (i: nat, j: nat)
    ensures i <= j <= |username| && SanitizeDevUsername(username) == Dashed(username)[i..j]
    ensures OnlyDashes(Dashed(username)[..i]) && OnlyDashes(Dashed(username)[j..])
    ensures OfDashes(SanitizeDevUsername(username))
    ensures i < j ==> IsProjectStart(Dashed(username)[i]) && IsProjectStart(Dashed(username)[j - 1])
  {
    var s := Dashed(username);
    i := LeftStrippedIs(s);
    var k := RightStrippedIs(s[i..]);
    j := i + k;
    assert s[i..][..k] == s[i..j] && s[i..][k..] == s[j..];
  }

  // ----- The instance grammar -----

  const RESERVED: seq<string> :=
    ["_backups", "default", "all", "none", "system", "isolated", "core_proxy", "dns", "egress", "ipc"]

  predicate IsInstanceName(s: string) {
    && s != "" && |s| <= 30
    && s[0] != '-' && s[0] != '_'
    && IsProjectName(s)
    && s !in RESERVED
  }

  lemma InstanceIsPlain(inst: string)
    requires IsProjectName(inst)
    ensures IsPlainComponent(inst) && IsPathText(inst)
  {
    assert inst[0] != '.';
    forall c | c in inst
      ensures IsProjectChar(c)
    {
      var i :| 0 <= i < |inst| && inst[i] == c;
    }
  }

  /** The project name derived for any instance passes the dispatcher's project check. */
  lemma {:induction false} ProjectNameFits(inst: string, username: string)
    requires IsInstanceName(inst)
    ensures ComposeProjectName(inst, username).Some? <==> SanitizeDevUsername(username) != ""
    ensures ComposeProjectName(inst, username).Some? ==> ProjectFits(ComposeProjectName(inst, username).value, inst)
  {
    var i, j := SanitizedIs(username);
    var s := SanitizeDevUsername(username);
    if s != "" {
      SuffixAdded(s, inst);
    }
  }

  lemma SuffixAdded(s: string, inst: string)
    requires s != "" && OfDashes(s) && IsProjectStart(s[0]) && IsProjectName(inst)
    ensures ProjectFits(s + "-" + inst, inst)
  {
    var p := s + "-" + inst;
    assert p == s + ("-" + inst);
    assert p[|p| - |"-" + inst|..] == "-" + inst;
    forall i | 0 <= i < |p|
      ensures IsProjectChar(p[i])
    {
      if i < |s| {
        assert p[i] == s[i];
      } else if i > |s| {
        assert p[i] == inst[i - |s| - 1];
      }
    }
  }

  // ----- Paths -----

  predicate IsPathText(c: string) { '/' !in c && '\n' !in c && 0 as char !in c }

  /** A component that a clean path can have. */
  predicate IsCleanComponent(c: string) { IsPlainComponent(c) && IsPathText(c) }

  predicate AllClean(comps: seq<string>) { forall i :: 0 <= i < |comps| ==> IsCleanComponent(comps[i]) }

  /** The absolute path of a list of components. */
  function PathOf(comps: seq<string>): string
    requires comps != []
  {
    "/" + JoinOn(comps, '/')
  }

  function Under(dir: string, name: string): string { dir + ("/" + name) }

  /** `os.path.join(dir, name)` for a relative name. */
  function JoinPath(dir: string, name: string): string {
    if dir == "" || dir[|dir| - 1] == '/' then dir + name else Under(dir, name)
  }

  lemma {:induction false} JoinOneMore(comps: seq<string>, name: string)
    requires comps != []
    ensures JoinOn(comps + [name], '/') == Under(JoinOn(comps, '/'), name)
  {
    if |comps| == 1 {
      assert (comps + [name])[1..] == [name];
    } else {
      JoinOneMore(comps[1..], name);
      assert (comps + [name])[1..] == comps[1..] + [name];
      Associate(comps[0], JoinOn(comps[1..], '/'), name);
    }
  }

  lemma Associate(a: string, b: string, c: string)
    ensures a + (['/'] + (b + ("/" + c))) == a + (['/'] + b) + ("/" + c)
  {}

  lemma {:induction false} JoinEnd(comps: seq<string>)
    requires comps != [] && AllClean(comps)
    ensures var j := JoinOn(comps, '/'); j != "" && j[|j| - 1] != '/'
  {
    if |comps| > 1 {
      JoinEnd(comps[1..]);
    }
  }

  lemma PathOneMore(comps: seq<string>, name: string)
    requires comps != [] && AllClean(comps)
    ensures PathOf(comps + [name]) == JoinPath(PathOf(comps), name)
  {
    JoinOneMore(comps, name);
    JoinEnd(comps);
    assert "/" + Under(JoinOn(comps, '/'), name) == Under(PathOf(comps), name);
  }

  lemma {:induction false} JoinIsClean(comps: seq<string>)
    requires comps != [] && AllClean(comps)
    ensures '\n' !in JoinOn(comps, '/') && 0 as char !in JoinOn(comps, '/')
  {
    if |comps| > 1 {
      JoinIsClean(comps[1..]);
    }
  }

  /** A path below `<home>/instances/<inst>` is confined, whatever clean components the home has. */
  lemma {:induction false} BelowInstanceIsConfined(home: seq<string>, inst: string, below: seq<string>)
    requires AllClean(home) && IsCleanComponent(inst) && AllClean(below) && below != []
    ensures Confined(PathOf(home + [INSTANCES, inst] + below), inst)
  {
    var comps := home + [INSTANCES, inst] + below;
    CleanBelow(home, inst, below);
    PathOfClean(comps);
    assert EnvelopeAt(comps, |home|, inst);
  }

  lemma {:induction false} PartsAreOf(s: string, sep: char, i: nat)
    requires i < |SplitOn(s, sep)|
    ensures forall c :: c in SplitOn(s, sep)[i] ==> c in s
  {
    if s != "" {
      var rest := SplitOn(s[1..], sep);
      assert s == [s[0]] + s[1..];
      if s[0] == sep {
        if i > 0 {
          PartsAreOf(s[1..], sep, i - 1);
        }
      } else {
        PartsAreOf(s[1..], sep, i);
      }
    }
  }

  lemma PartsAreClean(p: string, inst: string)
    requires Confined(p, inst)
    ensures SplitOn(p, '/') == [""] + SplitOn(p[1..], '/') && AllClean(SplitOn(p[1..], '/'))
  {
    var comps := SplitOn(p[1..], '/');
    assert SplitOn(p, '/')[1..] == comps;
    SplitThenJoin(p[1..], '/');
    assert p == [p[0]] + p[1..];
    forall i | 0 <= i < |comps|
      ensures IsCleanComponent(comps[i])
    {
      PartsAreOf(p[1..], '/', i);
    }
  }

  /** And nothing else is confined. */
  lemma {:induction false} ConfinedIsBelowInstance(p: string, inst: string)
    returns (home: seq<string>, below: seq<string>)
    requires Confined(p, inst)
    ensures AllClean(home) && IsCleanComponent(inst) && AllClean(below) && below != []
    ensures p == PathOf(home + [INSTANCES, inst] + below)
  {
    PartsAreClean(p, inst);
    var comps := SplitOn(p[1..], '/');
    assert SplitOn(p, '/')[1..] == comps;
    var i: nat :| i + 2 < |comps| && EnvelopeAt(comps, i, inst);
    home, below := comps[..i], comps[i + 2..];
    assert comps == home + [INSTANCES, inst] + below;
    assert comps[i + 1] == inst;
    SplitThenJoin(p[1..], '/');
  }

  lemma InstancesIsClean()
    ensures IsCleanComponent(INSTANCES)
  {}

  lemma PathOfClean(comps: seq<string>)
    requires comps != [] && AllClean(comps)
    ensures var p := PathOf(comps);
            0 as char !in p && '\n' !in p && p != "" && p[0] == '/' && SplitOn(p, '/')[1..] == comps
  {
    JoinIsClean(comps);
    JoinThenSplit(comps, '/');
    var j := JoinOn(comps, '/');
    assert PathOf(comps)[1..] == j;
    assert ([""] + SplitOn(j, '/'))[1..] == comps;
  }

  // ----- What the operator resolves -----

  const DOCKER := "docker"
  const EXTRAS := "extras"
  const COMPOSE_YML := "compose.yml"
  const POSTGRES_YML := "db-postgres.yml"
  const FIRECRAWL_YML := "mcp-firecrawl.yml"
  const ENV_NAME := ".sandbox.env"

  const TOML_NAME := "sandbox.toml"

  /** What the operator reads in an instance's configuration. */
  datatype Settings = Settings(postgres: bool, firecrawl: bool)

  datatype Resolution =
    | Resolved(project: string, files: seq<string>, envFile: string)
    | NotRegistered
    | BadConfig
    | EmptyUsername

  /** The project, the compose files and the env file of an instance; `config` is what a configuration file holds. */
  method ResolveComposeState(
    registry: map<string, string>, config: string -> Option<Settings>, username: string, inst: string)
    returns (r: Resolution)
    ensures r.NotRegistered? <==> inst !in registry
    ensures r.BadConfig? <==> inst in registry && config(JoinPath(registry[inst], TOML_NAME)).None?
    ensures r.EmptyUsername? <==>
              && inst in registry && config(JoinPath(registry[inst], TOML_NAME)).Some?
              && SanitizeDevUsername(username) == ""
    ensures r.Resolved? ==>
              && config(JoinPath(registry[inst], TOML_NAME)).Some?
              && ComposeProjectName(inst, username) == Some(r.project)
              && r.files == ComposeFiles(registry[inst], config(JoinPath(registry[inst], TOML_NAME)).value)
              && r.envFile == JoinPath(registry[inst], ENV_NAME)
  {
    if inst !in registry {
      return NotRegistered;
    }
    var instanceDir := registry[inst];
    var read := config(JoinPath(instanceDir, TOML_NAME));
    if read.None? {
      return BadConfig;
    }
    var settings := read.value;
    var files := [JoinPath(JoinPath(instanceDir, DOCKER), COMPOSE_YML)];
    if settings.postgres {
      files := files + [JoinPath(JoinPath(JoinPath(instanceDir, DOCKER), EXTRAS), POSTGRES_YML)];
    }
    if settings.firecrawl {
      files := files + [JoinPath(JoinPath(JoinPath(instanceDir, DOCKER), EXTRAS), FIRECRAWL_YML)];
    }
    var project := ComposeProjectName(inst, username);
    if project.None? {
      return EmptyUsername;
    }
    r := Resolved(project.value, files, JoinPath(instanceDir, ENV_NAME));
  }

  function ComposeFiles(instanceDir: string, settings: Settings): seq<string> {
    [JoinPath(JoinPath(instanceDir, DOCKER), COMPOSE_YML)] +
    (if settings.postgres then [JoinPath(JoinPath(JoinPath(instanceDir, DOCKER), EXTRAS), POSTGRES_YML)] else []) +
    (if settings.firecrawl then [JoinPath(JoinPath(JoinPath(instanceDir, DOCKER), EXTRAS), FIRECRAWL_YML)] else [])
  }

  /** Always the base file first; of the two extras exactly those that the configuration asks for, in this order. */
  lemma {:induction false} ExtrasAsConfigured(dir: string, settings: Settings)
    ensures var files := ComposeFiles(dir, settings);
            var base := JoinPath(JoinPath(dir, "docker"), "compose.yml");
            var postgres := JoinPath(JoinPath(JoinPath(dir, "docker"), "extras"), "db-postgres.yml");
            var firecrawl := JoinPath(JoinPath(JoinPath(dir, "docker"), "extras"), "mcp-firecrawl.yml");
            && files[0] == base
            && (settings == Settings(false, false) ==> files[1..] == [])
            && (settings == Settings(true, false) ==> files[1..] == [postgres])
            && (settings == Settings(false, true) ==> files[1..] == [firecrawl])
            && (settings == Settings(true, true) ==> files[1..] == [postgres, firecrawl])
  {}

  /** `<home>/instances/<inst>` */
  function InstanceDir(home: seq<string>, inst: string): string { PathOf(home + [INSTANCES, inst]) }

  lemma NamesAreClean()
    ensures IsCleanComponent(DOCKER) && IsCleanComponent(EXTRAS) && IsCleanComponent(COMPOSE_YML)
    ensures IsCleanComponent(POSTGRES_YML) && IsCleanComponent(FIRECRAWL_YML) && IsCleanComponent(ENV_NAME)
  {
    DirNamesAreClean();
    ComposeYmlIsClean();
    PostgresYmlIsClean();
    FirecrawlYmlIsClean();
    EnvNameIsClean();
  }

  lemma DirNamesAreClean()
    ensures IsCleanComponent(DOCKER) && IsCleanComponent(EXTRAS)
  {}

  lemma ComposeYmlIsClean()
    ensures IsCleanComponent(COMPOSE_YML)
  {}

  lemma PostgresYmlIsClean()
    ensures IsCleanComponent(POSTGRES_YML)
  {}

  lemma FirecrawlYmlIsClean()
    ensures IsCleanComponent(FIRECRAWL_YML)
  {}

  lemma EnvNameIsClean()
    ensures IsCleanComponent(ENV_NAME)
  {}

  lemma CleanBelow(home: seq<string>, inst: string, below: seq<string>)
    requires AllClean(home) && IsCleanComponent(inst) && AllClean(below)
    ensures AllClean(home + [INSTANCES, inst] + below)
  {
    InstancesIsClean();
    var comps := home + [INSTANCES, inst] + below;
    forall i | 0 <= i < |comps|
      ensures IsCleanComponent(comps[i])
    {
      assert comps[i] in home || comps[i] in below || comps[i] == INSTANCES || comps[i] == inst;
    }
  }

  /** Joining names to the instance directory one by one appends them to its components. */
  lemma JoinsBelow(home: seq<string>, inst: string, a: string, b: string, c: string)
    requires AllClean(home) && IsCleanComponent(inst) && IsCleanComponent(a) && IsCleanComponent(b)
    ensures var dir, comps := InstanceDir(home, inst), home + [INSTANCES, inst];
            && JoinPath(dir, a) == PathOf(comps + [a])
            && JoinPath(JoinPath(dir, a), b) == PathOf(comps + [a, b])
            && JoinPath(JoinPath(JoinPath(dir, a), b), c) == PathOf(comps + [a, b, c])
  {
    var comps := home + [INSTANCES, inst];
    CleanBelow(home, inst, []);
    assert comps + [] == comps;
    CleanBelow(home, inst, [a]);
    CleanBelow(home, inst, [a, b]);
    PathOneMore(comps, a);
    PathOneMore(comps + [a], b);
    assert comps + [a] + [b] == comps + [a, b];
    PathOneMore(comps + [a, b], c);
    assert comps + [a, b] + [c] == comps + [a, b, c];
  }

  lemma OneBelow(home: seq<string>, inst: string, a: string)
    requires AllClean(home) && IsCleanComponent(inst) && IsCleanComponent(a)
    ensures Confined(JoinPath(InstanceDir(home, inst), a), inst)
  {
    JoinsBelow(home, inst, a, a, a);
    BelowInstanceIsConfined(home, inst, [a]);
  }

  lemma TwoBelow(home: seq<string>, inst: string, a: string, b: string)
    requires AllClean(home) && IsCleanComponent(inst) && IsCleanComponent(a) && IsCleanComponent(b)
    ensures Confined(JoinPath(JoinPath(InstanceDir(home, inst), a), b), inst)
  {
    JoinsBelow(home, inst, a, b, b);
    BelowInstanceIsConfined(home, inst, [a, b]);
  }

  lemma ThreeBelow(home: seq<string>, inst: string, a: string, b: string, c: string)
    requires AllClean(home) && IsCleanComponent(inst)
    requires IsCleanComponent(a) && IsCleanComponent(b) && IsCleanComponent(c)
    ensures Confined(JoinPath(JoinPath(JoinPath(InstanceDir(home, inst), a), b), c), inst)
  {
    JoinsBelow(home, inst, a, b, c);
    BelowInstanceIsConfined(home, inst, [a, b, c]);
  }

  /** What the operator's side puts on the wire for an instance in its standard place. */
  function OperatorCompose(
    inst: string, username: string, home: seq<string>, settings: Settings, volumes: bool): ComposeWire
    requires ComposeProjectName(inst, username).Some?
  {
    var dir := InstanceDir(home, inst);
    ComposeWire(ComposeProjectName(inst, username).value, JoinPath(dir, ENV_NAME), ComposeFiles(dir, settings), volumes)
  }

  /** Every compose request that the operator's side resolves is accepted by the dispatcher. */
  lemma {:induction false} OperatorComposeIsAccepted(
    op: ComposeOp, inst: string, username: string, home: seq<string>, settings: Settings, volumes: bool)
    requires IsInstanceName(inst) && SanitizeDevUsername(username) != "" && AllClean(home)
    requires volumes ==> op == Down
    ensures ComposeProjectName(inst, username).Some?
    ensures var cw := OperatorCompose(inst, username, home, settings, volumes);
            GoAccepts(cw, inst) && ComposeMeaning(op, Expanded(inst, cw)) == Some(cw)
  {
    ProjectNameFits(inst, username);
    InstanceIsPlain(inst);
    NamesAreClean();
    OneBelow(home, inst, ENV_NAME);
    TwoBelow(home, inst, DOCKER, COMPOSE_YML);
    ThreeBelow(home, inst, DOCKER, EXTRAS, POSTGRES_YML);
    ThreeBelow(home, inst, DOCKER, EXTRAS, FIRECRAWL_YML);
    ExpandedMeaning(op, inst, OperatorCompose(inst, username, home, settings, volumes));
  }

  /** Every `fwd` request that the operator's side resolves is accepted, for every instance, user and slot. */
  lemma {:induction false} OperatorFwdIsAccepted(inst: string, username: string, slot: nat)
    requires IsInstanceName(inst) && SanitizeDevUsername(username) != "" && slot < MAX_SLOTS
    ensures HOSTS[CORE_IPC].net < 5
    ensures var r := FwdRequest(ComposeProjectName(inst, username).value, StaticIp(slot, CORE_IPC));
            GoAcceptsFwd(r, inst) && FwdMeaning(ExpandedFwd(inst, r.project, r.ip)) == Some(r)
  {
    ProjectNameFits(inst, username);
    CoreIpcInSuperblock(slot);
    ExpandedFwdMeaning(inst, ComposeProjectName(inst, username).value, StaticIp(slot, CORE_IPC));
  }
}
