/** The target argv of the compose operations, as each side of the boundary builds it from the wire. */
module ComposeArgv {
  import opened Options
  import opened Text
  import opened Wire
  import opened Paths

  function BashC(inner: string): seq<string> { ["/bin/bash", "-c", inner] }

  lemma BashReads(inner: string)
    ensures BashC(inner) == ["/bin/bash", "-c", inner]
  {}

  function FileParts(files: seq<string>): seq<string> {
    seq(|files|, i requires 0 <= i < |files| => "-f " + files[i])
  }

  /** The operation's own verb; of the wire only the volumes flag enters into it. */
  function Verb(op: ComposeOp, volumes: bool): string {
    match op
    case Up => "up -d --build --wait"
    case Down => if volumes then "down -v" else "down"
    case Ps => "ps --format json"
  }

  const ENV_PREFIX :=
    "TERM=dumb" + (" " + ("NO_COLOR=1" + (" " + ("BUILDKIT_PROGRESS=plain" + (" " + "COMPOSE_PROJECT_NAME=")))))

  function Inner(op: ComposeOp, cw: ComposeWire): string {
    ENV_PREFIX + cw.project + " docker compose " + JoinWithSpace(FileParts(cw.files)) +
    (if op == Ps then " --env-file " + cw.envFile + " --ansi never "
     else " --ansi never --env-file " + cw.envFile + " ") +
    Verb(op, cw.volumes)
  }

  /** What the operator builds, for a wire that means something. */
  ghost function PyComposeTarget(op: ComposeOp, wire: seq<string>): Option<seq<string>> {
    match ComposeMeaning(op, wire)
    case None => None
    case Some(cw) => Some(BashC(Inner(op, cw)))
  }

  /** The dispatcher's further demands: a fitting project and confined paths. */
  ghost predicate GoAccepts(cw: ComposeWire, inst: string) {
    && ProjectFits(cw.project, inst)
    && (forall i :: 0 <= i < |cw.files| ==> Confined(cw.files[i], inst))
    && Confined(cw.envFile, inst)
  }

  method BuildComposeWireArgv(op: ComposeOp, wire: seq<string>) returns (r: Option<seq<string>>)
    ensures r == PyComposeTarget(op, wire)
  {
    var parsed := ParseComposeWire(op, wire);
    if parsed.None? {
      return None;
    }
    var cw := parsed.value;
    var filesStr := JoinWithSpace(FileParts(cw.files));
    var verb := Verb(op, false);
    if op == Down && cw.volumes {
      verb := "down -v";
    }
    var envPrefix := ENV_PREFIX + cw.project;
    var inner;
    if op == Ps {
      inner := envPrefix + " docker compose " + filesStr + (" --env-file " + cw.envFile + " --ansi never ") + verb;
    } else {
      inner := envPrefix + " docker compose " + filesStr + (" --ansi never --env-file " + cw.envFile + " ") + verb;
    }
    r := Some(BashC(inner));
  }

  method AllConfined(files: seq<string>, inst: string) returns (ok: bool)
    ensures ok <==> forall i :: 0 <= i < |files| ==> Confined(files[i], inst)
  {
    for i := 0 to |files|
      invariant forall j :: 0 <= j < i ==> Confined(files[j], inst)
    {
      var boundary := EnvelopeBoundary(files[i], inst);
      if boundary.None? {
        return false;
      }
    }
    return true;
  }

  method CollectFileParts(files: seq<string>) returns (parts: seq<string>)
    ensures parts == FileParts(files)
  {
    parts := [];
    for i := 0 to |files|
      invariant parts == FileParts(files)[..i]
    {
      parts := parts + ["-f " + files[i]];
    }
  }

  /** The dispatcher's builder accepts exactly the operator's wires that meet its demands, with the same argv. */
  method GoBuildComposeArgv(op: ComposeOp, wire: seq<string>) returns (ok: bool, argv: seq<string>, inst: string)
    ensures ok <==> PyComposeTarget(op, wire).Some? && GoAccepts(ComposeMeaning(op, wire).value, wire[0])
    ensures ok ==> PyComposeTarget(op, wire) == Some(argv) && inst == wire[0]
  {
    argv, inst := [], "";
    var parsed, cw := GoParseComposeWire(op, wire);
    if !parsed {
      return false, argv, inst;
    }
    inst := wire[0];
    var filesOk := AllConfined(cw.files, inst);
    if !filesOk {
      return false, argv, inst;
    }
    var envBoundary := EnvelopeBoundary(cw.envFile, inst);
    if envBoundary.None? {
      return false, argv, inst;
    }
    var verb := Verb(op, false);
    if op == Down && cw.volumes {
      verb := "down -v";
    }
    var parts := CollectFileParts(cw.files);
    var filesStr := JoinWithSpace(parts);
    var envPrefix := ENV_PREFIX + cw.project;
    var options := if op == Ps then " --env-file " + cw.envFile + " --ansi never "
                   else " --ansi never --env-file " + cw.envFile + " ";
    var inner := envPrefix + " docker compose " + filesStr + options + verb;
    ok, argv := true, BashC(inner);
  }
}
