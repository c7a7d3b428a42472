/**
 The output frame: the dispatcher announces a nonce, runs the operation and closes with the nonce and
 the exit code; the executor recovers code and output from the captured text.
*/
module Framing {
  import opened Options
  import opened Text
  import opened Normalize

  predicate AtLineStart(s: string, p: nat) {
    p <= |s| && (p == 0 || s[p - 1] == '\n')
  }

  /** Empty, or every line terminated. */
  predicate Terminated(s: string) { s == "" || s[|s| - 1] == '\n' }

  predicate OneLine(s: string) { forall i :: 0 <= i < |s| ==> s[i] != '\n' }

  /** The last newline in `s[lo..hi]`. */
  function LastNewline(s: string, lo: nat, hi: nat): (r: Option<nat>)
    requires lo <= hi <= |s|
    ensures r.Some? ==> lo <= r.value < hi && s[r.value] == '\n'
    decreases hi - lo
  {
    if lo == hi then None else if s[hi - 1] == '\n' then Some(hi - 1) else LastNewline(s, lo, hi - 1)
  }

  /**
   Where the ending `\s*$` stops when it starts at `i`: at the end of the text if only white space follows,
   else before the last newline of the white space, if there is one.
  */
  function TailEnd(s: string, i: nat): (r: Option<nat>)
    requires i <= |s|
    ensures r.Some? ==> i <= r.value <= |s|
  {
    var e := SpanEnd(s, i, Space);
    if e == |s| then Some(e) else LastNewline(s, i, e)
  }

  datatype Match = Match(start: nat, end: nat, token: string, code: nat)

  /** `finditer` from `p` on, for an expression that matches `at(q)` at `q` and never the empty string. */
  function FindAll(at: nat -> Option<Match>, size: nat, p: nat): seq<Match>
    decreases size + 1 - p
  {
    if p > size then []
    else if at(p).None? || at(p).value.end <= p then FindAll(at, size, p + 1)
    else [at(p).value] + FindAll(at, size, at(p).value.end)
  }

  /** `search` from `p` on. */
  function FindFirst(at: nat -> Option<Match>, size: nat, p: nat): Option<Match>
    decreases size + 1 - p
  {
    if p > size then None else if at(p).Some? then at(p) else FindFirst(at, size, p + 1)
  }

  function WithToken(ms: seq<Match>, token: string): seq<Match> {
    if ms == [] then [] else (if ms[0].token == token then [ms[0]] else []) + WithToken(ms[1..], token)
  }

  datatype Recovery = SentinelNotFound | InnerFailed(code: nat, stdout: string) | Completed(stdout: string)

  function Min(a: nat, b: nat): nat { if a <= b then a else b }

  /** `s[:start] + s[end:]`. */
  function Cut(s: string, start: nat, end: nat): string {
    s[..Min(start, |s|)] + s[Min(end, |s|)..]
  }

  function Conclude(code: nat, text: string): Recovery {
    if code != 0 then InnerFailed(code, NormalizeOutput(text)) else Completed(NormalizeOutput(text))
  }

  /**
   Binds the exit code to the token of the BEGIN line, or to the injected one, and cuts the frame lines out,
   the later one first.
  */
  function Recover(stdout: string, begin: Option<Match>, framed: bool, injected: string, exits: seq<Match>): Recovery {
    if framed && begin.None? then SentinelNotFound
    else
      var matches := WithToken(exits, if framed then begin.value.token else injected);
      if matches == [] then SentinelNotFound
      else
        var last := matches[|matches| - 1];
        if !framed then Conclude(last.code, Cut(stdout, last.start, last.end))
        else
          var b := begin.value;
          if b.start > last.start then
            Conclude(last.code, Cut(Cut(stdout, b.start, b.end), last.start, last.end))
          else
            Conclude(last.code, Cut(Cut(stdout, last.start, last.end), b.start, b.end))
  }

  /** The two marker prefixes, with everything that depends on their spelling. */
  datatype Markers = Markers(begin: string, exit: string) {

    // ----- The two expressions, in multi-line mode -----

    /** `^<begin>([0-9a-f]+)\s*$` at `p`. */
    function BeginAt(s: string, p: nat): (r: Option<Match>)
      ensures r.Some? ==> r.value.start == p && r.value.end <= |s|
    {
      if !AtLineStart(s, p) || !OccursAt(s, p, begin) then None
      else
        var t := p + |begin|;
        var h := SpanEnd(s, t, Hex);
        if h == t || TailEnd(s, h).None? then None
        else Some(Match(p, TailEnd(s, h).value, s[t..h], 0))
    }

    /** `^<exit>([0-9a-f]+)_(\d+)\s*$` at `p`. */
    function ExitAt(s: string, p: nat): (r: Option<Match>)
      ensures r.Some? ==> r.value.start == p && r.value.end <= |s|
    {
      if !AtLineStart(s, p) || !OccursAt(s, p, exit) then None
      else
        var t := p + |exit|;
        var h := SpanEnd(s, t, Hex);
        if h == t || h == |s| || s[h] != '_' then None
        else
          var d := SpanEnd(s, h + 1, Digit);
          SpanEndIsRun(s, h + 1, Digit);
          RunIsAll(s, h + 1, d, Digit);
          if d == h + 1 || TailEnd(s, d).None? then None
          else Some(Match(p, TailEnd(s, d).value, s[t..h], DecValue(s[h + 1..d])))
    }

    function BeginMatcher(s: string): nat -> Option<Match> { (q: nat) => BeginAt(s, q) }

    function ExitMatcher(s: string): nat -> Option<Match> { (q: nat) => ExitAt(s, q) }

    function SearchBegin(s: string): Option<Match> { FindFirst(BeginMatcher(s), |s|, 0) }

    function FindExits(s: string): seq<Match> { FindAll(ExitMatcher(s), |s|, 0) }

    // ----- Recovery -----

    /** The outcome when the callee frames its own output. */
    function RecoverFramed(stdout: string): Recovery {
      Recover(stdout, SearchBegin(stdout), true, "", FindExits(stdout))
    }

    /** The outcome when the executor injected the token itself. */
    function RecoverInjected(stdout: string, token: string): Recovery {
      Recover(stdout, None, false, token, FindExits(stdout))
    }

    // ----- The dispatcher's side -----

    function BeginLine(nonce: string): string { begin + (nonce + "\n") }

    function ExitLine(nonce: string, code: nat): string { exit + (nonce + ("_" + (Dec(code) + "\n"))) }

    function Frame(nonce: string, output: string, code: nat): string {
      BeginLine(nonce) + (output + ExitLine(nonce, code))
    }

    // ----- What the proofs need of the spelling -----

    ghost predicate Good() {
      && begin != "" && OneLine(begin)
      && |exit| >= 2 && OneLine(exit) && exit[0] == '_' && exit[1] == '_'
      && (exists i :: 0 <= i < |begin| && i < |exit| && begin[i] != exit[i])
      && (forall d :: 0 < d < |exit| - 1 ==> exit[d] != '_' || exit[d + 1] != '_' || Differs(d))
    }

    /** The exit prefix shifted by `d` disagrees with itself on its second or third character. */
    ghost predicate Differs(d: nat) {
      |exit| >= 3 && d + 2 < |exit| && exit[d + 2] != exit[2]
    }
  }

  const SANDBOX := Markers("__SANDBOX_BEGIN_", "__SANDBOX_EXIT_")

  lemma SandboxMarkersAreGood()
    ensures SANDBOX.Good()
  {
    assert SANDBOX.begin[10] == 'B' && SANDBOX.exit[10] == 'E';
    ExitDiffersFromItself();
  }

  lemma ExitDiffersFromItself()
    ensures forall d :: 0 < d < |SANDBOX.exit| - 1 ==>
                        SANDBOX.exit[d] != '_' || SANDBOX.exit[d + 1] != '_' || SANDBOX.Differs(d)
  {
    assert SANDBOX.exit[2] == 'S';
  }

  method CutSpans(text: string, spans: seq<(nat, nat)>) returns (clean: string)
    ensures |spans| == 1 ==> clean == Cut(text, spans[0].0, spans[0].1)
    ensures |spans| == 2 ==> clean == Cut(Cut(text, spans[0].0, spans[0].1), spans[1].0, spans[1].1)
  {
    clean := text;
    for i := 0 to |spans|
      invariant i == 0 ==> clean == text
      invariant i == 1 ==> clean == Cut(text, spans[0].0, spans[0].1)
      invariant i == 2 ==> clean == Cut(Cut(text, spans[0].0, spans[0].1), spans[1].0, spans[1].1)
    {
      clean := Cut(clean, spans[i].0, spans[i].1);
    }
  }

  class Executor {
    const markers: Markers
    var lastFrameNonce: Option<string>

    constructor ()
      ensures markers == SANDBOX && lastFrameNonce == None
    {
      markers := SANDBOX;
      lastFrameNonce := None;
    }

    /** `injectedToken` is used when `framed` is false. */
    method RecoverInnerExit(stdout: string, framed: bool, injectedToken: string) returns (r: Recovery)
      modifies this
      ensures r == if framed then markers.RecoverFramed(stdout) else markers.RecoverInjected(stdout, injectedToken)
      ensures var begin := markers.SearchBegin(stdout);
              lastFrameNonce == if framed && begin.Some? then Some(begin.value.token) else old(lastFrameNonce)
    {
      var begin := if framed then markers.SearchBegin(stdout) else None;
      if framed && begin.None? {
        return SentinelNotFound;
      }
      if begin.Some? {
        lastFrameNonce := Some(begin.value.token);
      }
      var exits := markers.FindExits(stdout);
      r := BindExit(stdout, framed, if framed then begin.value.token else injectedToken, begin, exits);
    }

    /** Binds the exit code to `expected` and takes the frame lines out of the text. */
    method BindExit(stdout: string, framed: bool, expected: string, begin: Option<Match>, exits: seq<Match>)
      returns (r: Recovery)
      requires framed ==> begin.Some? && expected == begin.value.token
      ensures r == Recover(stdout, begin, framed, expected, exits)
    {
      var matches := WithToken(exits, expected);
      if matches == [] {
        return SentinelNotFound;
      }
      var last := matches[|matches| - 1];
      // Latest span first, so that cutting one leaves the other in place.
      var spans := [(last.start, last.end)];
      if framed {
        var span := (begin.value.start, begin.value.end);
        spans := if span.0 > last.start then [span] + spans else spans + [span];
      }
      var clean := CutSpans(stdout, spans);
      r := Conclude(last.code, clean);
    }
  }

  // ----- Dispatches -----

  /** The streaming operation, except for its lone `--check` form, bypasses the frame. */
  predicate IsStreamInvocation(op: string, rest: seq<string>) {
    op == "fwd" && rest != ["--check"]
  }

  /**
   How a dispatch ends: it returns a code before replacing its process image, or the image runs on,
   writes `output` and exits with `code`.
  */
  datatype Ending = Returned(code: nat) | Replaced(output: string, code: nat)

  /** Everything a dispatch puts on its standard output; `argv` is the program, the op and the rest. */
  function DispatchStdout(argv: seq<string>, nonce: string, ending: Ending): string {
    var output := match ending case Returned(_) => "" case Replaced(output, _) => output;
    if |argv| >= 2 && IsStreamInvocation(argv[1], argv[2..]) then output
    else SANDBOX.Frame(nonce, output, ending.code)
  }

  /** Drops the leading lines that hold only white space. */
  function DropLeadingBlankLines(s: string): string {
    match LastNewline(s, 0, SpanEnd(s, 0, Space))
    case None => s
    case Some(k) => s[k + 1..]
  }
}
