/**
 The health-check bundle: five queries in one crossing, each between two markers that carry the nonce of
 the crossing, and the parser that takes their output and exit codes apart again.
*/
module Preflight {
  import opened Options
  import opened Text
  import opened PyInts

  /** How a query ended, for the parser.  `code` is unbounded: nothing checks what follows the marker. */
  datatype Verdict =
    | NonceAbsent
    | Ambiguous
    | SegmentMissing
    | Unparseable(token: string)
    | Exited(code: int, segment: string)

  datatype QueryOutcome = QueryOutcome(ok: bool, timedOut: bool, stdout: string, verdict: Verdict)

  function OutcomeOf(v: Verdict, timedOut: bool): QueryOutcome {
    var ok := v.Exited? && v.code == 0;
    QueryOutcome(ok, timedOut, if ok then v.segment else "", v)
  }

  /** Ok exactly for an exit with code 0, and only then with the segment as its text. */
  predicate SaysWhatItRead(o: QueryOutcome, timedOut: bool) {
    && o.timedOut == timedOut
    && match o.verdict
       case Exited(code, segment) => if code == 0 then o.ok && o.stdout == segment else !o.ok && o.stdout == ""
       case _ => !o.ok && o.stdout == ""
  }

  lemma OutcomeSays(v: Verdict, timedOut: bool)
    ensures SaysWhatItRead(OutcomeOf(v, timedOut), timedOut)
  {}

  // ----- One query -----

  /** A verdict, and where the scan stands after it. */
  datatype Step = Step(verdict: Verdict, next: nat)

  /** The first begin marker from `cursor` on, and the first exit marker after it. */
  function FindPair(text: string, begin: string, rc: string, cursor: nat): (r: Option<(nat, nat)>)
    ensures r.Some? ==> cursor <= r.value.0 && r.value.0 + |begin| <= r.value.1 && r.value.1 + |rc| <= |text|
  {
    match Find(text, begin, cursor)
    case None => None
    case Some(b) =>
      match Find(text, rc, b + |begin|)
      case None => None
      case Some(r) => Some((b, r))
  }

  /** What one query amounts to when the scan stands at `cursor`; `read` takes a segment and what follows it. */
  function ParseQuery(
    text: string, begin: string, rc: string, cursor: nat, read: (string, string) -> Verdict): Step
    requires begin != "" && rc != ""
  {
    if CountFrom(text, begin, 0) > 1 || CountFrom(text, rc, 0) > 1 then Step(Ambiguous, cursor)
    else
      match FindPair(text, begin, rc, cursor)
      case None => Step(SegmentMissing, cursor)
      case Some((b, r)) =>
        var v := read(text[b + |begin|..r], text[r + |rc|..]);
        Step(v, if v.Exited? then r + |rc| else cursor)
  }

  /** The verdicts on `names[k..]`, when `query` takes a name and where the scan stands. */
  function ParseFrom(query: (string, nat) -> Step, names: seq<string>, k: nat, cursor: nat): (r: seq<Verdict>)
    requires k <= |names|
    ensures |r| == |names| - k
    decreases |names| - k
  {
    if k == |names| then []
    else
      var step := query(names[k], cursor);
      [step.verdict] + ParseFrom(query, names, k + 1, step.next)
  }

  /** The exit code stands at the start of `tail`, before the next two underscores. */
  function ReadQuery(segment: string, tail: string): Verdict {
    var token := Strip(BeforeDunder(tail));
    match PyInt(token)
    case None => Unparseable(token)
    case Some(code) => Exited(code, Strip(segment))
  }

  // ----- Markers -----

  datatype Scheme = Scheme(q: string, rc: string) {
    function BeginMarker(nonce: string, name: string): (r: string)
      ensures |r| == |q| + |nonce| + |name| + 3
    {
      q + (nonce + ("_" + (name + "__")))
    }

    function RcMarker(nonce: string, name: string): (r: string)
      ensures |r| == |rc| + |nonce| + |name| + 2
    {
      rc + (nonce + ("_" + (name + "_")))
    }

    // ----- The parser -----

    function QueryIn(text: string, nonce: string): (string, nat) -> Step {
      (name: string, cursor: nat) =>
        ParseQuery(text, BeginMarker(nonce, name), RcMarker(nonce, name), cursor, ReadQuery)
    }

    function Parse(text: string, nonce: string, names: seq<string>): (r: seq<Verdict>)
      ensures |r| == |names|
    {
      ParseFrom(QueryIn(text, nonce), names, 0, 0)
    }

    // ----- The shell's side -----

    /** What the shell prints for a bundle, when each query has printed `text` after its begin marker. */
    function Bundle(nonce: string, runs: seq<Run>): string
      decreases |runs|, 1
    {
      if runs == [] then "" else
        BeginMarker(nonce, runs[0].name) + (runs[0].text + (RcMarker(nonce, runs[0].name) + Rest(nonce, runs)))
    }

    function Rest(nonce: string, runs: seq<Run>): string
      requires runs != []
      decreases |runs|, 0
    {
      Dec(runs[0].code) + ("__\n" + Bundle(nonce, runs[1..]))
    }

    /** What the proofs need of the spelling. */
    ghost predicate Good() {
      && NoHex(q) && NoHex(rc) && |q| >= 2 && |rc| >= 2
      && q[0] == '_' && rc[0] == '_' && q[|q| - 2] != rc[|rc| - 2]
    }
  }

  predicate NoHex(s: string) { forall i :: 0 <= i < |s| ==> !IsHex(s[i]) }

  const PREFLIGHT := Scheme("__PREFLIGHT_Q_", "__PREFLIGHT_RC_")

  const QUERIES: seq<string> :=
    ["auth-probe", "docker-version", "docker-info-security-options", "docker-info-runtimes", "compose-ls"]

  datatype Run = Run(name: string, text: string, code: nat)

  predicate NoUnderscore(s: string) { forall i :: 0 <= i < |s| ==> s[i] != '_' }

  predicate Distinct(names: seq<string>) {
    forall i, j :: 0 <= i < j < |names| ==> names[i] != names[j]
  }

  function Names(runs: seq<Run>): seq<string> { seq(|runs|, i requires 0 <= i < |runs| => runs[i].name) }

  function Verdicts(runs: seq<Run>): seq<Verdict> {
    seq(|runs|, i requires 0 <= i < |runs| => Exited(runs[i].code, Strip(runs[i].text)))
  }

  /**
   Splits the text of a bundle into one outcome per query.  Without a nonce no marker can be trusted.
  */
  method ParsePreflight(text: string, timedOut: bool, nonce: Option<string>, names: seq<string>)
    returns (result: map<string, QueryOutcome>)
    requires Distinct(names)
    ensures forall name :: name in result <==> name in names
    ensures nonce.None? || nonce.value == "" ==>
              forall i :: 0 <= i < |names| ==> result[names[i]] == OutcomeOf(NonceAbsent, timedOut)
    ensures nonce.Some? && nonce.value != "" ==>
              forall i :: 0 <= i < |names| ==>
                result[names[i]] == OutcomeOf(PREFLIGHT.Parse(text, nonce.value, names)[i], timedOut)
    ensures forall name :: name in result ==> SaysWhatItRead(result[name], timedOut)
  {
    result := map[];
    if nonce.None? || nonce.value == "" {
      for k := 0 to |names|
        invariant forall name :: name in result <==> name in names[..k]
        invariant forall i :: 0 <= i < k ==> result[names[i]] == OutcomeOf(NonceAbsent, timedOut)
      {
        result := result[names[k] := OutcomeOf(NonceAbsent, timedOut)];
      }
    } else {
      var cursor := 0;
      var query := PREFLIGHT.QueryIn(text, nonce.value);
      ghost var all := PREFLIGHT.Parse(text, nonce.value, names);
      assert all[0..] == all;
      for k := 0 to |names|
        invariant forall name :: name in result <==> name in names[..k]
        invariant forall i :: 0 <= i < k ==> result[names[i]] == OutcomeOf(all[i], timedOut)
        invariant ParseFrom(query, names, k, cursor) == all[k..]
      {
        var step := query(names[k], cursor);
        assert all[k..][0] == all[k] && all[k..][1..] == all[k + 1..];
        result := result[names[k] := OutcomeOf(step.verdict, timedOut)];
        cursor := step.next;
      }
    }
    assert names[..|names|] == names;
    forall name | name in result
      ensures SaysWhatItRead(result[name], timedOut)
    {
      var i :| 0 <= i < |names| && names[i] == name;
      OutcomeSays(if nonce.None? || nonce.value == "" then NonceAbsent
                  else PREFLIGHT.Parse(text, nonce.value, names)[i], timedOut);
    }
  }
}
