/** The health check from end to end: bundle, frame, executor, normalisation and parser. */
module HealthCheck {
  import opened Text
  import opened Normalize
  import opened Framing
  import opened FrameTheorems
  import opened Preflight
  import opened PreflightRoundTrip

  /** What a query's segment becomes: its output, after the newline that ends the begin marker, normalised. */
  function Segment(output: string): string { NormalizeOutput("\n" + output) }

  predicate OnOwnLine(run: Run) { run.text != "" && run.text[0] == '\n' }

  function Normalized(runs: seq<Run>): seq<Run> {
    seq(|runs|, i requires 0 <= i < |runs| => Run(runs[i].name, NormalizeOutput(runs[i].text), runs[i].code))
  }

  /** Nothing that normalisation would touch. */
  predicate Unaffected(s: string) { ESC !in s && '\r' !in s && '\n' !in s }

  predicate ProperScheme(m: Scheme) {
    m.q != "" && m.q[0] == '_' && Unaffected(m.q) && m.rc != "" && m.rc[0] == '_' && Unaffected(m.rc)
  }

  lemma MarkersAreMarkers(m: Scheme, nonce: string, run: Run, begin: string, rcLine: string)
    requires ProperScheme(m) && Unaffected(nonce) && Unaffected(run.name)
    requires begin == m.BeginMarker(nonce, run.name)
    requires rcLine == m.RcMarker(nonce, run.name) + (Dec(run.code) + "__")
    ensures Marker(begin) && Marker(rcLine)
  {
    forall c | c in Dec(run.code)
      ensures IsDigit(c)
    {
      var i :| 0 <= i < |Dec(run.code)| && Dec(run.code)[i] == c;
      assert Digit.Has(Dec(run.code)[i]);
    }
    assert begin[0] == m.q[0] && rcLine[0] == m.rc[0];
  }

  /** Normalising the text of a bundle normalises its segments and nothing else. */
  lemma {:induction false} NormalizedBundle(m: Scheme, pre: string, nonce: string, runs: seq<Run>)
    requires ProperScheme(m) && Unaffected(nonce)
    requires forall i :: 0 <= i < |runs| ==> OnOwnLine(runs[i]) && Unaffected(runs[i].name)
    ensures NormalizeOutput(pre + m.Bundle(nonce, runs)) == NormalizeOutput(pre) + m.Bundle(nonce, Normalized(runs))
    decreases |runs|
  {
    if runs == [] {
      assert pre + "" == pre;
    } else {
      NormalizedBundle(m, "\n", nonce, runs[1..]);
      NewlineIsNormal();
      var rcLine := m.RcMarker(nonce, runs[0].name) + (Dec(runs[0].code) + "__");
      NormalizedRun(m, pre, nonce, runs, m.BeginMarker(nonce, runs[0].name), m.Bundle(nonce, runs[1..]), rcLine);
      NormalizedSplits(m, nonce, runs, m.BeginMarker(nonce, runs[0].name), rcLine);
    }
  }

  lemma NormalizedSplits(m: Scheme, nonce: string, runs: seq<Run>, begin: string, rcLine: string)
    requires runs != [] && begin == m.BeginMarker(nonce, runs[0].name)
    requires rcLine == m.RcMarker(nonce, runs[0].name) + (Dec(runs[0].code) + "__")
    ensures m.Bundle(nonce, Normalized(runs)) ==
            begin + (NormalizeOutput(runs[0].text) + (rcLine + ("\n" + m.Bundle(nonce, Normalized(runs[1..])))))
  {
    assert Normalized(runs)[1..] == Normalized(runs[1..]);
    Regroup(m.RcMarker(nonce, runs[0].name), Dec(runs[0].code), m.Bundle(nonce, Normalized(runs[1..])));
  }

  lemma NewlineIsNormal()
    ensures NormalizeOutput("\n") == "\n"
  {
    PlainText("\n");
    DropCrDrops("\n");
    CollapseFixes("\n", 0);
  }

  lemma NormalizedRun(
    m: Scheme, pre: string, nonce: string, runs: seq<Run>, begin: string, rest: string, rcLine: string)
    requires ProperScheme(m) && Unaffected(nonce)
    requires runs != [] && OnOwnLine(runs[0]) && Unaffected(runs[0].name)
    requires begin == m.BeginMarker(nonce, runs[0].name) && rest == m.Bundle(nonce, runs[1..])
    requires rcLine == m.RcMarker(nonce, runs[0].name) + (Dec(runs[0].code) + "__")
    ensures NormalizeOutput(pre + m.Bundle(nonce, runs)) ==
            NormalizeOutput(pre) + (begin + (NormalizeOutput(runs[0].text) + (rcLine + NormalizeOutput("\n" + rest))))
  {
    var text := runs[0].text;
    MarkersAreMarkers(m, nonce, runs[0], begin, rcLine);
    Regroup(m.RcMarker(nonce, runs[0].name), Dec(runs[0].code), rest);
    assert m.Bundle(nonce, runs) == begin + (text + (rcLine + ("\n" + rest)));
    NormalizeBetween(pre, begin, text, rcLine, "\n" + rest);
  }

  lemma Regroup(a: string, b: string, rest: string)
    ensures a + (b + ("__\n" + rest)) == (a + (b + "__")) + ("\n" + rest)
  {
    assert "__\n" == "__" + "\n";
  }

  lemma NormalizeSplit(a: string, m: string, b: string)
    requires Marker(m) && b != "" && b[0] == '\n'
    ensures NormalizeOutput(a + (m + b)) == NormalizeOutput(a) + (m + NormalizeOutput(b))
  {
    NormalizeAroundMarker(a, m, b);
    Associate(a, m, b);
    Associate(NormalizeOutput(a), m, NormalizeOutput(b));
  }

  lemma Associate(a: string, b: string, c: string)
    ensures a + b + c == a + (b + c)
  {}

  lemma NormalizeBetween(a: string, m: string, b: string, n: string, c: string)
    requires Marker(m) && Marker(n) && b != "" && b[0] == '\n' && c != "" && c[0] == '\n'
    ensures NormalizeOutput(a + (m + (b + (n + c)))) ==
            NormalizeOutput(a) + (m + (NormalizeOutput(b) + (n + NormalizeOutput(c))))
  {
    NormalizeSplit(b, n, c);
    var rest := b + (n + c);
    assert rest[0] == '\n';
    NormalizeSplit(a, m, rest);
  }

  // ----- End to end -----

  /** What the shell prints for each query: its output, on the line after the begin marker. */
  function Printed(outputs: seq<string>, codes: seq<nat>): (runs: seq<Run>)
    requires |outputs| == |codes| == |QUERIES|
    ensures Names(runs) == QUERIES
  {
    seq(|QUERIES|, i requires 0 <= i < |QUERIES| => Run(QUERIES[i], "\n" + outputs[i], codes[i]))
  }

  lemma SchemeIsGood()
    ensures PREFLIGHT.Good() && ProperScheme(PREFLIGHT)
  {
    assert PREFLIGHT.q[12] == 'Q' && PREFLIGHT.rc[13] == 'C';
    PrefixesAreUnaffected();
  }

  lemma PrefixesAreUnaffected()
    ensures Unaffected(PREFLIGHT.q) && Unaffected(PREFLIGHT.rc)
  {}

  /** No query name holds sixteen hex digits in a row, an underscore or anything that normalisation touches. */
  lemma QueryNamesFit(nonce: string, i: nat)
    requires All(nonce, Hex) && |nonce| == 16 && i < |QUERIES|
    ensures NoUnderscore(QUERIES[i]) && Unaffected(QUERIES[i]) && !Contains(QUERIES[i], nonce)
  {
    QueryNamesArePlain(i);
    NameFits(nonce, QUERIES[i]);
  }

  lemma NameFits(nonce: string, name: string)
    requires All(nonce, Hex) && |nonce| == 16 && IsQueryName(name)
    ensures NoUnderscore(name) && Unaffected(name) && !Contains(name, nonce)
  {
    if Contains(name, nonce) {
      var p :| OccursAt(name, p, nonce);
      HexThere(name, p, nonce, 12);
    }
  }

  predicate IsQueryName(s: string) {
    && (forall i :: 0 <= i < |s| ==> s[i] == '-' || 'a' <= s[i] <= 'z')
    && (|s| < 16 || (|s| <= 28 && s[12] > 'f'))
  }

  lemma NameOfOptions()
    ensures IsQueryName("docker-info-security-options")
  {}

  lemma NameOfRuntimes()
    ensures IsQueryName("docker-info-runtimes")
  {}

  lemma NameOfVersion()
    ensures IsQueryName("docker-version")
  {}

  lemma NamesOfOthers()
    ensures IsQueryName("auth-probe") && IsQueryName("compose-ls")
  {}

  lemma QueryNamesArePlain(i: nat)
    requires i < |QUERIES|
    ensures IsQueryName(QUERIES[i])
  {
    NameOfOptions();
    NameOfRuntimes();
    NameOfVersion();
    NamesOfOthers();
  }

  lemma QueriesDistinct()
    ensures Distinct(QUERIES)
  {
    assert |QUERIES[0]| == 10 && |QUERIES[1]| == 14 && |QUERIES[2]| == 28 && |QUERIES[3]| == 20 && |QUERIES[4]| == 10;
    assert QUERIES[0][0] != QUERIES[4][0];
  }

  lemma ShortCode(code: nat)
    requires code < 256
    ensures |Dec(code)| <= 3
  {
    assert Dec(code / 10) ==
           if code < 100 then [DigitChar(code / 10)] else Dec(code / 100) + [DigitChar(code / 10 % 10)];
  }

  lemma HexIsUnaffected(nonce: string)
    requires All(nonce, Hex) && nonce != ""
    ensures Unaffected(nonce) && !Contains("\n", nonce)
  {
    forall c | c in nonce
      ensures IsHex(c)
    {
      var i :| 0 <= i < |nonce| && nonce[i] == c;
      assert Hex.Has(nonce[i]);
    }
    if Contains("\n", nonce) {
      var p :| OccursAt("\n", p, nonce);
      HexThere("\n", p, nonce, p);
    }
  }

  lemma {:induction false} BundleIsTerminated(m: Scheme, nonce: string, runs: seq<Run>)
    requires runs != []
    ensures m.Bundle(nonce, runs) != "" && Terminated(m.Bundle(nonce, runs))
  {
    var rest := m.Bundle(nonce, runs[1..]);
    if |runs| > 1 {
      BundleIsTerminated(m, nonce, runs[1..]);
    }
    assert m.Rest(nonce, runs) == Dec(runs[0].code) + ("__\n" + rest);
    assert ("__\n" + rest)[|rest| + 2] == '\n';
    EndsAlike(m.BeginMarker(nonce, runs[0].name), runs[0].text, m.RcMarker(nonce, runs[0].name), m.Rest(nonce, runs));
  }

  lemma EndsAlike(a: string, b: string, c: string, d: string)
    requires d != ""
    ensures Terminated(a + (b + (c + d))) <==> Terminated(d)
  {}

  lemma BundleKeepsItsStart(m: Scheme, nonce: string, runs: seq<Run>)
    requires runs != [] && m.q != "" && m.q[0] == '_'
    ensures DropLeadingBlankLines(m.Bundle(nonce, runs)) == m.Bundle(nonce, runs)
  {
    assert m.Bundle(nonce, runs)[0] == m.q[0];
  }

  /** Printed segments, once normalised, are what the round trip asks for. */
  lemma PrintedFits(nonce: string, outputs: seq<string>, codes: seq<nat>, i: nat)
    requires All(nonce, Hex) && |nonce| == 16 && |outputs| == |codes| == |QUERIES| && i < |QUERIES|
    requires codes[i] < 256 && !Contains(Segment(outputs[i]), nonce)
    ensures Fits(nonce, Normalized(Printed(outputs, codes))[i])
    ensures OnOwnLine(Printed(outputs, codes)[i]) && Unaffected(Printed(outputs, codes)[i].name)
  {
    QueryNamesFit(nonce, i);
    ShortCode(codes[i]);
  }

  /** The parser's verdicts on the normalised text of a bundle, after a newline or nothing. */
  lemma {:induction false} BundleIsParsed(pre: string, nonce: string, outputs: seq<string>, codes: seq<nat>)
    requires All(nonce, Hex) && |nonce| == 16 && |outputs| == |codes| == |QUERIES|
    requires forall i :: 0 <= i < |QUERIES| ==> codes[i] < 256 && !Contains(Segment(outputs[i]), nonce)
    requires !Contains(NormalizeOutput(pre), nonce)
    ensures PREFLIGHT.Parse(NormalizeOutput(pre + PREFLIGHT.Bundle(nonce, Printed(outputs, codes))), nonce, QUERIES) ==
            Verdicts(Normalized(Printed(outputs, codes)))
  {
    PrintedIsReady(nonce, outputs, codes, Printed(outputs, codes));
    NormalizedIsParsed(PREFLIGHT, pre, nonce, Printed(outputs, codes));
  }

  /** What parsing a normalised bundle needs. */
  ghost predicate Ready(m: Scheme, nonce: string, runs: seq<Run>) {
    && m.Good() && ProperScheme(m) && IsNonce(nonce) && Unaffected(nonce) && Distinct(Names(runs))
    && (forall i :: 0 <= i < |runs| ==> Fits(nonce, Normalized(runs)[i]))
    && (forall i :: 0 <= i < |runs| ==> OnOwnLine(runs[i]) && Unaffected(runs[i].name))
  }

  lemma PrintedIsReady(nonce: string, outputs: seq<string>, codes: seq<nat>, runs: seq<Run>)
    requires All(nonce, Hex) && |nonce| == 16 && |outputs| == |codes| == |QUERIES| && runs == Printed(outputs, codes)
    requires forall i :: 0 <= i < |QUERIES| ==> codes[i] < 256 && !Contains(Segment(outputs[i]), nonce)
    ensures Ready(PREFLIGHT, nonce, runs)
  {
    SchemeIsGood();
    QueriesDistinct();
    HexIsUnaffected(nonce);
    AllPrintedFit(nonce, outputs, codes, runs);
  }

  lemma NormalizedIsParsed(m: Scheme, pre: string, nonce: string, runs: seq<Run>)
    requires Ready(m, nonce, runs) && !Contains(NormalizeOutput(pre), nonce)
    ensures m.Parse(NormalizeOutput(pre + m.Bundle(nonce, runs)), nonce, Names(runs)) == Verdicts(Normalized(runs))
  {
    NormalizedBundle(m, pre, nonce, runs);
    assert Names(Normalized(runs)) == Names(runs);
    ParsesBundle(m, NormalizeOutput(pre), nonce, Normalized(runs));
  }

  lemma AllPrintedFit(nonce: string, outputs: seq<string>, codes: seq<nat>, runs: seq<Run>)
    requires All(nonce, Hex) && |nonce| == 16 && |outputs| == |codes| == |QUERIES| && runs == Printed(outputs, codes)
    requires forall i :: 0 <= i < |QUERIES| ==> codes[i] < 256 && !Contains(Segment(outputs[i]), nonce)
    ensures forall i :: 0 <= i < |runs| ==> Fits(nonce, Normalized(runs)[i])
    ensures forall i :: 0 <= i < |runs| ==> OnOwnLine(runs[i]) && Unaffected(runs[i].name)
  {
    forall i | 0 <= i < |runs|
      ensures Fits(nonce, Normalized(runs)[i]) && OnOwnLine(runs[i]) && Unaffected(runs[i].name)
    {
      PrintedFits(nonce, outputs, codes, i);
    }
  }

  /** White space at the start of a segment, and how many newlines of it survive, does not show once stripped. */
  lemma {:induction false} LStripCollapse(s: string, j: nat, k: nat)
    ensures LStrip(Collapse(s, j)) == LStrip(Collapse(s, k))
  {
    if s != "" {
      if s[0] == '\n' {
        var j', k' := if j >= 2 then 2 else j + 1, if k >= 2 then 2 else k + 1;
        LStripCollapse(s[1..], j', k');
        LStripNewline(Collapse(s[1..], j'));
        LStripNewline(Collapse(s[1..], k'));
        assert Collapse(s, j) == (if j >= 2 then Collapse(s[1..], j') else "\n" + Collapse(s[1..], j'));
        assert Collapse(s, k) == (if k >= 2 then Collapse(s[1..], k') else "\n" + Collapse(s[1..], k'));
      } else {
        assert Collapse(s, j) == Collapse(s, k);
      }
    }
  }

  lemma LStripNewline(s: string)
    ensures LStrip("\n" + s) == LStrip(s)
  {
    assert ("\n" + s)[1..] == s;
  }

  lemma SegmentStripped(output: string)
    ensures Strip(Segment(output)) == Strip(NormalizeOutput(output))
  {
    var x := DropCr(StripAnsi(output));
    var raw := "\n" + output;
    assert raw[1..] == output;
    assert StripAnsi(raw) == "\n" + StripAnsi(output);
    assert ("\n" + StripAnsi(output))[1..] == StripAnsi(output);
    assert DropCr(StripAnsi(raw)) == "\n" + x;
    assert ("\n" + x)[1..] == x;
    assert Segment(output) == "\n" + Collapse(x, 1);
    LStripNewline(Collapse(x, 1));
    LStripCollapse(x, 0, 1);
  }

  /**
   From the shell to the verdicts: the frame around the bundle is recovered with its nonce, and the parser then
   finds each query's exit code (ok if and only if it is 0) and its normalised, stripped output.
  */
  lemma {:induction false} HealthCheckEndToEnd(
    crossing: string, nonce: string, outputs: seq<string>, codes: seq<nat>, i: nat)
    requires All(nonce, Hex) && |nonce| == 16 && |outputs| == |codes| == |QUERIES| && i < |QUERIES|
    requires forall i :: 0 <= i < |QUERIES| ==> codes[i] < 256 && !Contains(Segment(outputs[i]), nonce)
    requires crossing == SANDBOX.Frame(nonce, PREFLIGHT.Bundle(nonce, Printed(outputs, codes)), 0)
    ensures SANDBOX.SearchBegin(crossing).Some? && SANDBOX.SearchBegin(crossing).value.token == nonce
    ensures SANDBOX.RecoverFramed(crossing).Completed?
    ensures PREFLIGHT.Parse(SANDBOX.RecoverFramed(crossing).stdout, nonce, QUERIES)[i] ==
            Exited(codes[i], Strip(NormalizeOutput(outputs[i])))
    ensures forall timedOut ::
              var o := OutcomeOf(PREFLIGHT.Parse(SANDBOX.RecoverFramed(crossing).stdout, nonce, QUERIES)[i], timedOut);
              && (o.ok <==> codes[i] == 0) && o.timedOut == timedOut
              && o.stdout == if codes[i] == 0 then Strip(NormalizeOutput(outputs[i])) else ""
  {
    CrossingIsRecovered(crossing, nonce, PREFLIGHT, Printed(outputs, codes));
    SegmentVerdict(nonce, outputs, codes, i);
  }

  lemma SegmentVerdict(nonce: string, outputs: seq<string>, codes: seq<nat>, i: nat)
    requires All(nonce, Hex) && |nonce| == 16 && |outputs| == |codes| == |QUERIES| && i < |QUERIES|
    requires forall i :: 0 <= i < |QUERIES| ==> codes[i] < 256 && !Contains(Segment(outputs[i]), nonce)
    ensures PREFLIGHT.Parse(
              NormalizeOutput("\n" + PREFLIGHT.Bundle(nonce, Printed(outputs, codes))), nonce, QUERIES)[i] ==
            Exited(codes[i], Strip(NormalizeOutput(outputs[i])))
  {
    NewlineIsNormal();
    HexIsUnaffected(nonce);
    BundleIsParsed("\n", nonce, outputs, codes);
    SegmentStripped(outputs[i]);
  }

  lemma CrossingIsRecovered(crossing: string, nonce: string, m: Scheme, runs: seq<Run>)
    requires IsNonce(nonce) && runs != [] && m.q != "" && m.q[0] == '_'
    requires crossing == SANDBOX.Frame(nonce, m.Bundle(nonce, runs), 0)
    ensures SANDBOX.SearchBegin(crossing).Some? && SANDBOX.SearchBegin(crossing).value.token == nonce
    ensures SANDBOX.RecoverFramed(crossing) == Completed(NormalizeOutput("\n" + m.Bundle(nonce, runs)))
  {
    BundleIsTerminated(m, nonce, runs);
    BundleKeepsItsStart(m, nonce, runs);
    FrameRoundTrip(nonce, m.Bundle(nonce, runs), 0);
  }
}
