/** What the executor recovers from a frame, and when it refuses to. */
module FrameTheorems {
  import opened Options
  import opened Text
  import opened Normalize
  import opened Framing

  predicate EndsWith(ms: seq<Match>, x: Match) {
    ms != [] && ms[|ms| - 1] == x
  }

  // ----- Exit matches, by their parts -----

  /** A match at `p`: token up to `h`, digits up to `d`. */
  ghost predicate ExitParts(m: Markers, s: string, p: nat, h: nat, d: nat) {
    var t := p + |m.exit|;
    && AtLineStart(s, p) && OccursAt(s, p, m.exit)
    && t < h && Run(s, t, h, Hex) && h < |s| && s[h] == '_'
    && h + 1 < d && Run(s, h + 1, d, Digit)
  }

  lemma ExitAtIs(m: Markers, s: string, p: nat, h: nat, d: nat)
    requires ExitParts(m, s, p, h, d) && TailEnd(s, d).Some? && All(s[h + 1..d], Digit)
    ensures m.ExitAt(s, p) ==
            Some(Match(p, TailEnd(s, d).value, s[p + |m.exit|..h], DecValue(s[h + 1..d])))
  {
    RunIsSpanEnd(s, p + |m.exit|, h, Hex);
    RunIsSpanEnd(s, h + 1, d, Digit);
  }

  lemma ExitAtHasParts(m: Markers, s: string, p: nat) returns (h: nat, d: nat)
    requires m.ExitAt(s, p).Some?
    ensures ExitParts(m, s, p, h, d)
    ensures TailEnd(s, d) == Some(m.ExitAt(s, p).value.end)
    ensures m.ExitAt(s, p).value.token == s[p + |m.exit|..h]
  {
    var t := p + |m.exit|;
    h := SpanEnd(s, t, Hex);
    SpanEndIsRun(s, t, Hex);
    d := SpanEnd(s, h + 1, Digit);
    SpanEndIsRun(s, h + 1, Digit);
  }

  /** The captured part of a match is on one line. */
  lemma PartsAreOneLine(m: Markers, s: string, p: nat, h: nat, d: nat)
    requires m.Good() && ExitParts(m, s, p, h, d)
    ensures forall i :: p <= i < d ==> s[i] != '\n'
  {
    var t := p + |m.exit|;
    forall i | p <= i < d
      ensures s[i] != '\n'
    {
      if i < t {
        At(s, p, m.exit, i - p);
      } else if i < h {
        assert In(s, i, Hex);
      } else if h < i {
        assert In(s, i, Digit);
      }
    }
  }

  lemma TailStops(s: string, d: nat, ts: nat)
    requires d <= ts < |s| && !IsSpace(s[ts]) && TailEnd(s, d).Some?
    ensures TailEnd(s, d).value < ts
  {
    SpanEndIsRun(s, d, Space);
    assert ts < SpanEnd(s, d, Space) ==> In(s, ts, Space);
  }

  /** A match that starts before a line of text ends before that line. */
  lemma MatchStaysBefore(m: Markers, s: string, p: nat, ts: nat)
    requires m.Good() && p < ts < |s| && s[ts - 1] == '\n' && !IsSpace(s[ts])
    requires m.ExitAt(s, p).Some?
    ensures m.ExitAt(s, p).value.end < ts
  {
    var h, d := ExitAtHasParts(m, s, p);
    PartsAreOneLine(m, s, p, h, d);
    TailStops(s, d, ts);
  }

  // ----- The trailer of terminated output is the last match -----

  /** The last match of a scan is the one that reaches the end of the text, when no earlier match runs into it. */
  lemma {:induction false} FoundLast(at: nat -> Option<Match>, size: nat, p: nat, x: Match)
    requires p <= x.start < size && at(x.start) == Some(x) && x.end == size && at(size).None?
    requires forall q: nat :: q < x.start && at(q).Some? ==> at(q).value.end <= x.start
    ensures EndsWith(FindAll(at, size, p), x)
    decreases x.start - p
  {
    if p == x.start {
      assert FindAll(at, size, size) == [];
    } else if at(p).Some? && p < at(p).value.end {
      FoundLast(at, size, at(p).value.end, x);
    } else {
      FoundLast(at, size, p + 1, x);
    }
  }

  lemma {:induction false} WithTokenKeepsLast(ms: seq<Match>, token: string, x: Match)
    requires EndsWith(ms, x) && x.token == token
    ensures EndsWith(WithToken(ms, token), x)
  {
    if |ms| > 1 {
      WithTokenKeepsLast(ms[1..], token, x);
    }
  }

  /** A match that starts a line and reaches the end of the text is the last one found. */
  lemma ClosingMatchIsLast(m: Markers, s: string, x: Match)
    requires m.Good() && x.start < |s| && m.ExitAt(s, x.start) == Some(x) && x.end == |s|
    requires x.start == 0 || s[x.start - 1] == '\n'
    requires !IsSpace(s[x.start])
    ensures EndsWith(WithToken(m.FindExits(s), x.token), x)
  {
    var at := m.ExitMatcher(s);
    assert at(|s|).None?;
    forall q: nat | q < x.start && at(q).Some?
      ensures at(q).value.end <= x.start
    {
      MatchStaysBefore(m, s, q, x.start);
    }
    FoundLast(at, |s|, 0, x);
    WithTokenKeepsLast(m.FindExits(s), x.token, x);
  }

  lemma RunOf(s: string, i: nat, w: string, k: Class)
    requires OccursAt(s, i, w) && All(w, k) && (i + |w| < |s| ==> !k.Has(s[i + |w|]))
    ensures Run(s, i, i + |w|, k)
    ensures s[i..i + |w|] == w
  {
    forall j | i <= j < i + |w|
      ensures In(s, j, k) && s[j] == w[j - i]
    {
      At(s, i, w, j - i);
    }
  }

  /** Where the pieces of the trailer lie. */
  lemma TrailerPieces(m: Markers, s: string, p: nat, nonce: string, code: nat, t: nat, h: nat, d: nat)
    requires p <= |s| && s[p..] == m.ExitLine(nonce, code)
    requires t == p + |m.exit| && h == t + |nonce| && d == h + 1 + |Dec(code)|
    ensures OccursAt(s, p, m.exit) && OccursAt(s, t, nonce) && OccursAt(s, h, "_")
    ensures OccursAt(s, h + 1, Dec(code)) && OccursAt(s, d, "\n") && |s| == d + 1
  {
    var digits := Dec(code);
    PieceAt(s, p, m.exit, nonce + ("_" + (digits + "\n")));
    PieceAt(s, t, nonce, "_" + (digits + "\n"));
    PieceAt(s, h, "_", digits + "\n");
    PieceAt(s, h + 1, digits, "\n");
    assert s[h + 1 + |digits|..] == "\n" + "";
    PieceAt(s, h + 1 + |digits|, "\n", "");
  }

  lemma TrailerParts(m: Markers, s: string, p: nat, nonce: string, code: nat, t: nat, h: nat, d: nat)
    requires IsNonce(nonce) && AtLineStart(s, p) && s[p..] == m.ExitLine(nonce, code)
    requires t == p + |m.exit| && h == t + |nonce| && d == h + 1 + |Dec(code)|
    ensures ExitParts(m, s, p, h, d) && s[t..h] == nonce && s[h + 1..d] == Dec(code)
    ensures |s| == d + 1 && s[d] == '\n'
  {
    TrailerPieces(m, s, p, nonce, code, t, h, d);
    At(s, h, "_", 0);
    At(s, d, "\n", 0);
    RunOf(s, t, nonce, Hex);
    RunOf(s, h + 1, Dec(code), Digit);
  }

  lemma TailAtEnd(s: string, d: nat)
    requires |s| == d + 1 && s[d] == '\n'
    ensures TailEnd(s, d) == Some(|s|)
  {
    assert In(s, d, Space);
    RunIsSpanEnd(s, d, |s|, Space);
  }

  lemma TrailerMatches(m: Markers, s: string, p: nat, nonce: string, code: nat)
    requires IsNonce(nonce) && AtLineStart(s, p) && s[p..] == m.ExitLine(nonce, code)
    ensures m.ExitAt(s, p) == Some(Match(p, |s|, nonce, code))
  {
    var t := p + |m.exit|;
    var h := t + |nonce|;
    var d := h + 1 + |Dec(code)|;
    TrailerParts(m, s, p, nonce, code, t, h, d);
    TailAtEnd(s, d);
    DecRoundTrip(code);
    ExitAtIs(m, s, p, h, d);
  }

  lemma TrailerIsLast(m: Markers, s: string, p: nat, nonce: string, code: nat)
    requires m.Good() && IsNonce(nonce) && AtLineStart(s, p) && s[p..] == m.ExitLine(nonce, code)
    ensures EndsWith(WithToken(m.FindExits(s), nonce), Match(p, |s|, nonce, code))
  {
    TrailerMatches(m, s, p, nonce, code);
    TrailerStart(m, s, p, nonce, code);
    ClosingMatchIsLast(m, s, Match(p, |s|, nonce, code));
  }

  // ----- The first BEGIN line -----

  /** Where the pieces of the BEGIN line lie. */
  lemma BeginPieces(m: Markers, s: string, i: nat, nonce: string, rest: string)
    requires s == m.BeginLine(nonce) + rest && i == |m.begin| + |nonce|
    ensures OccursAt(s, 0, m.begin) && OccursAt(s, |m.begin|, nonce) && OccursAt(s, i, "\n")
    ensures OccursAt(s, i + 1, rest) && |s| == i + 1 + |rest| && s[i + 1..] == rest
  {
    assert s[0..] == m.begin + (nonce + ("\n" + rest));
    PieceAt(s, 0, m.begin, nonce + ("\n" + rest));
    PieceAt(s, |m.begin|, nonce, "\n" + rest);
    PieceAt(s, |m.begin| + |nonce|, "\n", rest);
    assert rest == rest + "";
    PieceAt(s, |m.begin| + |nonce| + 1, rest, "");
  }

  /** White space that begins with a newline always gives the ending somewhere to stop. */
  lemma TailFromNewline(s: string, i: nat)
    requires i < |s| && s[i] == '\n'
    ensures TailEnd(s, i).Some?
  {
    assert In(s, i, Space);
    HasNewline(s, i, SpanEnd(s, i, Space));
  }

  lemma {:induction false} HasNewline(s: string, i: nat, e: nat)
    requires i < e <= |s| && s[i] == '\n'
    ensures LastNewline(s, i, e).Some?
    decreases e
  {
    if s[e - 1] != '\n' {
      HasNewline(s, i, e - 1);
    }
  }

  lemma BeginFound(m: Markers, s: string, i: nat, nonce: string, rest: string)
    requires IsNonce(nonce) && s == m.BeginLine(nonce) + rest && i == |m.begin| + |nonce|
    ensures i < |s| && TailEnd(s, i).Some?
    ensures m.SearchBegin(s) == Some(Match(0, TailEnd(s, i).value, nonce, 0))
  {
    var t := |m.begin|;
    BeginPieces(m, s, i, nonce, rest);
    At(s, i, "\n", 0);
    RunOf(s, t, nonce, Hex);
    RunIsSpanEnd(s, t, i, Hex);
    TailFromNewline(s, i);
    assert m.BeginMatcher(s)(0) == Some(Match(0, TailEnd(s, i).value, nonce, 0));
  }

  /** The white space after BEGIN is its newline and the leading white space of the output. */
  lemma BlankRun(s: string, i: nat, output: string)
    requires i + 1 + |output| < |s| && s[i] == '\n' && OccursAt(s, i + 1, output)
    requires !IsSpace(s[i + 1 + |output|])
    ensures SpanEnd(s, i, Space) == i + 1 + SpanEnd(output, 0, Space)
  {
    var w := SpanEnd(output, 0, Space);
    SpanEndIsRun(output, 0, Space);
    forall j | i <= j < i + 1 + w
      ensures In(s, j, Space)
    {
      if j > i {
        At(s, i + 1, output, j - i - 1);
        assert In(output, j - i - 1, Space);
      }
    }
    if w < |output| {
      At(s, i + 1, output, w);
    }
    RunIsSpanEnd(s, i, i + 1 + w, Space);
  }

  lemma {:induction false} NewlineAfterBegin(s: string, i: nat, output: string, w: nat)
    requires i + 1 + |output| <= |s| && s[i] == '\n' && OccursAt(s, i + 1, output) && w <= |output|
    ensures LastNewline(s, i, i + 1 + w) ==
            Some(match LastNewline(output, 0, w) case None => i case Some(k) => i + 1 + k)
  {
    if w > 0 {
      At(s, i + 1, output, w - 1);
      NewlineAfterBegin(s, i, output, w - 1);
    }
  }

  /** Cutting the BEGIN match out of the text before the trailer leaves its newline and the output's other lines. */
  lemma AfterBegin(s: string, i: nat, output: string)
    requires i + 1 + |output| < |s| && s[i] == '\n' && OccursAt(s, i + 1, output)
    requires !IsSpace(s[i + 1 + |output|])
    ensures TailEnd(s, i).Some? && TailEnd(s, i).value <= i + 1 + |output|
    ensures s[TailEnd(s, i).value..i + 1 + |output|] == "\n" + DropLeadingBlankLines(output)
  {
    var w := SpanEnd(output, 0, Space);
    BlankRun(s, i, output);
    NewlineAfterBegin(s, i, output, w);
    match LastNewline(output, 0, w)
    case None => SliceFromNewline(s, i, i, output, 0);
    case Some(k) => SliceFromNewline(s, i, i + 1 + k, output, k + 1);
  }

  lemma SliceFromNewline(s: string, i: nat, be: nat, output: string, from: nat)
    requires i + 1 + |output| < |s| && OccursAt(s, i + 1, output)
    requires be == i + from && from <= |output| && s[be] == '\n'
    ensures s[be..i + 1 + |output|] == "\n" + output[from..]
  {
    forall j | 0 <= j < |output| - from
      ensures s[be + 1 + j] == output[from..][j]
    {
      At(s, i + 1, output, from + j);
    }
  }

  // ----- Round trips -----

  /**
   Whatever an operation prints, as long as its last line is terminated, the executor recovers its exit
   code and its output, minus leading blank lines, normalised after the newline that closed BEGIN.  The
   output may hold anything, forged frames included: the first BEGIN and the last trailer are genuine.
  */
  lemma {:induction false} FrameRoundTrip(nonce: string, output: string, code: nat)
    requires IsNonce(nonce) && Terminated(output)
    ensures var text := NormalizeOutput("\n" + DropLeadingBlankLines(output));
            SANDBOX.RecoverFramed(SANDBOX.Frame(nonce, output, code)) ==
            if code == 0 then Completed(text) else InnerFailed(code, text)
    ensures var b := SANDBOX.SearchBegin(SANDBOX.Frame(nonce, output, code));
            b.Some? && b.value.token == nonce
  {
    SandboxMarkersAreGood();
    var s := SANDBOX.Frame(nonce, output, code);
    var be := FrameBegin(SANDBOX, s, |SANDBOX.begin| + |nonce| + 1 + |output|, nonce, output, code,
                         "\n" + DropLeadingBlankLines(output));
    AnyFrameRoundTrip(SANDBOX, s, nonce, output, code);
  }

  lemma AnyFrameRoundTrip(m: Markers, s: string, nonce: string, output: string, code: nat)
    requires m.Good() && IsNonce(nonce) && Terminated(output) && s == m.Frame(nonce, output, code)
    ensures Recover(s, m.SearchBegin(s), true, "", m.FindExits(s)) ==
            Conclude(code, "\n" + DropLeadingBlankLines(output))
  {
    var ts, text := |m.begin| + |nonce| + 1 + |output|, "\n" + DropLeadingBlankLines(output);
    var be := FrameBegin(m, s, ts, nonce, output, code, text);
    FrameEnd(m, s, ts, nonce, output, code);
    RecoverBetween(s, Match(0, be, nonce, 0), m.SearchBegin(s), m.FindExits(s), Match(ts, |s|, nonce, code), text);
  }

  lemma FrameBegin(m: Markers, s: string, ts: nat, nonce: string, output: string, code: nat, text: string)
    returns (be: nat)
    requires m.Good() && IsNonce(nonce) && s == m.Frame(nonce, output, code)
    requires ts == |m.begin| + |nonce| + 1 + |output| && text == "\n" + DropLeadingBlankLines(output)
    ensures be <= ts <= |s| && s[be..ts] == text
    ensures m.SearchBegin(s) == Some(Match(0, be, nonce, 0))
  {
    var i := |m.begin| + |nonce|;
    FramePieces(m, s, i, ts, nonce, output, m.ExitLine(nonce, code));
    TrailerStart(m, s, ts, nonce, code);
    AfterBegin(s, i, output);
    BeginFound(m, s, i, nonce, output + m.ExitLine(nonce, code));
    be := TailEnd(s, i).value;
  }

  lemma TrailerStart(m: Markers, s: string, ts: nat, nonce: string, code: nat)
    requires m.Good() && ts <= |s| && s[ts..] == m.ExitLine(nonce, code)
    ensures ts < |s| && !IsSpace(s[ts])
  {
    TrailerPieces(m, s, ts, nonce, code, ts + |m.exit|, ts + |m.exit| + |nonce|,
                  ts + |m.exit| + |nonce| + 1 + |Dec(code)|);
    At(s, ts, m.exit, 0);
  }

  lemma FrameEnd(m: Markers, s: string, ts: nat, nonce: string, output: string, code: nat)
    requires m.Good() && IsNonce(nonce) && Terminated(output) && s == m.Frame(nonce, output, code)
    requires ts == |m.begin| + |nonce| + 1 + |output|
    ensures EndsWith(WithToken(m.FindExits(s), nonce), Match(ts, |s|, nonce, code))
  {
    FramePieces(m, s, |m.begin| + |nonce|, ts, nonce, output, m.ExitLine(nonce, code));
    TrailerIsLast(m, s, ts, nonce, code);
  }

  lemma RecoverBetween(s: string, b: Match, begin: Option<Match>, exits: seq<Match>, x: Match, text: string)
    requires begin == Some(b) && EndsWith(WithToken(exits, b.token), x)
    requires b.start == 0 && b.end <= x.start <= x.end == |s| && s[b.end..x.start] == text
    ensures Recover(s, begin, true, "", exits) == Conclude(x.code, text)
  {
    CutBoth(s, b.end, x.start);
  }

  lemma FramePieces(m: Markers, s: string, i: nat, ts: nat, nonce: string, output: string, trailer: string)
    requires s == m.BeginLine(nonce) + (output + trailer)
    requires i == |m.begin| + |nonce| && ts == i + 1 + |output|
    ensures |s| == ts + |trailer| && s[i] == '\n' && OccursAt(s, i + 1, output) && s[ts..] == trailer
    ensures Terminated(output) <==> s[ts - 1] == '\n'
  {
    BeginPieces(m, s, i, nonce, output + trailer);
    PieceAt(s, i + 1, output, trailer);
    At(s, i, "\n", 0);
    if output != "" {
      At(s, i + 1, output, |output| - 1);
    }
  }

  lemma CutBoth(s: string, be: nat, ts: nat)
    requires be <= ts <= |s|
    ensures Cut(Cut(s, ts, |s|), 0, be) == s[be..ts]
  {
    assert Cut(s, ts, |s|) == s[..ts];
  }

  /** The same for a token the executor injected: there is no BEGIN line to strip. */
  lemma {:induction false} InjectedRoundTrip(token: string, output: string, code: nat)
    requires IsNonce(token) && Terminated(output)
    ensures SANDBOX.RecoverInjected(output + SANDBOX.ExitLine(token, code), token) ==
            if code == 0 then Completed(NormalizeOutput(output)) else InnerFailed(code, NormalizeOutput(output))
  {
    SandboxMarkersAreGood();
    InjectedAnyMarkers(SANDBOX, token, output, code);
  }

  lemma InjectedAnyMarkers(m: Markers, token: string, output: string, code: nat)
    requires m.Good() && IsNonce(token) && Terminated(output)
    ensures m.RecoverInjected(output + m.ExitLine(token, code), token) == Conclude(code, output)
  {
    var line := m.ExitLine(token, code);
    CutsBack(output, line);
    TrailerIsLast(m, output + line, |output|, token, code);
    RecoverLast(output + line, token, m.FindExits(output + line), Match(|output|, |output + line|, token, code));
  }

  lemma CutsBack(output: string, line: string)
    ensures (output + line)[|output|..] == line && Cut(output + line, |output|, |output + line|) == output
  {}

  lemma RecoverLast(stdout: string, token: string, exits: seq<Match>, last: Match)
    requires EndsWith(WithToken(exits, token), last)
    ensures Recover(stdout, None, false, token, exits) == Conclude(last.code, Cut(stdout, last.start, last.end))
  {}

  /** Every framed dispatch, returning or replaced, is recovered. */
  lemma {:induction false} DispatchIsRecovered(argv: seq<string>, nonce: string, ending: Ending)
    requires IsNonce(nonce) && (ending.Replaced? ==> Terminated(ending.output))
    requires !(|argv| >= 2 && argv[1] == "fwd" && argv[2..] != ["--check"])
    ensures var text := NormalizeOutput("\n" + DropLeadingBlankLines(if ending.Replaced? then ending.output else ""));
            SANDBOX.RecoverFramed(DispatchStdout(argv, nonce, ending)) ==
            if ending.code == 0 then Completed(text) else InnerFailed(ending.code, text)
  {
    FrameRoundTrip(nonce, if ending.Replaced? then ending.output else "", ending.code);
  }

  /** The streaming operation, but for its check, is not framed: its output goes through as it is. */
  lemma {:induction false} StreamIsNotFramed(argv: seq<string>, nonce: string, output: string, code: nat)
    requires |argv| >= 2 && argv[1] == "fwd" && argv[2..] != ["--check"]
    ensures DispatchStdout(argv, nonce, Replaced(output, code)) == output
    ensures DispatchStdout(argv, nonce, Returned(code)) == ""
  {}

  // ----- Any text -----

  /** Everything but the two spans, in order, when neither reaches into the other. */
  function WithoutSpans(s: string, a: Match, b: Match): string
    requires a.start <= a.end <= b.start <= b.end <= |s|
  {
    s[..a.start] + s[a.end..b.start] + s[b.end..]
  }

  lemma CutTwo(s: string, a: Match, b: Match)
    requires a.start <= a.end <= b.start <= b.end <= |s|
    ensures Cut(Cut(s, b.start, b.end), a.start, a.end) == WithoutSpans(s, a, b)
  {
    var t := Cut(s, b.start, b.end);
    assert t == s[..b.start] + s[b.end..];
    assert t[..a.start] == s[..a.start] && t[a.end..] == s[a.end..b.start] + s[b.end..];
  }

  /**
   On any text and with whatever was matched: without a match of the expected token nothing is recovered; otherwise the
   last one gives the code, a non-zero code is a failure, and both lines are gone from the text.
  */
  lemma {:induction false} RecoveredBetween(stdout: string, b: Match, exits: seq<Match>)
    ensures (forall x :: x in exits ==> x.token != b.token) ==>
              Recover(stdout, Some(b), true, "", exits) == SentinelNotFound
    ensures forall x :: IsLastWith(exits, b.token, x) ==>
              && (b.start <= b.end <= x.start <= x.end <= |stdout| ==>
                    Recover(stdout, Some(b), true, "", exits) == ByCode(x.code, WithoutSpans(stdout, b, x)))
              && (x.start <= x.end <= b.start <= b.end <= |stdout| && x.start < b.start ==>
                    Recover(stdout, Some(b), true, "", exits) == ByCode(x.code, WithoutSpans(stdout, x, b)))
  {
    WithTokenEmpty(exits, b.token);
    forall x | IsLastWith(exits, b.token, x)
      ensures WithToken(exits, b.token) != [] && EndsWith(WithToken(exits, b.token), x)
      ensures b.start <= b.end <= x.start <= x.end <= |stdout| ==>
                Cut(Cut(stdout, x.start, x.end), b.start, b.end) == WithoutSpans(stdout, b, x)
      ensures x.start <= x.end <= b.start <= b.end <= |stdout| ==>
                Cut(Cut(stdout, b.start, b.end), x.start, x.end) == WithoutSpans(stdout, x, b)
    {
      WithTokenEndsWith(exits, b.token, x);
      if b.start <= b.end <= x.start <= x.end <= |stdout| {
        CutTwo(stdout, b, x);
      }
      if x.start <= x.end <= b.start <= b.end <= |stdout| {
        CutTwo(stdout, x, b);
      }
    }
  }

  /** The last of the matches with this token. */
  ghost predicate IsLastWith(exits: seq<Match>, token: string, x: Match) {
    exists i :: 0 <= i < |exits| && exits[i] == x && x.token == token &&
                forall j :: i < j < |exits| ==> exits[j].token != token
  }

  function ByCode(code: nat, text: string): Recovery {
    if code == 0 then Completed(NormalizeOutput(text)) else InnerFailed(code, NormalizeOutput(text))
  }

  lemma {:induction false} WithTokenEmpty(ms: seq<Match>, token: string)
    ensures WithToken(ms, token) == [] <==> forall x :: x in ms ==> x.token != token
  {
    if ms != [] {
      WithTokenEmpty(ms[1..], token);
      assert ms == [ms[0]] + ms[1..];
    }
  }

  lemma {:induction false} WithTokenEndsWith(ms: seq<Match>, token: string, x: Match)
    requires IsLastWith(ms, token, x)
    ensures EndsWith(WithToken(ms, token), x)
  {
    var i :| 0 <= i < |ms| && ms[i] == x && x.token == token && forall j :: i < j < |ms| ==> ms[j].token != token;
    if i > 0 {
      assert ms[1..][i - 1] == x;
      assert forall j :: i - 1 < j < |ms[1..]| ==> ms[1..][j] == ms[j + 1];
      WithTokenEndsWith(ms[1..], token, x);
    } else {
      WithTokenEmpty(ms[1..], token);
    }
  }

  // ----- Failing closed -----

  /** Where the exit prefix overlaps a later copy of itself, an underscore follows it. */
  lemma MarkerOverlap(m: Markers, s: string, p: nat, ts: nat)
    requires m.Good() && OccursAt(s, p, m.exit) && OccursAt(s, ts, m.exit)
    requires p < ts < p + |m.exit|
    ensures p + |m.exit| < |s| && s[p + |m.exit|] == '_'
  {
    var d, n := ts - p, |m.exit|;
    At(s, ts, m.exit, 0);
    At(s, ts, m.exit, 1);
    At(s, p, m.exit, d);
    if d < n - 1 {
      At(s, p, m.exit, d + 1);
    }
    if d < n - 2 {
      At(s, ts, m.exit, 2);
      At(s, p, m.exit, d + 2);
    }
    assert !(d < n - 1 && m.Differs(d));
  }

  lemma TokenPosition(m: Markers, s: string, q: nat)
    requires m.ExitAt(s, q).Some?
    ensures AtLineStart(s, q) && OccursAt(s, q, m.exit)
    ensures OccursAt(s, q + |m.exit|, m.ExitAt(s, q).value.token)
  {
    var h, d := ExitAtHasParts(m, s, q);
    var t := q + |m.exit|;
    forall i | 0 <= i < h - t
      ensures Same(s, t, s[t..h], i)
    {}
  }

  /** No line inside the BEGIN line starts with the exit marker. */
  lemma ExitAfterBegin(m: Markers, s: string, nonce: string, rest: string, q: nat)
    requires m.Good() && IsNonce(nonce) && s == m.BeginLine(nonce) + rest
    requires AtLineStart(s, q) && OccursAt(s, q, m.exit)
    ensures q >= |m.begin| + |nonce| + 1
  {
    var n := |m.begin|;
    BeginPieces(m, s, n + |nonce|, nonce, rest);
    forall i | 0 <= i < n + |nonce|
      ensures s[i] != '\n'
    {
      if i < n {
        At(s, 0, m.begin, i);
      } else {
        At(s, n, nonce, i - n);
        assert Hex.Has(nonce[i - n]);
      }
    }
    var i :| 0 <= i < n && i < |m.exit| && m.begin[i] != m.exit[i];
    At(s, 0, m.begin, i);
    assert |m.exit| <= |s| ==> !Same(s, 0, m.exit, i);
  }

  /** A line that opens with the exit marker and has its one newline at its end. */
  predicate IsTrailer(m: Markers, trailer: string) {
    OccursAt(trailer, 0, m.exit) && forall i :: 0 <= i < |trailer| - 1 ==> trailer[i] != '\n'
  }

  lemma ExitLineIsTrailer(m: Markers, nonce: string, code: nat)
    requires m.Good() && IsNonce(nonce)
    ensures IsTrailer(m, m.ExitLine(nonce, code))
  {
    var s := m.ExitLine(nonce, code);
    assert s[0..] == s;
    TrailerMatches(m, s, 0, nonce, code);
    var h := |m.exit| + |nonce|;
    var d := h + 1 + |Dec(code)|;
    TrailerPieces(m, s, 0, nonce, code, |m.exit|, h, d);
    At(s, h, "_", 0);
    At(s, d, "\n", 0);
    RunOf(s, |m.exit|, nonce, Hex);
    RunOf(s, h + 1, Dec(code), Digit);
    PartsAreOneLine(m, s, 0, h, d);
  }

  /** After a text without the nonce no exit match can carry it, be the text cut short or followed by a trailer. */
  lemma NoTrailerWithNonce(m: Markers, nonce: string, output: string, trailer: string, q: nat, s: string)
    requires m.Good() && IsNonce(nonce) && !Contains(output, nonce)
    requires trailer == "" || (!Terminated(output) && IsTrailer(m, trailer))
    requires s == m.BeginLine(nonce) + (output + trailer)
    requires AtLineStart(s, q) && OccursAt(s, q, m.exit)
    ensures !OccursAt(s, q + |m.exit|, nonce)
  {
    var b, t := |m.begin| + |nonce| + 1, q + |m.exit|;
    var ts := b + |output|;
    ExitAfterBegin(m, s, nonce, output + trailer, q);
    FramePieces(m, s, b - 1, ts, nonce, output, trailer);
    if t + |nonce| <= ts {
      assert !OccursAt(output, t - b, nonce);
      var i :| 0 <= i < |nonce| && !Same(output, t - b, nonce, i);
      At(s, b, output, t - b + i);
      assert !Same(s, t, nonce, i);
    } else if trailer != "" {
      AcrossTrailer(m, s, ts, trailer, nonce, q);
    }
  }

  lemma AcrossTrailer(m: Markers, s: string, ts: nat, trailer: string, nonce: string, q: nat)
    requires m.Good() && IsNonce(nonce) && IsTrailer(m, trailer)
    requires 0 < ts <= |s| && s[ts..] == trailer && s[ts - 1] != '\n'
    requires AtLineStart(s, q) && OccursAt(s, q, m.exit)
    requires q + |m.exit| + |nonce| > ts
    ensures !OccursAt(s, q + |m.exit|, nonce)
  {
    var t := q + |m.exit|;
    forall i | ts <= i < |s|
      ensures s[i] == trailer[i - ts]
    {
      assert s[ts..][i - ts] == s[i];
    }
    assert q < ts;
    assert OccursAt(s, ts, m.exit) by {
      forall i | 0 <= i < |m.exit|
        ensures Same(s, ts, m.exit, i)
      {
        At(trailer, 0, m.exit, i);
      }
    }
    if ts < t {
      MarkerOverlap(m, s, q, ts);
      NotHexThere(s, t, nonce, t);
    } else {
      At(s, ts, m.exit, 0);
      NotHexThere(s, t, nonce, ts);
    }
  }

  lemma NotHexThere(s: string, t: nat, nonce: string, i: nat)
    requires IsNonce(nonce) && t <= i < t + |nonce| && i < |s| && s[i] == '_'
    ensures !OccursAt(s, t, nonce)
  {
    assert Hex.Has(nonce[i - t]);
    assert t + |nonce| <= |s| ==> !Same(s, t, nonce, i - t);
  }

  lemma {:induction false} NothingWithToken(at: nat -> Option<Match>, size: nat, p: nat, token: string)
    requires forall q: nat :: at(q).Some? ==> at(q).value.token != token
    ensures WithToken(FindAll(at, size, p), token) == []
    decreases size + 1 - p
  {
    if p <= size {
      NothingWithToken(at, size, if at(p).None? || at(p).value.end <= p then p + 1 else at(p).value.end, token);
    }
  }

  lemma FailsClosed(m: Markers, nonce: string, output: string, trailer: string)
    requires m.Good() && IsNonce(nonce) && !Contains(output, nonce)
    requires trailer == "" || (!Terminated(output) && IsTrailer(m, trailer))
    ensures m.RecoverFramed(m.BeginLine(nonce) + (output + trailer)) == SentinelNotFound
  {
    var s := m.BeginLine(nonce) + (output + trailer);
    BeginFound(m, s, |m.begin| + |nonce|, nonce, output + trailer);
    var at := m.ExitMatcher(s);
    forall q: nat | at(q).Some?
      ensures at(q).value.token != nonce
    {
      TokenPosition(m, s, q);
      NoTrailerWithNonce(m, nonce, output, trailer, q, s);
    }
    NothingWithToken(at, |s|, 0, nonce);
  }

  /**
   Output without the nonce whose last line is unterminated always fails closed: the trailer no longer
   starts a line, and nothing else can stand in for it.
  */
  lemma {:induction false} UnterminatedFailsClosed(nonce: string, output: string, code: nat)
    requires IsNonce(nonce) && !Terminated(output) && !Contains(output, nonce)
    ensures SANDBOX.RecoverFramed(SANDBOX.Frame(nonce, output, code)) == SentinelNotFound
  {
    SandboxMarkersAreGood();
    ExitLineIsTrailer(SANDBOX, nonce, code);
    FailsClosed(SANDBOX, nonce, output, SANDBOX.ExitLine(nonce, code));
  }

  /** So does a crossing that dies before its trailer, whatever it printed, as long as the nonce stays unknown. */
  lemma {:induction false} MissingTrailerFailsClosed(nonce: string, output: string)
    requires IsNonce(nonce) && !Contains(output, nonce)
    ensures SANDBOX.RecoverFramed(SANDBOX.BeginLine(nonce) + output) == SentinelNotFound
  {
    SandboxMarkersAreGood();
    assert output + "" == output;
    FailsClosed(SANDBOX, nonce, output, "");
  }
}
