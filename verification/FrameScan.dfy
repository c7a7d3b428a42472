/**
 The executor's two regular expressions and its recovery, on any text whatever: what a BEGIN and an EXIT line are, that
 the scans find the first of the ones and all of the others, and what is recovered from them.
*/
module FrameScan {
  import opened Options
  import opened Text
  import opened Framing
  import opened FrameTheorems

  // ----- The ending of a line -----

  ghost predicate Blank(s: string, h: nat, e: nat) { h <= e <= |s| && forall i :: h <= i < e ==> In(s, i, Space) }

  /** What `$` accepts. */
  ghost predicate Stops(s: string, e: nat) { e <= |s| && (e < |s| ==> s[e] == '\n') }

  /** `\s*$` from `h` to `e`: white space, and as much of it as can be had in front of a stop. */
  ghost predicate Tail(s: string, h: nat, e: nat) {
    Blank(s, h, e) && Stops(s, e) && forall f :: e < f && Blank(s, h, f) ==> !Stops(s, f)
  }

  lemma {:induction false} LastNewlineIs(s: string, lo: nat, hi: nat, i: nat)
    requires lo <= i < hi <= |s| && s[i] == '\n'
    ensures LastNewline(s, lo, hi).Some? && i <= LastNewline(s, lo, hi).value
    decreases hi
  {
    if s[hi - 1] != '\n' {
      LastNewlineIs(s, lo, hi - 1, i);
    }
  }

  lemma BlankUpTo(s: string, h: nat, f: nat)
    requires h <= |s|
    ensures Blank(s, h, f) <==> h <= f <= SpanEnd(s, h, Space)
  {
    SpanEndIsRun(s, h, Space);
  }

  lemma TailEndIsTail(s: string, h: nat)
    requires h <= |s| && TailEnd(s, h).Some?
    ensures Tail(s, h, TailEnd(s, h).value)
  {
    var e := SpanEnd(s, h, Space);
    SpanEndIsRun(s, h, Space);
    BlankUpTo(s, h, TailEnd(s, h).value);
    forall f | TailEnd(s, h).value < f && Blank(s, h, f)
      ensures !Stops(s, f)
    {
      BlankUpTo(s, h, f);
      if f < e && s[f] == '\n' {
        LastNewlineIs(s, h, e, f);
      }
    }
  }

  lemma TailIsFound(s: string, h: nat, e: nat)
    requires h <= |s| && Tail(s, h, e)
    ensures TailEnd(s, h) == Some(e)
  {
    var end := SpanEnd(s, h, Space);
    SpanEndIsRun(s, h, Space);
    BlankUpTo(s, h, e);
    if end < |s| {
      LastNewlineIs(s, h, end, e);
    }
    TailEndIsTail(s, h);
    TailsAgree(s, h, e, TailEnd(s, h).value);
  }

  lemma TailsAgree(s: string, h: nat, e: nat, f: nat)
    requires Tail(s, h, e) && Tail(s, h, f)
    ensures e == f
  {}

  /** No two classes of the expressions share a character where one run gives way to the next. */
  lemma TailEndsRun(s: string, t: nat, h: nat, e: nat, k: Class)
    requires k.Hex? || k.Digit?
    requires t <= h <= |s| && (forall i :: t <= i < h ==> In(s, i, k)) && Tail(s, h, e)
    ensures Run(s, t, h, k)
  {
    if h < e {
      assert In(s, h, Space);
    }
  }

  // ----- The lines -----

  ghost predicate StartsLine(s: string, p: nat) { p == 0 || (p <= |s| && s[p - 1] == '\n') }

  ghost predicate InClass(s: string, i: nat, e: nat, k: Class) {
    i < e <= |s| && forall j :: i <= j < e ==> In(s, j, k)
  }

  /** A BEGIN line: the marker at the start of a line, a token up to `h`, and nothing but white space. */
  ghost predicate BeginTo(m: Markers, s: string, x: Match, h: nat) {
    var t := x.start + |m.begin|;
    && StartsLine(s, x.start) && OccursAt(s, x.start, m.begin)
    && InClass(s, t, h, Hex) && x.token == s[t..h] && Tail(s, h, x.end) && x.code == 0
  }

  ghost predicate IsBegin(m: Markers, s: string, x: Match) { exists h: nat :: BeginTo(m, s, x, h) }

  /** An EXIT line: the marker at the start of a line, a token up to `h`, an underscore and a code up to `d`. */
  ghost predicate ExitTo(m: Markers, s: string, x: Match, h: nat, d: nat) {
    var t := x.start + |m.exit|;
    && StartsLine(s, x.start) && OccursAt(s, x.start, m.exit)
    && InClass(s, t, h, Hex) && x.token == s[t..h] && h < |s| && s[h] == '_'
    && InClass(s, h + 1, d, Digit) && All(s[h + 1..d], Digit) && x.code == DecValue(s[h + 1..d]) && Tail(s, d, x.end)
  }

  ghost predicate IsExit(m: Markers, s: string, x: Match) { exists h: nat, d: nat :: ExitTo(m, s, x, h, d) }

  lemma BeginIsFound(m: Markers, s: string, x: Match, h: nat)
    requires BeginTo(m, s, x, h)
    ensures m.BeginAt(s, x.start) == Some(x)
  {
    var t := x.start + |m.begin|;
    TailEndsRun(s, t, h, x.end, Hex);
    RunIsSpanEnd(s, t, h, Hex);
    TailIsFound(s, h, x.end);
  }

  lemma FoundIsBegin(m: Markers, s: string, p: nat)
    requires m.BeginAt(s, p).Some?
    ensures IsBegin(m, s, m.BeginAt(s, p).value)
  {
    var t := p + |m.begin|;
    var h := SpanEnd(s, t, Hex);
    SpanEndIsRun(s, t, Hex);
    TailEndIsTail(s, h);
    assert BeginTo(m, s, m.BeginAt(s, p).value, h);
  }

  /** The first expression matches exactly the BEGIN lines. */
  lemma BeginAtIff(m: Markers, s: string, p: nat, x: Match)
    ensures m.BeginAt(s, p) == Some(x) <==> IsBegin(m, s, x) && x.start == p
  {
    if m.BeginAt(s, p) == Some(x) {
      FoundIsBegin(m, s, p);
    }
    forall h: nat | BeginTo(m, s, x, h)
      ensures m.BeginAt(s, x.start) == Some(x)
    {
      BeginIsFound(m, s, x, h);
    }
  }

  lemma ExitIsFound(m: Markers, s: string, x: Match, h: nat, d: nat)
    requires ExitTo(m, s, x, h, d)
    ensures m.ExitAt(s, x.start) == Some(x)
  {
    var t := x.start + |m.exit|;
    assert !Hex.Has('_');
    assert Run(s, t, h, Hex);
    TailEndsRun(s, h + 1, d, x.end, Digit);
    TailIsFound(s, d, x.end);
    ExitAtIs(m, s, x.start, h, d);
  }

  lemma FoundIsExit(m: Markers, s: string, p: nat)
    requires m.ExitAt(s, p).Some?
    ensures IsExit(m, s, m.ExitAt(s, p).value)
  {
    var h, d := ExitAtHasParts(m, s, p);
    RunIsAll(s, h + 1, d, Digit);
    TailEndIsTail(s, d);
    ExitAtIs(m, s, p, h, d);
    assert ExitTo(m, s, m.ExitAt(s, p).value, h, d);
  }

  /** The second expression matches exactly the EXIT lines. */
  lemma ExitAtIff(m: Markers, s: string, p: nat, x: Match)
    ensures m.ExitAt(s, p) == Some(x) <==> IsExit(m, s, x) && x.start == p
  {
    if m.ExitAt(s, p) == Some(x) {
      FoundIsExit(m, s, p);
    }
    forall h: nat, d: nat | ExitTo(m, s, x, h, d)
      ensures m.ExitAt(s, x.start) == Some(x)
    {
      ExitIsFound(m, s, x, h, d);
    }
  }

  // ----- The scans -----

  /** `x` is what `at` matches at the first place, from `p` on, where it matches. */
  ghost predicate IsFirst(at: nat -> Option<Match>, size: nat, p: nat, q: nat, x: Match) {
    p <= q <= size && at(q) == Some(x) && forall r: nat :: p <= r < q ==> at(r).None?
  }

  lemma {:induction false} FindFirstIs(at: nat -> Option<Match>, size: nat, p: nat)
    ensures FindFirst(at, size, p).None? ==> forall q: nat :: p <= q <= size ==> at(q).None?
    ensures FindFirst(at, size, p).Some? ==> exists q: nat :: IsFirst(at, size, p, q, FindFirst(at, size, p).value)
    decreases size + 1 - p
  {
    if p <= size {
      if at(p).Some? {
        assert IsFirst(at, size, p, p, at(p).value);
      } else {
        FindFirstIs(at, size, p + 1);
        if FindFirst(at, size, p).Some? {
          var q: nat :| IsFirst(at, size, p + 1, q, FindFirst(at, size, p).value);
          assert IsFirst(at, size, p, q, FindFirst(at, size, p).value);
        }
      }
    }
  }

  /** Matches that never reach into one another. */
  ghost predicate Apart(at: nat -> Option<Match>, size: nat) {
    && (forall q: nat :: at(q).Some? ==> q <= size && at(q).value.start == q && q < at(q).value.end)
    && (forall q: nat, r: nat :: q < r && at(q).Some? && at(r).Some? ==> at(q).value.end <= r)
  }

  ghost predicate InOrder(ms: seq<Match>) { forall i, j :: 0 <= i < j < |ms| ==> ms[i].start < ms[j].start }

  lemma {:induction false} FindAllIs(at: nat -> Option<Match>, size: nat, p: nat)
    requires Apart(at, size)
    ensures forall x :: x in FindAll(at, size, p) <==> p <= x.start && at(x.start) == Some(x)
    ensures InOrder(FindAll(at, size, p))
    decreases size + 1 - p
  {
    if p > size {
    } else if at(p).None? {
      FindAllIs(at, size, p + 1);
    } else {
      FindAllIs(at, size, at(p).value.end);
      InFront(at, size, p, FindAll(at, size, at(p).value.end));
    }
  }

  lemma InFront(at: nat -> Option<Match>, size: nat, p: nat, rest: seq<Match>)
    requires Apart(at, size) && at(p).Some? && InOrder(rest)
    requires forall x :: x in rest <==> at(p).value.end <= x.start && at(x.start) == Some(x)
    ensures forall x :: x in [at(p).value] + rest <==> p <= x.start && at(x.start) == Some(x)
    ensures InOrder([at(p).value] + rest)
  {}

  /** What the proofs need of the two markers, besides `Good`. */
  ghost predicate Spelled(m: Markers) { m.Good() && m.begin[0] == '_' }

  lemma ExitsApart(m: Markers, s: string)
    requires m.Good()
    ensures Apart(m.ExitMatcher(s), |s|)
  {
    forall q: nat | m.ExitAt(s, q).Some?
      ensures q <= |s| && q < m.ExitAt(s, q).value.end
    {
      var h, d := ExitAtHasParts(m, s, q);
    }
    forall q: nat, r: nat | q < r && m.ExitAt(s, q).Some? && m.ExitAt(s, r).Some?
      ensures m.ExitAt(s, q).value.end <= r
    {
      TokenPosition(m, s, r);
      At(s, r, m.exit, 0);
      MatchStaysBefore(m, s, q, r);
    }
  }

  /** `finditer` yields exactly the EXIT lines, each once, from front to back. */
  lemma {:induction false} FindsEveryExit(m: Markers, s: string)
    requires m.Good()
    ensures forall x :: x in m.FindExits(s) <==> IsExit(m, s, x)
    ensures InOrder(m.FindExits(s))
  {
    ExitsApart(m, s);
    FindAllIs(m.ExitMatcher(s), |s|, 0);
    forall x
      ensures x in m.FindExits(s) <==> IsExit(m, s, x)
    {
      ExitAtIff(m, s, x.start, x);
    }
  }

  ghost predicate FirstBegin(m: Markers, s: string, b: Match) {
    IsBegin(m, s, b) && forall c :: IsBegin(m, s, c) ==> b.start <= c.start
  }

  /** `search` yields the first BEGIN line. */
  lemma {:induction false} FindsFirstBegin(m: Markers, s: string)
    ensures m.SearchBegin(s).Some? <==> exists b :: IsBegin(m, s, b)
    ensures forall b :: m.SearchBegin(s) == Some(b) <==> FirstBegin(m, s, b)
  {
    var at := m.BeginMatcher(s);
    FindFirstIs(at, |s|, 0);
    forall c | IsBegin(m, s, c)
      ensures at(c.start) == Some(c) && c.start <= |s|
    {
      BeginAtIff(m, s, c.start, c);
    }
    if m.SearchBegin(s).Some? {
      var b := m.SearchBegin(s).value;
      var q: nat :| IsFirst(at, |s|, 0, q, b);
      BeginAtIff(m, s, q, b);
      assert FirstBegin(m, s, b);
    }
  }

  // ----- What is recovered -----

  /** The last EXIT line with this token. */
  ghost predicate LastExit(m: Markers, s: string, token: string, x: Match) {
    IsExit(m, s, x) && x.token == token && forall y :: IsExit(m, s, y) && y.token == token ==> y.start <= x.start
  }

  lemma LastExitIsLast(m: Markers, s: string, token: string, x: Match)
    requires m.Good() && LastExit(m, s, token, x)
    ensures IsLastWith(m.FindExits(s), token, x)
  {
    FindsEveryExit(m, s);
    var ms := m.FindExits(s);
    var i :| 0 <= i < |ms| && ms[i] == x;
    forall j | i < j < |ms|
      ensures ms[j].token != token
    {
      assert ms[j] in ms;
    }
  }

  /** The two lines never share a character. */
  lemma LinesApart(m: Markers, s: string, b: Match, x: Match)
    requires Spelled(m) && IsBegin(m, s, b) && IsExit(m, s, x)
    ensures b.start < b.end <= |s| && x.start < x.end <= |s|
    ensures if b.start < x.start then b.end <= x.start else x.start < b.start && x.end <= b.start
  {
    var h: nat :| BeginTo(m, s, b, h);
    var d: nat, e: nat :| ExitTo(m, s, x, d, e);
    if b.start < x.start {
      BeginStaysBefore(m, s, b, h, x, d, e);
    } else {
      NotTheSameLine(m, s, b, h, x, d, e);
      ExitStaysBefore(m, s, b, h, x, d, e);
    }
  }

  lemma BeginStaysBefore(m: Markers, s: string, b: Match, h: nat, x: Match, d: nat, e: nat)
    requires m.Good() && BeginTo(m, s, b, h) && ExitTo(m, s, x, d, e) && b.start < x.start
    ensures b.end <= x.start
  {
    At(s, x.start, m.exit, 0);
    BeginIsOneLine(m, s, b, h);
    TailIsFound(s, h, b.end);
    TailStops(s, h, x.start);
  }

  lemma NotTheSameLine(m: Markers, s: string, b: Match, h: nat, x: Match, d: nat, e: nat)
    requires m.Good() && BeginTo(m, s, b, h) && ExitTo(m, s, x, d, e)
    ensures b.start != x.start
  {
    var i :| 0 <= i < |m.begin| && i < |m.exit| && m.begin[i] != m.exit[i];
    At(s, b.start, m.begin, i);
    At(s, x.start, m.exit, i);
  }

  lemma ExitStaysBefore(m: Markers, s: string, b: Match, h: nat, x: Match, d: nat, e: nat)
    requires Spelled(m) && BeginTo(m, s, b, h) && ExitTo(m, s, x, d, e) && x.start < b.start
    ensures x.end <= b.start
  {
    At(s, b.start, m.begin, 0);
    ExitIsFound(m, s, x, d, e);
    MatchStaysBefore(m, s, x.start, b.start);
  }

  lemma BeginIsOneLine(m: Markers, s: string, b: Match, h: nat)
    requires m.Good() && BeginTo(m, s, b, h)
    ensures forall i :: b.start <= i < h ==> s[i] != '\n'
  {
    var t := b.start + |m.begin|;
    forall i | b.start <= i < h
      ensures s[i] != '\n'
    {
      if i < t {
        At(s, b.start, m.begin, i - b.start);
      } else {
        assert In(s, i, Hex);
      }
    }
  }

  lemma SandboxIsSpelled()
    ensures Spelled(SANDBOX)
  {
    SandboxMarkersAreGood();
  }

  /**
   A framed crossing, whatever its text: nothing is recovered without a BEGIN line, or without an EXIT line of the first
   one's token; otherwise the last of these gives the code, and the text is the rest, normalised.
  */
  lemma {:induction false} FramedOnAnyText(s: string)
    ensures (forall b :: !IsBegin(SANDBOX, s, b)) ==> SANDBOX.RecoverFramed(s) == SentinelNotFound
    ensures forall b :: FirstBegin(SANDBOX, s, b) && (forall x :: IsExit(SANDBOX, s, x) ==> x.token != b.token) ==>
                          SANDBOX.RecoverFramed(s) == SentinelNotFound
    ensures forall b, x :: FirstBegin(SANDBOX, s, b) && LastExit(SANDBOX, s, b.token, x) ==> RecoversFrom(s, b, x)
  {
    SandboxIsSpelled();
    FindsFirstBegin(SANDBOX, s);
    FindsEveryExit(SANDBOX, s);
    forall b | FirstBegin(SANDBOX, s, b)
      ensures (forall x :: IsExit(SANDBOX, s, x) ==> x.token != b.token) ==>
                SANDBOX.RecoverFramed(s) == SentinelNotFound
      ensures forall x :: LastExit(SANDBOX, s, b.token, x) ==> RecoversFrom(s, b, x)
    {
      RecoveredBetween(s, b, SANDBOX.FindExits(s));
      forall x | LastExit(SANDBOX, s, b.token, x)
        ensures RecoversFrom(s, b, x)
      {
        RecoveredFrom(s, b, x);
      }
    }
  }

  /** The code is that of the EXIT line `x`, and the text what stands around it and the BEGIN line `b`. */
  ghost predicate RecoversFrom(s: string, b: Match, x: Match) {
    && b.start <= b.end <= |s| && x.start <= x.end <= |s|
    && if b.start < x.start then
         b.end <= x.start && SANDBOX.RecoverFramed(s) == ByCode(x.code, WithoutSpans(s, b, x))
       else
         x.end <= b.start && SANDBOX.RecoverFramed(s) == ByCode(x.code, WithoutSpans(s, x, b))
  }

  lemma RecoveredFrom(s: string, b: Match, x: Match)
    requires FirstBegin(SANDBOX, s, b) && LastExit(SANDBOX, s, b.token, x)
    ensures RecoversFrom(s, b, x)
  {
    SandboxIsSpelled();
    FindsFirstBegin(SANDBOX, s);
    LastExitIsLast(SANDBOX, s, b.token, x);
    RecoveredBetween(s, b, SANDBOX.FindExits(s));
    LinesApart(SANDBOX, s, b, x);
  }

  /** A crossing with an injected token, whatever its text. */
  lemma {:induction false} InjectedOnAnyText(s: string, token: string)
    ensures (forall x :: IsExit(SANDBOX, s, x) ==> x.token != token) ==>
              SANDBOX.RecoverInjected(s, token) == SentinelNotFound
    ensures forall x :: LastExit(SANDBOX, s, token, x) ==>
                          x.start <= x.end <= |s| &&
                          SANDBOX.RecoverInjected(s, token) == ByCode(x.code, s[..x.start] + s[x.end..])
  {
    SandboxIsSpelled();
    FindsEveryExit(SANDBOX, s);
    WithTokenEmpty(SANDBOX.FindExits(s), token);
    forall x | LastExit(SANDBOX, s, token, x)
      ensures x.start <= x.end <= |s|
      ensures SANDBOX.RecoverInjected(s, token) == ByCode(x.code, s[..x.start] + s[x.end..])
    {
      ExitAtIff(SANDBOX, s, x.start, x);
      ExitsApart(SANDBOX, s);
      LastExitIsLast(SANDBOX, s, token, x);
      WithTokenEndsWith(SANDBOX.FindExits(s), token, x);
    }
  }
}
