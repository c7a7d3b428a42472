/** `normalize_captured_output`: strip ANSI sequences, drop carriage returns, collapse blank lines. */
module Normalize {
  import opened Text

  const ESC: char := 27 as char

  /** The length of `[0-9;]*[a-zA-Z]` at the start of `s`, or 0. */
  function ParamsAndLetter(s: string): (n: nat)
    ensures n <= |s|
  {
    if s == "" then 0
    else if IsLetter(s[0]) then 1
    else if IsParam(s[0]) && ParamsAndLetter(s[1..]) > 0 then 1 + ParamsAndLetter(s[1..])
    else 0
  }

  /** The length of the control sequence at the start of `s`, or 0: ESC `[`, parameters, one letter. */
  function CsiLength(s: string): (n: nat)
    ensures n <= |s|
  {
    if |s| >= 2 && s[0] == ESC && s[1] == '[' && ParamsAndLetter(s[2..]) > 0 then 2 + ParamsAndLetter(s[2..]) else 0
  }

  function StripAnsi(s: string): string {
    if s == "" then ""
    else if CsiLength(s) > 0 then StripAnsi(s[CsiLength(s)..])
    else [s[0]] + StripAnsi(s[1..])
  }

  function DropCr(s: string): string {
    if s == "" then "" else (if s[0] == '\r' then "" else [s[0]]) + DropCr(s[1..])
  }

  /**
   Collapses each run of three or more newlines to two: of every run, the first two survive.
   `k` newlines (at most two of them counted) stand immediately before `s`.
  */
  function Collapse(s: string, k: nat): string {
    if s == "" then ""
    else if s[0] == '\n' then (if k >= 2 then "" else "\n") + Collapse(s[1..], if k >= 2 then 2 else k + 1)
    else [s[0]] + Collapse(s[1..], 0)
  }

  function NormalizeOutput(raw: string): string {
    Collapse(DropCr(StripAnsi(raw)), 0)
  }

  // ----- What normalised text looks like -----

  predicate TripleNewlineAt(s: string, i: int) {
    0 <= i && i + 2 < |s| && s[i] == '\n' && s[i + 1] == '\n' && s[i + 2] == '\n'
  }

  lemma {:induction false} DropCrDrops(s: string)
    ensures '\r' !in DropCr(s)
    ensures forall c :: c in DropCr(s) ==> c in s
    ensures |DropCr(s)| <= |s|
    ensures '\r' !in s ==> DropCr(s) == s
  {
    if s != "" {
      DropCrDrops(s[1..]);
      assert s == [s[0]] + s[1..];
    }
  }

  lemma {:induction false} CollapseKeepsCharacters(s: string, k: nat)
    ensures forall c :: c in Collapse(s, k) ==> c in s
    ensures |Collapse(s, k)| <= |s|
  {
    if s != "" {
      CollapseKeepsCharacters(s[1..], if s[0] != '\n' then 0 else if k >= 2 then 2 else k + 1);
    }
  }

  /** With `k` newlines before it, no run of three newlines starts within or before the collapsed text. */
  lemma {:induction false} CollapseLeavesNoRun(s: string, k: nat)
    requires k <= 2
    ensures forall i :: !TripleNewlineAt(Collapse(s, k), i)
    ensures k >= 1 ==> !(|Collapse(s, k)| >= 2 && Collapse(s, k)[0] == '\n' && Collapse(s, k)[1] == '\n')
    ensures k >= 2 ==> !(|Collapse(s, k)| >= 1 && Collapse(s, k)[0] == '\n')
  {
    if s != "" {
      var k' := if s[0] != '\n' then 0 else if k >= 2 then 2 else k + 1;
      CollapseLeavesNoRun(s[1..], k');
      var r, r' := Collapse(s, k), Collapse(s[1..], k');
      forall i
        ensures !TripleNewlineAt(r, i)
      {
        assert r == r' || r == [s[0]] + r';
        assert !TripleNewlineAt(r', i) && !TripleNewlineAt(r', i - 1);
      }
    }
  }

  lemma {:induction false} CollapseFixes(s: string, k: nat)
    requires k <= 2
    requires forall i :: !TripleNewlineAt(s, i)
    requires k >= 1 ==> !(|s| >= 2 && s[0] == '\n' && s[1] == '\n')
    requires k >= 2 ==> !(|s| >= 1 && s[0] == '\n')
    ensures Collapse(s, k) == s
  {
    if s != "" {
      forall i
        ensures !TripleNewlineAt(s[1..], i)
      {
        assert !TripleNewlineAt(s, i + 1);
      }
      assert !TripleNewlineAt(s, 0);
      CollapseFixes(s[1..], if s[0] == '\n' then k + 1 else 0);
    }
  }

  /** A control sequence starts somewhere in `s`. */
  predicate HasCsi(s: string) {
    exists i :: 0 <= i < |s| && CsiLength(s[i..]) > 0
  }

  lemma {:induction false} StripAnsiChangesIff(s: string)
    ensures HasCsi(s) ==> |StripAnsi(s)| < |s|
    ensures !HasCsi(s) ==> StripAnsi(s) == s
    ensures |StripAnsi(s)| <= |s|
  {
    if s != "" {
      assert s[0..] == s;
      if CsiLength(s) > 0 {
        StripAnsiChangesIff(s[CsiLength(s)..]);
        assert HasCsi(s);
      } else {
        StripAnsiChangesIff(s[1..]);
        forall i | 0 <= i < |s[1..]|
          ensures CsiLength(s[1..][i..]) == CsiLength(s[i + 1..])
        {
          assert s[1..][i..] == s[i + 1..];
        }
        if HasCsi(s) {
          var i :| 0 <= i < |s| && CsiLength(s[i..]) > 0;
          assert CsiLength(s[1..][i - 1..]) > 0;
        }
      }
    }
  }

  /** Normalised text holds no carriage return and no run of three newlines. */
  lemma {:induction false} NormalizedIsClean(raw: string)
    ensures '\r' !in NormalizeOutput(raw)
    ensures forall i :: !TripleNewlineAt(NormalizeOutput(raw), i)
  {
    DropCrDrops(StripAnsi(raw));
    CollapseKeepsCharacters(DropCr(StripAnsi(raw)), 0);
    CollapseLeavesNoRun(DropCr(StripAnsi(raw)), 0);
  }

  // ----- When normalising again changes nothing -----

  lemma HasCsiFrom(s: string)
    requires s != ""
    ensures HasCsi(s) <==> CsiLength(s) > 0 || HasCsi(s[1..])
  {
    assert s[0..] == s;
    forall i | 0 <= i < |s[1..]|
      ensures s[1..][i..] == s[i + 1..]
    {}
    if HasCsi(s) {
      var i :| 0 <= i < |s| && CsiLength(s[i..]) > 0;
      assert i > 0 ==> CsiLength(s[1..][i - 1..]) > 0;
    }
    if HasCsi(s[1..]) {
      var i :| 0 <= i < |s[1..]| && CsiLength(s[1..][i..]) > 0;
      assert CsiLength(s[i + 1..]) > 0;
    }
  }

  /** After a character other than a newline, the next character survives collapsing. */
  lemma CollapseKeepsFirst(s: string)
    requires s != ""
    ensures Collapse(s, 0) != "" && Collapse(s, 0)[0] == s[0]
    ensures Collapse(s, 0)[1..] == Collapse(s[1..], if s[0] == '\n' then 1 else 0)
  {}

  lemma {:induction false} CollapseKeepsParams(s: string)
    ensures ParamsAndLetter(Collapse(s, 0)) > 0 <==> ParamsAndLetter(s) > 0
  {
    if s != "" {
      CollapseKeepsFirst(s);
      if s[0] != '\n' {
        CollapseKeepsParams(s[1..]);
      }
    }
  }

  lemma CollapseKeepsCsiHere(s: string)
    ensures CsiLength(Collapse(s, 0)) > 0 <==> CsiLength(s) > 0
  {
    if s != "" && s[0] == ESC {
      CollapseKeepsFirst(s);
      if |s| > 1 {
        CollapseKeepsFirst(s[1..]);
        if s[1] == '[' {
          assert s[1..][1..] == s[2..];
          assert Collapse(s, 0)[2..] == Collapse(s, 0)[1..][1..];
          CollapseKeepsParams(s[2..]);
        }
      }
    } else if s != "" {
      CollapseKeepsFirst(s);
    }
  }

  /** Collapsing newlines neither makes nor breaks a control sequence. */
  lemma {:induction false} CollapseKeepsCsi(s: string, k: nat)
    ensures HasCsi(Collapse(s, k)) <==> HasCsi(s)
  {
    if s != "" {
      HasCsiFrom(s);
      var rest := Collapse(s[1..], if s[0] != '\n' then 0 else if k >= 2 then 2 else k + 1);
      CollapseKeepsCsi(s[1..], if s[0] != '\n' then 0 else if k >= 2 then 2 else k + 1);
      if s[0] == '\n' {
        HasCsiFrom("\n" + rest);
        assert ("\n" + rest)[1..] == rest && "" + rest == rest;
      } else {
        CollapseKeepsCsiHere(s);
        HasCsiFrom([s[0]] + rest);
        assert ([s[0]] + rest)[1..] == rest;
      }
    }
  }

  lemma FixedIffNoCsi(raw: string)
    ensures NormalizeOutput(NormalizeOutput(raw)) == NormalizeOutput(raw) <==> !HasCsi(NormalizeOutput(raw))
  {
    var y := NormalizeOutput(raw);
    NormalizedIsClean(raw);
    StripAnsiChangesIff(y);
    DropCrDrops(StripAnsi(y));
    CollapseKeepsCharacters(DropCr(StripAnsi(y)), 0);
    if !HasCsi(y) {
      CollapseFixes(y, 0);
    }
  }

  /**
   Normalising twice is normalising once exactly when removing control sequences and carriage returns, once each,
   has not assembled another control sequence out of nested or interrupted pieces.
  */
  lemma {:induction false} IdempotentIff(raw: string)
    ensures NormalizeOutput(NormalizeOutput(raw)) == NormalizeOutput(raw) <==> !HasCsi(DropCr(StripAnsi(raw)))
  {
    FixedIffNoCsi(raw);
    CollapseKeepsCsi(DropCr(StripAnsi(raw)), 0);
  }

  /** In particular when no ESC survives the first ANSI pass. */
  lemma {:induction false} IdempotentWithoutEsc(raw: string)
    requires ESC !in StripAnsi(raw)
    ensures NormalizeOutput(NormalizeOutput(raw)) == NormalizeOutput(raw)
  {
    DropCrDrops(StripAnsi(raw));
    CollapseKeepsCharacters(DropCr(StripAnsi(raw)), 0);
    var y := NormalizeOutput(raw);
    forall i | 0 <= i < |y|
      ensures CsiLength(y[i..]) == 0
    {
      assert y[i..][0] in y;
    }
    FixedIffNoCsi(raw);
  }

  /** The unconditional claim is false: ESC [ ESC [ 0 m 0 m normalises to ESC [ 0 m, and that to nothing. */
  lemma {:induction false} NotIdempotentInGeneral()
    ensures var raw := [ESC, '[', ESC, '[', '0', 'm', '0', 'm'];
            NormalizeOutput(NormalizeOutput(raw)) != NormalizeOutput(raw)
  {
    var raw := [ESC, '[', ESC, '[', '0', 'm', '0', 'm'];
    var inner := [ESC, '[', '0', 'm'];
    assert raw[2..][0] == ESC;
    assert CsiLength(raw) == 0;
    assert raw[1..][1..] == inner + "0m";
    assert (inner + "0m")[2..] == "0m0m";
    assert ParamsAndLetter("0m0m"[1..]) == 1;
    assert CsiLength(inner + "0m") == 4;
    assert (inner + "0m")[4..] == "0m";
    PlainText("0m");
    assert StripAnsi(raw[1..]) == "[" + StripAnsi(inner + "0m");
    assert StripAnsi(raw) == inner;
    DropCrDrops(inner);
    CollapseFixes(inner, 0);
    assert ParamsAndLetter(inner[2..][1..]) == 1;
    assert inner[0..] == inner;
    assert HasCsi(inner);
    FixedIffNoCsi(raw);
  }

  lemma {:induction false} PlainText(s: string)
    requires ESC !in s
    ensures StripAnsi(s) == s
  {
    if s != "" {
      PlainText(s[1..]);
    }
  }

  // ----- Normalising around fixed text -----

  /** Cannot continue a control sequence that the text before it leaves open. */
  predicate Breaks(s: string) {
    s == "" || !(IsParam(s[0]) || IsLetter(s[0]) || s[0] == '[')
  }

  lemma {:induction false} ParamsBefore(a: string, b: string)
    requires Breaks(b)
    ensures ParamsAndLetter(a + b) == ParamsAndLetter(a)
  {
    if a == "" {
      assert a + b == b;
    } else {
      assert (a + b)[1..] == a[1..] + b;
      ParamsBefore(a[1..], b);
    }
  }

  lemma CsiLengthBefore(a: string, b: string)
    requires a != "" && Breaks(b)
    ensures CsiLength(a + b) == CsiLength(a)
  {
    if |a| >= 2 {
      assert (a + b)[2..] == a[2..] + b;
      ParamsBefore(a[2..], b);
    }
  }

  lemma {:induction false} StripAnsiConcat(a: string, b: string)
    requires Breaks(b)
    ensures StripAnsi(a + b) == StripAnsi(a) + StripAnsi(b)
  {
    if a == "" {
      assert a + b == b;
    } else {
      StripOne(a, b);
      if CsiLength(a) > 0 {
        StripAnsiConcat(a[CsiLength(a)..], b);
      } else {
        StripAnsiConcat(a[1..], b);
        Prepend(a[0], StripAnsi(a[1..]), StripAnsi(b));
      }
    }
  }

  lemma Prepend(c: char, s: string, t: string)
    ensures [c] + (s + t) == [c] + s + t
  {}

  /** Stripping takes the same first step with or without `b` behind. */
  lemma StripOne(a: string, b: string)
    requires a != "" && Breaks(b)
    ensures var n := CsiLength(a);
            n > 0 ==> StripAnsi(a + b) == StripAnsi(a[n..] + b) && StripAnsi(a) == StripAnsi(a[n..])
    ensures CsiLength(a) == 0 ==>
              StripAnsi(a + b) == [a[0]] + StripAnsi(a[1..] + b) && StripAnsi(a) == [a[0]] + StripAnsi(a[1..])
  {
    CsiLengthBefore(a, b);
    var n := CsiLength(a);
    assert n > 0 ==> (a + b)[n..] == a[n..] + b;
    assert (a + b)[1..] == a[1..] + b;
  }

  lemma {:induction false} DropCrConcat(a: string, b: string)
    ensures DropCr(a + b) == DropCr(a) + DropCr(b)
  {
    if a == "" {
      assert a + b == b;
    } else {
      assert (a + b)[1..] == a[1..] + b;
      DropCrConcat(a[1..], b);
    }
  }

  /** Text ending in a non-newline separates the collapsing before it from the collapsing after it. */
  lemma {:induction false} CollapseConcat(a: string, b: string, k: nat)
    requires a != "" && a[|a| - 1] != '\n'
    ensures Collapse(a + b, k) == Collapse(a, k) + Collapse(b, 0)
  {
    assert (a + b)[1..] == a[1..] + b;
    if |a| > 1 {
      CollapseConcat(a[1..], b, if a[0] != '\n' then 0 else if k >= 2 then 2 else k + 1);
    } else {
      assert (a + b)[1..] == b;
    }
  }

  /** A line of marker text: starts with `_`, ends with `_`, and holds nothing that normalisation touches. */
  predicate Marker(m: string) {
    m != "" && m[0] == '_' && m[|m| - 1] == '_' && ESC !in m && '\r' !in m && '\n' !in m
  }

  /** A marker passes through normalisation unchanged and keeps its two sides apart. */
  lemma {:induction false} NormalizeAroundMarker(a: string, m: string, b: string)
    requires Marker(m) && (b == "" || b[0] == '\n')
    ensures NormalizeOutput(a + m + b) == NormalizeOutput(a) + m + NormalizeOutput(b)
  {
    StripAroundMarker(a, m, b);
    DropCrAroundMarker(StripAnsi(a), m, StripAnsi(b));
    var a', b' := DropCr(StripAnsi(a)), DropCr(StripAnsi(b));
    CollapseConcat(a' + m, b', 0);
    CollapseBeforeMarker(a', m, 0);
  }

  lemma StripAroundMarker(a: string, m: string, b: string)
    requires Marker(m) && (b == "" || b[0] == '\n')
    ensures StripAnsi(a + m + b) == StripAnsi(a) + m + StripAnsi(b)
  {
    assert a + m + b == a + (m + b);
    StripAnsiConcat(a, m + b);
    StripAnsiConcat(m, b);
    PlainText(m);
    assert StripAnsi(a) + (m + StripAnsi(b)) == StripAnsi(a) + m + StripAnsi(b);
  }

  lemma DropCrAroundMarker(a: string, m: string, b: string)
    requires Marker(m)
    ensures DropCr(a + m + b) == DropCr(a) + m + DropCr(b)
  {
    DropCrConcat(a + m, b);
    DropCrConcat(a, m);
    DropCrDrops(m);
  }

  lemma {:induction false} CollapseBeforeMarker(a: string, m: string, k: nat)
    requires Marker(m)
    ensures Collapse(a + m, k) == Collapse(a, k) + m
  {
    if a == "" {
      assert a + m == m;
      CollapsePlain(m, k);
    } else {
      assert (a + m)[1..] == a[1..] + m;
      CollapseBeforeMarker(a[1..], m, if a[0] != '\n' then 0 else if k >= 2 then 2 else k + 1);
    }
  }

  lemma {:induction false} CollapsePlain(s: string, k: nat)
    requires '\n' !in s
    ensures Collapse(s, k) == s
  {
    if s != "" {
      CollapsePlain(s[1..], 0);
    }
  }
}
