/** Splitting text at a separator, and the envelope that confines a compose path. */
module Paths {
  import opened Options

  /** `strings.Split(s, sep)` for a separator of one character. */
  function SplitOn(s: string, sep: char): (parts: seq<string>)
    ensures parts != []
  {
    if s == "" then [""]
    else
      var rest := SplitOn(s[1..], sep);
      if s[0] == sep then [""] + rest else [[s[0]] + rest[0]] + rest[1..]
  }

  function JoinOn(parts: seq<string>, sep: char): string
    requires parts != []
  {
    if |parts| == 1 then parts[0] else parts[0] + ([sep] + JoinOn(parts[1..], sep))
  }

  lemma {:induction false} SplitThenJoin(s: string, sep: char)
    ensures JoinOn(SplitOn(s, sep), sep) == s
    ensures forall i :: 0 <= i < |SplitOn(s, sep)| ==> sep !in SplitOn(s, sep)[i]
  {
    if s != "" {
      SplitThenJoin(s[1..], sep);
      var rest := SplitOn(s[1..], sep);
      if s[0] == sep {
        assert ([""] + rest)[1..] == rest;
      } else {
        var parts := [[s[0]] + rest[0]] + rest[1..];
        assert parts[1..] == rest[1..];
      }
    }
  }

  lemma {:induction false} SplitPart(a: string, s: string, sep: char)
    requires sep !in a
    ensures SplitOn(a + ([sep] + s), sep) == [a] + SplitOn(s, sep)
  {
    if a == "" {
      assert a + ([sep] + s) == [sep] + s;
      assert ([sep] + s)[1..] == s;
      assert SplitOn([sep] + s, sep) == [""] + SplitOn(s, sep);
    } else {
      assert (a + ([sep] + s))[1..] == a[1..] + ([sep] + s);
      SplitPart(a[1..], s, sep);
      assert [a[0]] + a[1..] == a;
      assert ([a[1..]] + SplitOn(s, sep))[1..] == SplitOn(s, sep);
    }
  }

  lemma {:induction false} SplitLast(a: string, sep: char)
    requires sep !in a
    ensures SplitOn(a, sep) == [a]
  {
    if a != "" {
      SplitLast(a[1..], sep);
      assert [a[0]] + a[1..] == a;
      assert [a[1..]][1..] == [];
    }
  }

  lemma {:induction false} JoinThenSplit(parts: seq<string>, sep: char)
    requires parts != [] && forall i :: 0 <= i < |parts| ==> sep !in parts[i]
    ensures SplitOn(JoinOn(parts, sep), sep) == parts
  {
    if |parts| == 1 {
      SplitLast(parts[0], sep);
    } else {
      JoinThenSplit(parts[1..], sep);
      SplitPart(parts[0], JoinOn(parts[1..], sep), sep);
    }
  }

  const INSTANCES := "instances"

  predicate IsPlainComponent(c: string) { c != "" && c != "." && c != ".." }

  predicate EnvelopeAt(comps: seq<string>, i: nat, inst: string) {
    i + 1 < |comps| && comps[i] == INSTANCES && comps[i + 1] == inst
  }

  /** Absolute, plain components only, and below some `instances/<inst>/`. */
  ghost predicate Confined(p: string, inst: string) {
    && 0 as char !in p && '\n' !in p && p != "" && p[0] == '/'
    && var comps := SplitOn(p, '/')[1..];
       && (forall i :: 0 <= i < |comps| ==> IsPlainComponent(comps[i]))
       && (exists i: nat :: i + 2 < |comps| && EnvelopeAt(comps, i, inst))
  }

  method AllPlain(comps: seq<string>) returns (ok: bool)
    ensures ok <==> forall i :: 0 <= i < |comps| ==> IsPlainComponent(comps[i])
  {
    for i := 0 to |comps|
      invariant forall j :: 0 <= j < i ==> IsPlainComponent(comps[j])
    {
      if comps[i] == "" || comps[i] == "." || comps[i] == ".." {
        return false;
      }
    }
    return true;
  }

  /** The index of the first `<inst>` right after an `instances`. */
  method FindInstance(comps: seq<string>, inst: string) returns (instIdx: int)
    ensures instIdx >= 0 ==> instIdx >= 1 && EnvelopeAt(comps, instIdx - 1, inst)
    ensures forall j: nat :: (instIdx < 0 || j < instIdx - 1) ==> !EnvelopeAt(comps, j, inst)
  {
    instIdx := -1;
    var idx := 0;
    while idx + 1 < |comps|
      invariant idx <= |comps|
      invariant forall j: nat :: j < idx ==> !EnvelopeAt(comps, j, inst)
    {
      if comps[idx] == INSTANCES && comps[idx + 1] == inst {
        return idx + 1;
      }
      idx := idx + 1;
    }
  }

  /** The components and the first index of `<inst>`, if the operand is confined. */
  method EnvelopeBoundary(p: string, inst: string) returns (r: Option<(seq<string>, nat)>)
    ensures r.Some? <==> Confined(p, inst)
    ensures r.Some? ==> r.value.0 == SplitOn(p, '/')[1..] && 1 <= r.value.1 < |r.value.0| - 1
    ensures r.Some? ==> EnvelopeAt(r.value.0, r.value.1 - 1, inst)
    ensures r.Some? ==> forall j: nat :: j < r.value.1 - 1 ==> !EnvelopeAt(r.value.0, j, inst)
  {
    if 0 as char in p {
      return None;
    }
    if '\n' in p {
      return None;
    }
    if p == "" || p[0] != '/' {
      return None;
    }
    var comps := SplitOn(p, '/')[1..];
    var plain := AllPlain(comps);
    if !plain {
      return None;
    }
    var instIdx := FindInstance(comps, inst);
    if instIdx < 0 || instIdx + 1 >= |comps| {
      return None;
    }
    assert EnvelopeAt(comps, instIdx - 1, inst);
    r := Some((comps, instIdx));
  }
}
