/** The three steps of normalisation, each by what it does to the sequences, returns and runs that it is for. */
module NormalForms {
  import opened Text
  import opened Normalize

  // ----- Control sequences -----

  /** `[0-9;]*[a-zA-Z]` */
  predicate IsSequenceEnd(t: string) {
    t != "" && (forall i :: 0 <= i < |t| - 1 ==> IsParam(t[i])) && IsLetter(t[|t| - 1])
  }

  /** `\x1b\[[0-9;]*[a-zA-Z]` */
  predicate IsCsi(t: string) { |t| > 2 && t[0] == ESC && t[1] == '[' && IsSequenceEnd(t[2..]) }

  lemma EndFrom(s: string, n: nat)
    requires 1 < n <= |s|
    ensures IsSequenceEnd(s[..n]) <==> IsParam(s[0]) && IsSequenceEnd(s[1..][..n - 1])
  {
    var t, u := s[..n], s[1..][..n - 1];
    assert forall i :: 0 <= i < n - 1 ==> u[i] == t[i + 1];
    if IsParam(s[0]) && IsSequenceEnd(u) {
      assert forall i :: 0 < i < n - 1 ==> t[i] == u[i - 1];
    }
  }

  lemma {:induction false} SequenceEndIff(s: string, n: nat)
    requires 0 < n <= |s|
    ensures IsSequenceEnd(s[..n]) <==> ParamsAndLetter(s) == n
  {
    if n > 1 {
      EndFrom(s, n);
      SequenceEndIff(s[1..], n - 1);
    }
  }

  /** What is taken for a control sequence is exactly one, and there is at most one at each place. */
  lemma {:induction false} CsiIff(s: string, n: nat)
    requires n <= |s|
    ensures IsCsi(s[..n]) <==> n > 0 && CsiLength(s) == n
  {
    if n > 2 {
      assert s[..n][2..] == s[2..][..n - 2];
      SequenceEndIff(s[2..], n - 2);
    }
  }

  /** A control sequence goes. */
  lemma {:induction false} SequenceIsStripped(t: string, rest: string)
    requires IsCsi(t)
    ensures StripAnsi(t + rest) == StripAnsi(rest)
  {
    assert (t + rest)[..|t|] == t && (t + rest)[|t|..] == rest;
    CsiIff(t + rest, |t|);
  }

  /** Any character that starts none stays. */
  lemma {:induction false} CharacterStays(c: char, rest: string)
    requires forall n :: 0 <= n <= |rest| + 1 ==> !IsCsi(([c] + rest)[..n])
    ensures StripAnsi([c] + rest) == [c] + StripAnsi(rest)
  {
    var s := [c] + rest;
    CsiIff(s, CsiLength(s));
    assert s[1..] == rest;
  }

  // ----- Carriage returns -----

  /** Every carriage return goes, and nothing else. */
  lemma {:induction false} ReturnsAreDropped(a: string, b: string)
    ensures '\r' !in a ==> DropCr(a + b) == a + DropCr(b)
    ensures DropCr("\r" + b) == DropCr(b)
  {
    assert ("\r" + b)[1..] == b;
    if a == "" {
      assert a + b == b;
    } else {
      assert (a + b)[1..] == a[1..] + b;
      ReturnsAreDropped(a[1..], b);
      assert [a[0]] + (a[1..] + DropCr(b)) == a + DropCr(b);
    }
  }

  // ----- Runs of newlines -----

  function Newlines(n: nat): string { if n == 0 then "" else "\n" + Newlines(n - 1) }

  lemma {:induction false} CollapseBehind(n: nat, rest: string, k: nat)
    requires k <= 2 && (rest == "" || rest[0] != '\n')
    ensures Collapse(Newlines(n) + rest, k) ==
            Newlines(if n + k <= 2 then n else 2 - k) + Collapse(rest, 0)
  {
    if n == 0 {
      assert Newlines(0) + rest == rest && Newlines(0) + Collapse(rest, 0) == Collapse(rest, 0);
    } else {
      OneNewline(n, rest, k);
      CollapseBehind(n - 1, rest, if k >= 2 then 2 else k + 1);
      if k < 2 {
        OneMore(if n + k <= 2 then n else 2 - k, Collapse(rest, 0));
      }
    }
  }

  lemma OneNewline(n: nat, rest: string, k: nat)
    requires n > 0
    ensures Collapse(Newlines(n) + rest, k) ==
            if k >= 2 then Collapse(Newlines(n - 1) + rest, 2) else "\n" + Collapse(Newlines(n - 1) + rest, k + 1)
  {
    assert (Newlines(n) + rest)[1..] == Newlines(n - 1) + rest;
    assert "" + Collapse(Newlines(n - 1) + rest, 2) == Collapse(Newlines(n - 1) + rest, 2);
  }

  lemma OneMore(n: nat, rest: string)
    requires n > 0
    ensures "\n" + (Newlines(n - 1) + rest) == Newlines(n) + rest
  {}

  /** A run of newlines keeps its first two; everything between the runs stays. */
  lemma {:induction false} RunsAreCollapsed(n: nat, c: char, rest: string)
    requires rest == "" || rest[0] != '\n'
    ensures Collapse(Newlines(n) + rest, 0) == Newlines(if n <= 2 then n else 2) + Collapse(rest, 0)
    ensures c != '\n' ==> Collapse([c] + (Newlines(n) + rest), 0) == [c] + Collapse(Newlines(n) + rest, 0)
  {
    CollapseBehind(n, rest, 0);
    assert ([c] + (Newlines(n) + rest))[1..] == Newlines(n) + rest;
  }
}
