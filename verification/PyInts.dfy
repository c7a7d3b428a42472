/** `int(text)` on text without surrounding white space: a sign, digits, single underscores between them. */
module PyInts {
  import opened Options
  import opened Text
  import opened Paths

  /** Digits, with single underscores between them. */
  predicate IsDigitString(s: string) {
    && s != "" && IsDigit(s[0]) && IsDigit(s[|s| - 1])
    && (forall i :: 0 <= i < |s| ==> IsDigit(s[i]) || s[i] == '_')
    && (forall i :: 0 < i < |s| && s[i] == '_' ==> s[i - 1] != '_')
  }

  function DropUnderscores(s: string): string {
    if s == "" then "" else (if s[0] == '_' then "" else [s[0]]) + DropUnderscores(s[1..])
  }

  lemma {:induction false} DroppedAreDigits(s: string)
    requires forall i :: 0 <= i < |s| ==> IsDigit(s[i]) || s[i] == '_'
    ensures All(DropUnderscores(s), Digit)
    ensures All(s, Digit) ==> DropUnderscores(s) == s
  {
    if s != "" {
      DroppedAreDigits(s[1..]);
      assert All(s, Digit) ==> All(s[1..], Digit) && Digit.Has(s[0]);
    }
  }

  /** `int(s)` for text without surrounding space. */
  function PyInt(s: string): Option<int> {
    var signed := s != "" && (s[0] == '+' || s[0] == '-');
    var digits := if signed then s[1..] else s;
    if !IsDigitString(digits) then None
    else
      var v: int := DigitsValue(digits);
      Some(if signed && s[0] == '-' then -v else v)
  }

  function DigitsValue(s: string): nat
    requires IsDigitString(s)
  {
    DroppedAreDigits(s);
    DecValue(DropUnderscores(s))
  }

  lemma {:induction false} PyIntOfDec(n: nat)
    ensures PyInt(Dec(n)) == Some(n)
  {
    var s := Dec(n);
    assert Digit.Has(s[0]) && Digit.Has(s[|s| - 1]);
    forall i | 0 <= i < |s|
      ensures IsDigit(s[i])
    {
      assert Digit.Has(s[i]);
    }
    DroppedAreDigits(s);
    DecRoundTrip(n);
  }

  // ----- The texts that are read as a number -----

  /** Groups of digits, as single underscores separate them. */
  predicate Groups(gs: seq<string>) {
    gs != [] && forall i :: 0 <= i < |gs| ==> gs[i] != "" && All(gs[i], Digit)
  }

  function Flat(gs: seq<string>): string { if gs == [] then "" else gs[0] + Flat(gs[1..]) }

  lemma AllDigits(s: string, i: nat)
    requires All(s, Digit) && i < |s|
    ensures IsDigit(s[i])
  {
    assert Digit.Has(s[i]);
  }

  lemma DigitGroup(g: string)
    requires g != "" && All(g, Digit)
    ensures IsDigitString(g) && DropUnderscores(g) == g
  {
    forall i | 0 <= i < |g|
      ensures IsDigit(g[i])
    {
      AllDigits(g, i);
    }
    DroppedAreDigits(g);
  }

  lemma GroupInFront(g: string, rest: string)
    requires g != "" && All(g, Digit) && IsDigitString(rest)
    ensures IsDigitString(g + (['_'] + rest))
  {
    var s := g + (['_'] + rest);
    forall i | 0 <= i < |s|
      ensures s[i] == if i < |g| then g[i] else if i == |g| then '_' else rest[i - |g| - 1]
    {}
    forall i | 0 <= i < |g|
      ensures IsDigit(g[i])
    {
      AllDigits(g, i);
    }
  }

  lemma {:induction false} DropInFront(g: string, rest: string)
    requires All(g, Digit)
    ensures DropUnderscores(g + (['_'] + rest)) == g + DropUnderscores(rest)
  {
    if g == "" {
      assert g + (['_'] + rest) == ['_'] + rest && (['_'] + rest)[1..] == rest;
    } else {
      AllDigits(g, 0);
      assert All(g[1..], Digit);
      DropInFront(g[1..], rest);
      assert (g + (['_'] + rest))[1..] == g[1..] + (['_'] + rest);
      assert [g[0]] + (g[1..] + DropUnderscores(rest)) == g + DropUnderscores(rest);
    }
  }

  lemma {:induction false} GroupsAreDigits(gs: seq<string>)
    requires Groups(gs)
    ensures IsDigitString(JoinOn(gs, '_')) && DropUnderscores(JoinOn(gs, '_')) == Flat(gs)
  {
    DigitGroup(gs[0]);
    if |gs| == 1 {
      assert gs[0] + Flat(gs[1..]) == gs[0];
    } else {
      GroupsAreDigits(gs[1..]);
      GroupInFront(gs[0], JoinOn(gs[1..], '_'));
      DropInFront(gs[0], JoinOn(gs[1..], '_'));
    }
  }

  /** A sign or none, then groups of digits, is the number the digits spell. */
  lemma {:induction false} IntOfGroups(sign: string, gs: seq<string>)
    requires sign in {"", "+", "-"} && Groups(gs)
    ensures All(Flat(gs), Digit)
    ensures var v: int := DecValue(Flat(gs)); PyInt(sign + JoinOn(gs, '_')) == Some(if sign == "-" then -v else v)
  {
    GroupsValue(gs);
    SignInFront(sign, JoinOn(gs, '_'));
  }

  lemma GroupsValue(gs: seq<string>)
    requires Groups(gs)
    ensures IsDigitString(JoinOn(gs, '_')) && All(Flat(gs), Digit)
    ensures DigitsValue(JoinOn(gs, '_')) == DecValue(Flat(gs))
  {
    GroupsAreDigits(gs);
    DroppedAreDigits(JoinOn(gs, '_'));
  }

  lemma SignInFront(sign: string, digits: string)
    requires sign in {"", "+", "-"} && IsDigitString(digits)
    ensures PyInt(sign + digits) ==
            Some(var v: int := DigitsValue(digits); if sign == "-" then -v else v)
  {
    if sign == "" {
      assert sign + digits == digits;
    } else {
      assert (sign + digits)[1..] == digits;
    }
  }

  lemma {:induction false} DigitsHaveGroups(s: string) returns (gs: seq<string>)
    requires IsDigitString(s)
    ensures Groups(gs) && JoinOn(gs, '_') == s
  {
    var k := 1;
    while k < |s| && s[k] != '_'
      invariant 1 <= k <= |s|
      invariant forall i :: 0 <= i < k ==> IsDigit(s[i])
    {
      k := k + 1;
    }
    if k == |s| {
      gs := [s];
    } else {
      var rest := DigitsHaveGroups(s[k + 1..]);
      gs := [s[..k]] + rest;
      assert gs[1..] == rest;
      assert s == s[..k] + (['_'] + s[k + 1..]);
    }
  }

  /** Nothing else is read as a number. */
  lemma {:induction false} IntHasGroups(s: string) returns (sign: string, gs: seq<string>)
    requires PyInt(s).Some?
    ensures sign in {"", "+", "-"} && Groups(gs) && s == sign + JoinOn(gs, '_')
  {
    if s[0] == '+' || s[0] == '-' {
      sign := [s[0]];
      gs := DigitsHaveGroups(s[1..]);
    } else {
      sign := "";
      gs := DigitsHaveGroups(s);
    }
  }

  // ----- Splitting off -----

  /** `s.split("__", 1)[0]`. */
  function BeforeDunder(s: string): string {
    match Find(s, "__", 0)
    case None => s
    case Some(p) => s[..p]
  }
}
