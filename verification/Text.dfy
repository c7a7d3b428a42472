/** Characters, decimal numbers and substrings, as the regular expressions and `str` methods see them. */
module Text {
  import opened Options

  predicate IsDigit(c: char) { '0' <= c <= '9' }

  predicate IsHex(c: char) { IsDigit(c) || 'a' <= c <= 'f' }

  predicate IsLetter(c: char) { 'a' <= c <= 'z' || 'A' <= c <= 'Z' }

  /** `\s` on `str`, and what `str.strip` removes. */
  predicate IsSpace(c: char) {
    var n := c as int;
    9 <= n <= 13 || 28 <= n <= 32 || n == 0x85 || n == 0xA0 || n == 0x1680 || 0x2000 <= n <= 0x200A ||
    n == 0x2028 || n == 0x2029 || n == 0x202F || n == 0x205F || n == 0x3000
  }

  predicate IsParam(c: char) { IsDigit(c) || c == ';' }

  /** The character classes of the regular expressions. */
  datatype Class = Hex | Digit | Space | Param {
    predicate Has(c: char) {
      match this
      case Hex => IsHex(c)
      case Digit => IsDigit(c)
      case Space => IsSpace(c)
      case Param => IsParam(c)
    }
  }

  predicate All(s: string, k: Class) {
    forall i :: 0 <= i < |s| ==> k.Has(s[i])
  }

  predicate IsNonce(n: string) { n != "" && All(n, Hex) }

  /** Where a greedy run of the class that starts at `i` ends. */
  function SpanEnd(s: string, i: nat, k: Class): (e: nat)
    requires i <= |s|
    ensures i <= e <= |s|
    decreases |s| - i
  {
    if i < |s| && k.Has(s[i]) then SpanEnd(s, i + 1, k) else i
  }

  predicate In(s: string, j: nat, k: Class)
    requires j < |s|
  {
    k.Has(s[j])
  }

  /** The characters from `i` to `e` are in the class and the next one is not. */
  ghost predicate Run(s: string, i: nat, e: nat, k: Class) {
    i <= e <= |s| && (forall j :: i <= j < e ==> In(s, j, k)) && (e < |s| ==> !In(s, e, k))
  }

  lemma {:induction false} SpanEndIsRun(s: string, i: nat, k: Class)
    requires i <= |s|
    ensures Run(s, i, SpanEnd(s, i, k), k)
    decreases |s| - i
  {
    if i < |s| && k.Has(s[i]) {
      SpanEndIsRun(s, i + 1, k);
    }
  }

  lemma RunIsAll(s: string, i: nat, e: nat, k: Class)
    requires Run(s, i, e, k)
    ensures All(s[i..e], k)
  {
    forall j | 0 <= j < e - i
      ensures k.Has(s[i..e][j])
    {
      assert In(s, i + j, k);
    }
  }

  lemma {:induction false} RunIsSpanEnd(s: string, i: nat, e: nat, k: Class)
    requires Run(s, i, e, k)
    ensures SpanEnd(s, i, k) == e
    decreases |s| - i
  {
    if i < e {
      assert In(s, i, k);
      RunIsSpanEnd(s, i + 1, e, k);
    }
  }

  // ----- Joining -----

  /** `" ".join(parts)`, `strings.Join(parts, " ")`. */
  function JoinWithSpace(parts: seq<string>): string {
    if parts == [] then "" else if |parts| == 1 then parts[0] else parts[0] + (" " + JoinWithSpace(parts[1..]))
  }

  // ----- Decimal numbers -----

  function DigitChar(d: nat): (c: char)
    requires d < 10
    ensures IsDigit(c) && DigitValue(c) == d
  {
    (48 + d) as char
  }

  function DigitValue(c: char): (d: nat)
    requires IsDigit(c)
    ensures d < 10
  {
    c as int - 48
  }

  /** `str(n)`, `%d`. */
  function Dec(n: nat): (s: string)
    ensures s != "" && All(s, Digit)
    ensures s[0] == '0' <==> n == 0
    ensures n == 0 ==> s == "0"
  {
    if n < 10 then [DigitChar(n)] else Dec(n / 10) + [DigitChar(n % 10)]
  }

  function DecValue(s: string): nat
    requires All(s, Digit)
  {
    if s == "" then 0 else 10 * DecValue(s[..|s| - 1]) + DigitValue(s[|s| - 1])
  }

  lemma {:induction false} DecRoundTrip(n: nat)
    ensures DecValue(Dec(n)) == n
  {
    if n >= 10 {
      DecRoundTrip(n / 10);
      assert Dec(n)[..|Dec(n)| - 1] == Dec(n / 10);
    } else {
      assert Dec(n)[..0] == "";
    }
  }

  lemma DecInjective(m: nat, n: nat)
    requires Dec(m) == Dec(n)
    ensures m == n
  {
    DecRoundTrip(m);
    DecRoundTrip(n);
  }

  // ----- Substrings -----

  predicate Same(s: string, p: nat, w: string, i: nat)
    requires p + |w| <= |s| && i < |w|
  {
    s[p + i] == w[i]
  }

  /** `w` stands in `s` at position `p`. */
  predicate OccursAt(s: string, p: int, w: string) {
    0 <= p && p + |w| <= |s| && forall i :: 0 <= i < |w| ==> Same(s, p, w, i)
  }

  lemma At(s: string, p: nat, w: string, i: nat)
    requires OccursAt(s, p, w) && i < |w|
    ensures s[p + i] == w[i]
  {
    assert Same(s, p, w, i);
  }

  /** Text spliced together from pieces, taken apart again. */
  lemma PieceAt(s: string, p: nat, a: string, rest: string)
    requires p <= |s| && s[p..] == a + rest
    ensures OccursAt(s, p, a) && p + |a| <= |s| && s[p + |a|..] == rest
  {
    forall i | 0 <= i < |a|
      ensures Same(s, p, a, i)
    {
      assert s[p..][i] == a[i];
    }
    assert s[p..][|a|..] == rest;
  }

  ghost predicate Contains(s: string, w: string) {
    exists p :: OccursAt(s, p, w)
  }

  /** `s.find(w, from)`, with `None` for -1. */
  function Find(s: string, w: string, from: nat): (r: Option<nat>)
    ensures r.Some? ==> from <= r.value && r.value + |w| <= |s|
    decreases |s| + 1 - from
  {
    if from > |s| then None
    else if OccursAt(s, from, w) then Some(from)
    else Find(s, w, from + 1)
  }

  lemma {:induction false} FoundOccurs(s: string, w: string, from: nat)
    requires Find(s, w, from).Some?
    ensures OccursAt(s, Find(s, w, from).value, w)
    decreases |s| + 1 - from
  {
    if !OccursAt(s, from, w) {
      FoundOccurs(s, w, from + 1);
    }
  }

  /** `Find` overlooks nothing. */
  lemma {:induction false} FindsFirst(s: string, w: string, from: nat, p: nat)
    requires from <= p && OccursAt(s, p, w)
    ensures Find(s, w, from).Some? && Find(s, w, from).value <= p
    decreases p - from
  {
    if !OccursAt(s, from, w) {
      FindsFirst(s, w, from + 1, p);
    }
  }

  /** `s.count(w)` for non-empty `w`: occurrences found left to right without overlap. */
  function CountFrom(s: string, w: string, from: nat): nat
    requires w != ""
    decreases |s| + 1 - from
  {
    if from > |s| then 0
    else
      match Find(s, w, from)
      case None => 0
      case Some(p) => 1 + CountFrom(s, w, p + |w|)
  }

  // ----- strip -----

  function LStrip(s: string): string {
    if s != "" && IsSpace(s[0]) then LStrip(s[1..]) else s
  }

  function RStrip(s: string): string {
    if s != "" && IsSpace(s[|s| - 1]) then RStrip(s[..|s| - 1]) else s
  }

  function Strip(s: string): string { RStrip(LStrip(s)) }
}
