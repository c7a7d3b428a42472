/** Python's string comparison: lexicographic, character by character. */
module StringOrder {

  predicate StrLess(a: string, b: string) {
    if b == "" then false
    else if a == "" then true
    else a[0] < b[0] || (a[0] == b[0] && StrLess(a[1..], b[1..]))
  }

  lemma {:induction false} StrLessTrichotomy(a: string, b: string)
    ensures a == b || StrLess(a, b) || StrLess(b, a)
    ensures !(StrLess(a, b) && StrLess(b, a))
    ensures !StrLess(a, a)
  {
    if a != "" {
      StrLessTrichotomy(a[1..], a[1..]);
    }
    if a != "" && b != "" {
      StrLessTrichotomy(a[1..], b[1..]);
      if a[0] == b[0] && a[1..] == b[1..] {
        assert a == [a[0]] + a[1..] == b;
      }
    }
  }

  lemma {:induction false} StrLessTransitive(a: string, b: string, c: string)
    requires StrLess(a, b) && StrLess(b, c)
    ensures StrLess(a, c)
  {
    if a != "" && a[0] == b[0] && b[0] == c[0] {
      StrLessTransitive(a[1..], b[1..], c[1..]);
    }
  }

  /** `a` is at or before `b` in the lexicographic order of id sequences. */
  ghost predicate SeqAtMost(a: seq<string>, b: seq<string>) {
    a == b ||
    exists i :: 0 <= i < |a| && i < |b| && a[..i] == b[..i] && StrLess(a[i], b[i])
  }

  lemma FirstDifferenceDecides(a: seq<string>, b: seq<string>, i: nat)
    requires i < |a| && i < |b| && a[..i] == b[..i] && StrLess(a[i], b[i])
    ensures !SeqAtMost(b, a)
  {
    StrLessTrichotomy(a[i], b[i]);
    forall j | i < j <= |a| && j <= |b|
      ensures a[..j] != b[..j]
    {
      assert a[..j][i] != b[..j][i];
    }
    forall k | 0 <= k < i
      ensures !StrLess(b[k], a[k])
    {
      assert a[..i][k] == b[..i][k];
      StrLessTrichotomy(a[k], a[k]);
    }
  }

  lemma SeqAtMostAntisymmetric(a: seq<string>, b: seq<string>)
    requires SeqAtMost(a, b) && SeqAtMost(b, a)
    ensures a == b
  {
    if a != b {
      var i :| 0 <= i < |a| && i < |b| && a[..i] == b[..i] && StrLess(a[i], b[i]);
      FirstDifferenceDecides(a, b, i);
    }
  }
}
