/** The order of the flags on a wire does not matter, but for the order of the compose files. */
module WireOrder {
  import opened Options
  import opened Wire
  import opened FwdWire

  lemma OneMore<T>(s: seq<T>, x: T, y: T)
    ensures multiset(s + [x])[y] == multiset(s)[y] + if x == y then 1 else 0
  {}

  lemma SameBag(x: seq<string>, y: seq<string>)
    requires forall v :: multiset(x)[v] == multiset(y)[v]
    ensures |x| == |y|
    ensures |x| == 1 ==> x == y
  {
    assert multiset(x) == multiset(y);
    assert |multiset(x)| == |x| && |multiset(y)| == |y|;
    if |x| == 1 {
      assert x[0] in multiset(y);
    }
  }

  lemma {:induction false} ValuesCount(ts: seq<Token>, f: Flag, x: string)
    ensures multiset(Values(ts, f))[x] == multiset(ts)[Pair(f, x)]
  {
    if ts != [] {
      var front, last := ts[..|ts| - 1], ts[|ts| - 1];
      ValuesCount(front, f, x);
      assert ts == front + [last];
      OneMore(front, last, Pair(f, x));
      ValuesOfLast(ts, f, x);
    }
  }

  lemma ValuesOfLast(ts: seq<Token>, f: Flag, x: string)
    requires ts != []
    ensures multiset(Values(ts, f))[x] ==
            multiset(Values(ts[..|ts| - 1], f))[x] + if ts[|ts| - 1] == Pair(f, x) then 1 else 0
  {
    var front, last := ts[..|ts| - 1], ts[|ts| - 1];
    if last.Pair? && last.flag == f {
      OneMore(Values(front, f), last.value, x);
    } else {
      assert Values(ts, f) == Values(front, f);
    }
  }

  lemma {:induction false} LonesCount(ts: seq<Token>)
    ensures Lones(ts) == multiset(ts)[Lone]
  {
    if ts != [] {
      var n := |ts| - 1;
      LonesCount(ts[..n]);
      assert ts == ts[..n] + [ts[n]];
      OneMore(ts[..n], ts[n], Lone);
    }
  }

  lemma SameValues(a: seq<Token>, b: seq<Token>, f: Flag)
    requires multiset(a) == multiset(b)
    ensures |Values(a, f)| == |Values(b, f)|
    ensures |Values(a, f)| == 1 ==> Values(a, f) == Values(b, f)
  {
    forall v
      ensures multiset(Values(a, f))[v] == multiset(Values(b, f))[v]
    {
      ValuesCount(a, f, v);
      ValuesCount(b, f, v);
    }
    SameBag(Values(a, f), Values(b, f));
  }

  lemma SameLegality(op: ComposeOp, a: seq<Token>, b: seq<Token>)
    requires multiset(a) == multiset(b) && Legal(op, a)
    ensures Legal(op, b)
  {
    SameValues(a, b, Project);
    SameValues(a, b, EnvFile);
    LonesCount(a);
    LonesCount(b);
    forall i | 0 <= i < |b|
      ensures b[i].Lone? || b[i].flag in {Project, EnvFile, ComposeFile}
    {
      assert b[i] in multiset(a);
      var j :| 0 <= j < |a| && a[j] == b[i];
    }
  }

  /** Two wires with the same flag/value pairs, in any order that keeps the compose files', mean the same. */
  lemma {:induction false} ComposeOrderIrrelevant(
    op: ComposeOp, v: seq<string>, w: seq<string>, a: seq<Token>, b: seq<Token>)
    requires v != [] && w != []
    requires Tokens(v[1..], true) == Some(a) && Tokens(w[1..], true) == Some(b)
    requires multiset(a) == multiset(b) && Values(a, ComposeFile) == Values(b, ComposeFile)
    ensures ComposeMeaning(op, v) == ComposeMeaning(op, w)
  {
    SameValues(a, b, Project);
    SameValues(a, b, EnvFile);
    LonesCount(a);
    LonesCount(b);
    if Legal(op, a) {
      SameLegality(op, a, b);
    }
    if Legal(op, b) {
      SameLegality(op, b, a);
    }
  }

  lemma SameFwdLegality(a: seq<Token>, b: seq<Token>)
    requires multiset(a) == multiset(b) && FwdLegal(a)
    ensures FwdLegal(b)
  {
    SameValues(a, b, Project);
    SameValues(a, b, Ip);
    forall i | 0 <= i < |b|
      ensures b[i].Pair? && b[i].flag in {Project, Ip}
    {
      assert b[i] in multiset(a);
      var j :| 0 <= j < |a| && a[j] == b[i];
    }
  }

  lemma {:induction false} FwdOrderIrrelevant(v: seq<string>, w: seq<string>, a: seq<Token>, b: seq<Token>)
    requires v != [] && w != []
    requires Tokens(v[1..], false) == Some(a) && Tokens(w[1..], false) == Some(b)
    requires multiset(a) == multiset(b)
    ensures FwdMeaning(v) == FwdMeaning(w)
  {
    SameValues(a, b, Project);
    SameValues(a, b, Ip);
    if FwdLegal(a) {
      SameFwdLegality(a, b);
    }
    if FwdLegal(b) {
      SameFwdLegality(b, a);
    }
  }
}
