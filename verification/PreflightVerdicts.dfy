/** The verdict on each query of a bundle, on any text whatever, without the parser's own steps. */
module PreflightVerdicts {
  import opened Options
  import opened Text
  import opened PyInts
  import opened Preflight
  import opened PreflightTheorems

  // ----- The pair of markers a query is read from -----

  /** A begin marker at `b`, not before `from`, and an exit marker at `r`, behind it. */
  ghost predicate Pair(text: string, begin: string, rc: string, from: nat, b: nat, r: nat) {
    from <= b && OccursAt(text, b, begin) && b + |begin| <= r && OccursAt(text, r, rc)
  }

  /** The first begin marker that counts, and the first exit marker behind it. */
  ghost predicate FirstPair(text: string, begin: string, rc: string, from: nat, b: nat, r: nat) {
    && Pair(text, begin, rc, from, b, r)
    && forall c: nat, q: nat :: Pair(text, begin, rc, from, c, q) ==> b < c || (b == c && r <= q)
  }

  lemma PairIsFound(text: string, begin: string, rc: string, from: nat, b: nat, r: nat)
    requires Pair(text, begin, rc, from, b, r)
    ensures var found := FindPair(text, begin, rc, from);
            found.Some? && (found.value.0 < b || (found.value.0 == b && found.value.1 <= r))
  {
    FindsFirst(text, begin, from, b);
    FindsFirst(text, rc, Find(text, begin, from).value + |begin|, r);
  }

  lemma FoundIsFirst(text: string, begin: string, rc: string, from: nat)
    requires FindPair(text, begin, rc, from).Some?
    ensures var (b, r) := FindPair(text, begin, rc, from).value; FirstPair(text, begin, rc, from, b, r)
  {
    var (b, r) := FindPair(text, begin, rc, from).value;
    PairOccurs(text, begin, rc, from);
    forall c: nat, q: nat | Pair(text, begin, rc, from, c, q)
      ensures b < c || (b == c && r <= q)
    {
      PairIsFound(text, begin, rc, from, c, q);
    }
  }

  lemma FirstPairIff(text: string, begin: string, rc: string, from: nat, b: nat, r: nat)
    ensures FirstPair(text, begin, rc, from, b, r) <==> FindPair(text, begin, rc, from) == Some((b, r))
  {
    if FindPair(text, begin, rc, from).Some? {
      FoundIsFirst(text, begin, rc, from);
    }
    if FirstPair(text, begin, rc, from, b, r) {
      PairIsFound(text, begin, rc, from, b, r);
    }
  }

  // ----- What is read there -----

  /** `p` is where the first two underscores of `tail` stand, or its end if there are none. */
  ghost predicate UpToDunder(tail: string, p: nat) {
    && p <= |tail| && (p < |tail| ==> OccursAt(tail, p, "__"))
    && forall q :: 0 <= q < p ==> !OccursAt(tail, q, "__")
  }

  lemma UpToDunderIff(tail: string, p: nat)
    requires UpToDunder(tail, p)
    ensures BeforeDunder(tail) == tail[..p]
  {
    match Find(tail, "__", 0)
    case None =>
      if p < |tail| {
        FindsFirst(tail, "__", 0, p);
      }
    case Some(q) =>
      FoundOccurs(tail, "__", 0);
      if p < |tail| {
        FindsFirst(tail, "__", 0, p);
      }
  }

  lemma DunderAt(tail: string) returns (p: nat)
    ensures UpToDunder(tail, p)
  {
    var found := Find(tail, "__", 0);
    p := if found.Some? then found.value else |tail|;
    if found.Some? {
      FoundOccurs(tail, "__", 0);
    }
    forall q | 0 <= q < p
      ensures !OccursAt(tail, q, "__")
    {
      if OccursAt(tail, q, "__") {
        FindsFirst(tail, "__", 0, q);
      }
    }
  }

  /** The verdict when `segment` stands between the markers and `tail` behind them. */
  ghost predicate Says(segment: string, tail: string, p: nat, v: Verdict) {
    && UpToDunder(tail, p)
    && match PyInt(Strip(tail[..p]))
       case Some(code) => v == Exited(code, Strip(segment))
       case None => v == Unparseable(Strip(tail[..p]))
  }

  ghost predicate Spells(segment: string, tail: string, v: Verdict) { exists p :: Says(segment, tail, p, v) }

  lemma SpellsIff(segment: string, tail: string, v: Verdict)
    ensures Spells(segment, tail, v) <==> ReadQuery(segment, tail) == v
  {
    var p := DunderAt(tail);
    UpToDunderIff(tail, p);
    if ReadQuery(segment, tail) == v {
      assert Says(segment, tail, p, v);
    }
    forall q | Says(segment, tail, q, v)
      ensures ReadQuery(segment, tail) == v
    {
      UpToDunderIff(tail, q);
    }
  }

  // ----- One query -----

  /** A query read from the first pair of its markers from `from` on; `r` is where its exit marker stands. */
  ghost predicate ReadFrom(text: string, begin: string, rc: string, from: nat, b: nat, r: nat, v: Verdict) {
    && FirstPair(text, begin, rc, from, b, r)
    && Spells(text[b + |begin|..r], text[r + |rc|..], v)
  }

  /** The verdict `v` on a query whose scan starts at `from`, when the next one's starts at `to`. */
  ghost predicate Judged(text: string, begin: string, rc: string, from: nat, v: Verdict, to: nat) {
    if !AllOverlap(text, begin, 0) || !AllOverlap(text, rc, 0) then v == Ambiguous && to == from
    else if Absent(text, begin, rc, from) then v == SegmentMissing && to == from
    else exists b: nat, r: nat :: ReadFrom(text, begin, rc, from, b, r, v) && to == After(v, r + |rc|, from)
  }

  ghost predicate Absent(text: string, begin: string, rc: string, from: nat) {
    forall b: nat, r: nat :: !Pair(text, begin, rc, from, b, r)
  }

  /** Only a query that was read moves the scan. */
  function After(v: Verdict, end: nat, from: nat): nat { if v.Exited? then end else from }

  lemma ReadFromIff(text: string, begin: string, rc: string, from: nat, b: nat, r: nat, v: Verdict)
    ensures ReadFrom(text, begin, rc, from, b, r, v) <==>
            FindPair(text, begin, rc, from) == Some((b, r)) && ReadQuery(text[b + |begin|..r], text[r + |rc|..]) == v
  {
    FirstPairIff(text, begin, rc, from, b, r);
    if FirstPair(text, begin, rc, from, b, r) {
      SpellsIff(text[b + |begin|..r], text[r + |rc|..], v);
    }
  }

  lemma MissingIff(text: string, begin: string, rc: string, from: nat)
    ensures FindPair(text, begin, rc, from).None? <==> Absent(text, begin, rc, from)
  {
    if FindPair(text, begin, rc, from).Some? {
      FoundIsFirst(text, begin, rc, from);
    }
    forall b: nat, r: nat | Pair(text, begin, rc, from, b, r)
      ensures FindPair(text, begin, rc, from).Some?
    {
      PairIsFound(text, begin, rc, from, b, r);
    }
  }

  lemma ReadIff(text: string, begin: string, rc: string, from: nat, b: nat, r: nat, v: Verdict, to: nat)
    requires FindPair(text, begin, rc, from) == Some((b, r))
    ensures (exists c: nat, q: nat :: ReadFrom(text, begin, rc, from, c, q, v) && to == After(v, q + |rc|, from)) <==>
            ReadQuery(text[b + |begin|..r], text[r + |rc|..]) == v && to == After(v, r + |rc|, from)
  {
    ReadFromIff(text, begin, rc, from, b, r, v);
    forall c: nat, q: nat | ReadFrom(text, begin, rc, from, c, q, v)
      ensures c == b && q == r
    {
      ReadFromIff(text, begin, rc, from, c, q, v);
    }
  }

  lemma StepOfPair(
    text: string, begin: string, rc: string, from: nat, b: nat, r: nat, v: Verdict, to: nat,
    read: (string, string) -> Verdict)
    requires begin != "" && rc != ""
    requires CountFrom(text, begin, 0) <= 1 && CountFrom(text, rc, 0) <= 1
    requires FindPair(text, begin, rc, from) == Some((b, r))
    ensures ParseQuery(text, begin, rc, from, read) == Step(v, to) <==>
            read(text[b + |begin|..r], text[r + |rc|..]) == v && to == After(v, r + |rc|, from)
  {}

  /** One query is judged so exactly if the parser's step says so. */
  lemma JudgedIff(text: string, begin: string, rc: string, from: nat, v: Verdict, to: nat)
    requires begin != "" && rc != ""
    ensures Judged(text, begin, rc, from, v, to) <==> ParseQuery(text, begin, rc, from, ReadQuery) == Step(v, to)
  {
    CountAtMostOneIff(text, begin, 0);
    CountAtMostOneIff(text, rc, 0);
    MissingIff(text, begin, rc, from);
    if FindPair(text, begin, rc, from).Some? {
      var (b, r) := FindPair(text, begin, rc, from).value;
      ReadIff(text, begin, rc, from, b, r, v, to);
      if CountFrom(text, begin, 0) <= 1 && CountFrom(text, rc, 0) <= 1 {
        StepOfPair(text, begin, rc, from, b, r, v, to, ReadQuery);
      }
    }
  }

  // ----- All of them -----

  ghost predicate JudgedAt(
    m: Scheme, text: string, nonce: string, names: seq<string>, verdicts: seq<Verdict>, ends: seq<nat>, i: nat)
    requires i < |names| == |verdicts| && |ends| == |names| + 1
  {
    Judged(text, m.BeginMarker(nonce, names[i]), m.RcMarker(nonce, names[i]), ends[i], verdicts[i], ends[i + 1])
  }

  /** The verdicts, with the places the scan has reached: at first the start of the text. */
  ghost predicate Scan(
    m: Scheme, text: string, nonce: string, names: seq<string>, verdicts: seq<Verdict>, ends: seq<nat>)
  {
    && |verdicts| == |names| && |ends| == |names| + 1 && ends[0] == 0
    && forall i :: 0 <= i < |names| ==> JudgedAt(m, text, nonce, names, verdicts, ends, i)
  }

  lemma StepIsJudged(m: Scheme, text: string, nonce: string, name: string, from: nat, v: Verdict, to: nat)
    ensures Judged(text, m.BeginMarker(nonce, name), m.RcMarker(nonce, name), from, v, to) <==>
            m.QueryIn(text, nonce)(name, from) == Step(v, to)
  {
    JudgedIff(text, m.BeginMarker(nonce, name), m.RcMarker(nonce, name), from, v, to);
  }

  lemma {:induction false} ScanEnds(
    m: Scheme, text: string, nonce: string, names: seq<string>, verdicts: seq<Verdict>, ends: seq<nat>, i: nat)
    requires Scan(m, text, nonce, names, verdicts, ends) && i <= |names|
    ensures CursorAt(m.QueryIn(text, nonce), names, i) == ends[i]
  {
    if i > 0 {
      ScanEnds(m, text, nonce, names, verdicts, ends, i - 1);
      assert JudgedAt(m, text, nonce, names, verdicts, ends, i - 1);
      StepIsJudged(m, text, nonce, names[i - 1], ends[i - 1], verdicts[i - 1], ends[i]);
    }
  }

  lemma ScanIsParse(
    m: Scheme, text: string, nonce: string, names: seq<string>, verdicts: seq<Verdict>, ends: seq<nat>)
    requires Scan(m, text, nonce, names, verdicts, ends)
    ensures verdicts == m.Parse(text, nonce, names)
  {
    forall i | 0 <= i < |names|
      ensures verdicts[i] == m.Parse(text, nonce, names)[i]
    {
      ScanEnds(m, text, nonce, names, verdicts, ends, i);
      assert JudgedAt(m, text, nonce, names, verdicts, ends, i);
      StepIsJudged(m, text, nonce, names[i], ends[i], verdicts[i], ends[i + 1]);
      VerdictAt(m.QueryIn(text, nonce), names, 0, i);
    }
  }

  lemma ParseIsScan(m: Scheme, text: string, nonce: string, names: seq<string>) returns (ends: seq<nat>)
    ensures Scan(m, text, nonce, names, m.Parse(text, nonce, names), ends)
  {
    ends := Cursors(m.QueryIn(text, nonce), names);
    forall i | 0 <= i < |names|
      ensures JudgedAt(m, text, nonce, names, m.Parse(text, nonce, names), ends, i)
    {
      JudgedHere(m, text, nonce, names, ends, i);
    }
  }

  lemma Cursors(query: (string, nat) -> Step, names: seq<string>) returns (ends: seq<nat>)
    ensures |ends| == |names| + 1 && forall i :: 0 <= i <= |names| ==> ends[i] == CursorAt(query, names, i)
  {
    ends := seq(|names| + 1, i requires 0 <= i <= |names| => CursorAt(query, names, i));
  }

  lemma JudgedHere(m: Scheme, text: string, nonce: string, names: seq<string>, ends: seq<nat>, i: nat)
    requires i < |names| && |ends| == |names| + 1
    requires ends[i] == CursorAt(m.QueryIn(text, nonce), names, i)
    requires ends[i + 1] == CursorAt(m.QueryIn(text, nonce), names, i + 1)
    ensures JudgedAt(m, text, nonce, names, m.Parse(text, nonce, names), ends, i)
  {
    StepAt(m.QueryIn(text, nonce), names, i);
    StepIsJudged(m, text, nonce, names[i], ends[i], m.Parse(text, nonce, names)[i], ends[i + 1]);
  }

  lemma StepAt(query: (string, nat) -> Step, names: seq<string>, i: nat)
    requires i < |names|
    ensures query(names[i], CursorAt(query, names, i)) ==
            Step(ParseFrom(query, names, 0, 0)[i], CursorAt(query, names, i + 1))
  {
    VerdictAt(query, names, 0, i);
  }

  /**
   On any text: the parser's verdicts are the only ones that fit.  A query whose copies of a marker do not all overlap
   is ambiguous; one without a begin marker followed by an exit marker, from where the scan stands, is missing; any
   other is read at the first such pair, and only a query that was read moves the scan, to the end of its exit marker.
  */
  lemma {:induction false} VerdictsAreTheOnlyOnes(
    m: Scheme, text: string, nonce: string, names: seq<string>, verdicts: seq<Verdict>)
    ensures verdicts == m.Parse(text, nonce, names) <==>
            exists ends :: Scan(m, text, nonce, names, verdicts, ends)
  {
    var ends := ParseIsScan(m, text, nonce, names);
    forall ends | Scan(m, text, nonce, names, verdicts, ends)
      ensures verdicts == m.Parse(text, nonce, names)
    {
      ScanIsParse(m, text, nonce, names, verdicts, ends);
    }
  }
}
