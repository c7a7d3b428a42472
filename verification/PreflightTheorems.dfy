/** What the bundle parser guarantees: on its own bundle everything, on arbitrary text no forged success. */
module PreflightTheorems {
  import opened Text
  import opened Preflight

  // ----- Arbitrary text -----

  ghost predicate AllOverlap(s: string, w: string, from: nat) {
    forall p, q :: from <= p <= q && OccursAt(s, p, w) && OccursAt(s, q, w) ==> q < p + |w|
  }

  /** The duplicate test rejects exactly those texts that hold two copies that share no character. */
  lemma {:induction false} CountAtMostOneIff(s: string, w: string, from: nat)
    requires w != ""
    ensures CountFrom(s, w, from) <= 1 <==> AllOverlap(s, w, from)
  {
    match Find(s, w, from)
    case None =>
      forall p | from <= p
        ensures !OccursAt(s, p, w)
      {
        if OccursAt(s, p, w) {
          FindsFirst(s, w, from, p);
        }
      }
    case Some(p) =>
      FoundOccurs(s, w, from);
      if Find(s, w, p + |w|).Some? {
        FoundOccurs(s, w, p + |w|);
        assert !AllOverlap(s, w, from);
      } else {
        forall a, b | from <= a <= b && OccursAt(s, a, w) && OccursAt(s, b, w)
          ensures b < a + |w|
        {
          FindsFirst(s, w, from, a);
          if p + |w| <= b {
            FindsFirst(s, w, p + |w|, b);
          }
        }
      }
  }

  /** Where the parser found a query, and what it read there. */
  ghost predicate Located(
    text: string, begin: string, rc: string, read: (string, string) -> Verdict, v: Verdict, b: nat, r: nat)
  {
    && OccursAt(text, b, begin) && b + |begin| <= r && OccursAt(text, r, rc)
    && v == read(text[b + |begin|..r], text[r + |rc|..])
  }

  lemma PairOccurs(text: string, begin: string, rc: string, cursor: nat)
    requires FindPair(text, begin, rc, cursor).Some?
    ensures OccursAt(text, FindPair(text, begin, rc, cursor).value.0, begin)
    ensures OccursAt(text, FindPair(text, begin, rc, cursor).value.1, rc)
  {
    FoundOccurs(text, begin, cursor);
    FoundOccurs(text, rc, FindPair(text, begin, rc, cursor).value.0 + |begin|);
  }

  lemma ParsedIsLocated(
    text: string, begin: string, rc: string, cursor: nat, read: (string, string) -> Verdict)
    returns (b: nat, r: nat)
    requires begin != "" && rc != ""
    requires ParseQuery(text, begin, rc, cursor, read).verdict.Exited?
    ensures Located(text, begin, rc, read, ParseQuery(text, begin, rc, cursor, read).verdict, b, r)
    ensures cursor <= b && ParseQuery(text, begin, rc, cursor, read).next == r + |rc|
  {
    var (p, q) := FindPair(text, begin, rc, cursor).value;
    b, r := p, q;
    PairOccurs(text, begin, rc, cursor);
  }

  lemma ParsedIsUnambiguous(
    text: string, begin: string, rc: string, cursor: nat, read: (string, string) -> Verdict)
    requires begin != "" && rc != ""
    requires ParseQuery(text, begin, rc, cursor, read).verdict.Exited?
    ensures AllOverlap(text, begin, 0) && AllOverlap(text, rc, 0)
  {
    CountAtMostOneIff(text, begin, 0);
    CountAtMostOneIff(text, rc, 0);
  }

  /** Where the scan stands before query `i`. */
  function CursorAt(query: (string, nat) -> Step, names: seq<string>, i: nat): nat
    requires i <= |names|
  {
    if i == 0 then 0 else query(names[i - 1], CursorAt(query, names, i - 1)).next
  }

  lemma {:induction false} VerdictAt(query: (string, nat) -> Step, names: seq<string>, k: nat, i: nat)
    requires k <= i < |names|
    ensures ParseFrom(query, names, k, CursorAt(query, names, k))[i - k] ==
            query(names[i], CursorAt(query, names, i)).verdict
    decreases i - k
  {
    if k < i {
      VerdictAt(query, names, k + 1, i);
    }
  }

  ghost predicate NeverRetreats(query: (string, nat) -> Step) {
    forall name: string, cursor: nat :: cursor <= query(name, cursor).next
  }

  lemma {:induction false} CursorAdvances(query: (string, nat) -> Step, names: seq<string>, i: nat, j: nat)
    requires i <= j <= |names|
    requires NeverRetreats(query)
    ensures CursorAt(query, names, i) <= CursorAt(query, names, j)
    decreases j
  {
    if i < j {
      CursorAdvances(query, names, i, j - 1);
    }
  }

  lemma CursorNeverRetreats(
    text: string, begin: string, rc: string, cursor: nat, read: (string, string) -> Verdict)
    requires begin != "" && rc != ""
    ensures cursor <= ParseQuery(text, begin, rc, cursor, read).next
  {
    if ParseQuery(text, begin, rc, cursor, read).verdict.Exited? {
      var b, r := ParsedIsLocated(text, begin, rc, cursor, read);
    }
  }

  lemma QueriesNeverRetreat(m: Scheme, text: string, nonce: string)
    ensures NeverRetreats(m.QueryIn(text, nonce))
  {
    forall name: string, cursor: nat
      ensures cursor <= m.QueryIn(text, nonce)(name, cursor).next
    {
      CursorNeverRetreats(text, m.BeginMarker(nonce, name), m.RcMarker(nonce, name), cursor, ReadQuery);
    }
  }

  /**
   On any text whatever: a query reported as ok has its begin marker, and after it its exit marker with code 0;
   its output is what stands between them, and any further copy of either marker overlaps the one read.
  */
  lemma {:induction false} OkIsGenuine(text: string, timedOut: bool, nonce: string, i: nat) returns (b: nat, r: nat)
    requires i < |QUERIES| && OutcomeOf(PREFLIGHT.Parse(text, nonce, QUERIES)[i], timedOut).ok
    ensures Located(text, PREFLIGHT.BeginMarker(nonce, QUERIES[i]), PREFLIGHT.RcMarker(nonce, QUERIES[i]), ReadQuery,
                    Exited(0, OutcomeOf(PREFLIGHT.Parse(text, nonce, QUERIES)[i], timedOut).stdout), b, r)
    ensures AllOverlap(text, PREFLIGHT.BeginMarker(nonce, QUERIES[i]), 0)
    ensures AllOverlap(text, PREFLIGHT.RcMarker(nonce, QUERIES[i]), 0)
  {
    var query := PREFLIGHT.QueryIn(text, nonce);
    VerdictAt(query, QUERIES, 0, i);
    b, r := ParsedAt(PREFLIGHT, text, nonce, QUERIES[i], CursorAt(query, QUERIES, i));
    ParsedIsUnambiguous(text, PREFLIGHT.BeginMarker(nonce, QUERIES[i]), PREFLIGHT.RcMarker(nonce, QUERIES[i]),
                        CursorAt(query, QUERIES, i), ReadQuery);
  }

  lemma ParsedAt(m: Scheme, text: string, nonce: string, name: string, cursor: nat) returns (b: nat, r: nat)
    requires m.QueryIn(text, nonce)(name, cursor).verdict.Exited?
    ensures Located(text, m.BeginMarker(nonce, name), m.RcMarker(nonce, name), ReadQuery,
                    m.QueryIn(text, nonce)(name, cursor).verdict, b, r)
    ensures cursor <= b && m.QueryIn(text, nonce)(name, cursor).next == r + |m.RcMarker(nonce, name)|
  {
    b, r := ParsedIsLocated(text, m.BeginMarker(nonce, name), m.RcMarker(nonce, name), cursor, ReadQuery);
  }

  /** The verdict on query `i` was read at its begin marker at `b` and its exit marker, after it, at `r`. */
  ghost predicate ReadAt(m: Scheme, text: string, nonce: string, names: seq<string>, i: nat, b: nat, r: nat)
    requires i < |names|
  {
    Located(text, m.BeginMarker(nonce, names[i]), m.RcMarker(nonce, names[i]), ReadQuery,
            m.Parse(text, nonce, names)[i], b, r)
  }

  /** What was read up to the cursor after query `i` ends before what was read from the cursor of query `j` on. */
  lemma ScanAdvances(m: Scheme, text: string, nonce: string, names: seq<string>, i: nat, j: nat, end: nat, start: nat)
    requires i < j < |names|
    requires end == CursorAt(m.QueryIn(text, nonce), names, i + 1)
    requires CursorAt(m.QueryIn(text, nonce), names, j) <= start
    ensures end <= start
  {
    QueriesNeverRetreat(m, text, nonce);
    EndsBefore(m.QueryIn(text, nonce), names, i, j, end, start);
  }

  lemma EndsBefore(query: (string, nat) -> Step, names: seq<string>, i: nat, j: nat, end: nat, start: nat)
    requires i < j < |names| && NeverRetreats(query)
    requires end == CursorAt(query, names, i + 1) && CursorAt(query, names, j) <= start
    ensures end <= start
  {
    CursorAdvances(query, names, i + 1, j);
  }

  /** Query `i` was read between the place where the scan stood before it and the place where it stood after. */
  lemma ParsedBetween(m: Scheme, text: string, nonce: string, names: seq<string>, i: nat) returns (b: nat, r: nat)
    requires i < |names| && m.Parse(text, nonce, names)[i].Exited?
    ensures ReadAt(m, text, nonce, names, i, b, r)
    ensures CursorAt(m.QueryIn(text, nonce), names, i) <= b
    ensures CursorAt(m.QueryIn(text, nonce), names, i + 1) == r + |m.RcMarker(nonce, names[i])|
  {
    var query := m.QueryIn(text, nonce);
    VerdictAt(query, names, 0, i);
    b, r := ParsedAt(m, text, nonce, names[i], CursorAt(query, names, i));
  }

  /** Two parsed queries: each at the markers it was read from, the earlier one's before the later one's. */
  lemma {:induction false} ParsedInOrder(m: Scheme, text: string, nonce: string, names: seq<string>, i: nat, j: nat)
    returns (bi: nat, ri: nat, bj: nat, rj: nat)
    requires i < j < |names|
    requires m.Parse(text, nonce, names)[i].Exited? && m.Parse(text, nonce, names)[j].Exited?
    ensures ReadAt(m, text, nonce, names, i, bi, ri)
    ensures ReadAt(m, text, nonce, names, j, bj, rj)
    ensures ri + |m.RcMarker(nonce, names[i])| <= bj
  {
    bi, ri := ParsedBetween(m, text, nonce, names, i);
    bj, rj := ParsedBetween(m, text, nonce, names, j);
    ScanAdvances(m, text, nonce, names, i, j, ri + |m.RcMarker(nonce, names[i])|, bj);
  }

  lemma SharedUnderscores(w: string, text: string)
    requires |w| > 2 && w[0] == w[1] == w[|w| - 2] == w[|w| - 1] == '_' && text == w + w[2..]
    ensures OccursAt(text, 0, w) && OccursAt(text, |w| - 2, w)
  {}

  /**
   "More than once" is not what is counted: for every marker that starts and ends with two underscores there
   is a text with two copies of it, sharing those underscores, that the duplicate test lets through.
  */
  lemma {:induction false} OverlappingCopiesAreMissed(w: string)
    requires |w| > 2 && w[0] == w[1] == w[|w| - 2] == w[|w| - 1] == '_'
    ensures var text := w + w[2..];
            OccursAt(text, 0, w) && OccursAt(text, |w| - 2, w) && CountFrom(text, w, 0) == 1
  {
    var text := w + w[2..];
    SharedUnderscores(w, text);
    assert CountFrom(text, w, 0) == 1 + CountFrom(text, w, |w|);
    assert Find(text, w, |w|).None?;
  }
}
