/** Parsing a bundle gives back what each query printed and how it exited. */
module PreflightRoundTrip {
  import opened Options
  import opened Text
  import opened PyInts
  import opened Preflight
  import opened PreflightTheorems

  /** What the round trip asks of one query: only its own markers may hold the nonce. */
  ghost predicate Fits(nonce: string, run: Run) {
    && !Contains(run.text, nonce) && !Contains(run.name, nonce) && NoUnderscore(run.name)
    && |Dec(run.code)| < |nonce|
  }

  // ----- Where the nonce can stand -----

  lemma OccursConcat(s: string, p: nat, a: string, b: string)
    requires OccursAt(s, p, a + b)
    ensures OccursAt(s, p, a) && OccursAt(s, p + |a|, b)
  {
    forall i | 0 <= i < |a|
      ensures Same(s, p, a, i)
    {
      At(s, p, a + b, i);
    }
    var q := p + |a|;
    forall i | 0 <= i < |b|
      ensures Same(s, q, b, i)
    {
      At(s, p, a + b, |a| + i);
    }
  }

  lemma HexThere(s: string, p: nat, nonce: string, i: nat)
    requires All(nonce, Hex) && OccursAt(s, p, nonce) && p <= i < p + |nonce|
    ensures IsHex(s[i])
  {
    At(s, p, nonce, i - p);
    assert Hex.Has(nonce[i - p]);
  }

  /** An occurrence cannot start inside text without hex digits. */
  lemma SkipNoHex(s: string, from: nat, w: string, nonce: string, p: nat)
    requires nonce != "" && All(nonce, Hex) && OccursAt(s, p, nonce) && from <= p
    requires OccursAt(s, from, w) && NoHex(w)
    ensures from + |w| <= p
  {
    if p < from + |w| {
      HexThere(s, p, nonce, p);
      At(s, from, w, p - from);
      assert false;
    }
  }

  /** Nor inside text without the nonce that is followed by something other than a hex digit. */
  lemma SkipClean(s: string, from: nat, w: string, nonce: string, p: nat)
    requires nonce != "" && All(nonce, Hex) && OccursAt(s, p, nonce) && from <= p
    requires OccursAt(s, from, w) && !Contains(w, nonce) && from + |w| < |s| && !IsHex(s[from + |w|])
    ensures from + |w| < p
  {
    if from + |w| < p + |nonce| && p <= from + |w| {
      HexThere(s, p, nonce, from + |w|);
    }
    if p + |nonce| <= from + |w| {
      InsideWhole(s, from, w, nonce, p);
    }
  }

  lemma InsideWhole(s: string, from: nat, w: string, nonce: string, p: nat)
    requires OccursAt(s, from, w) && OccursAt(s, p, nonce) && from <= p && p + |nonce| <= from + |w|
    ensures Contains(w, nonce)
  {
    var q := p - from;
    forall i | 0 <= i < |nonce|
      ensures Same(w, q, nonce, i)
    {
      At(s, p, nonce, i);
      At(s, from, w, q + i);
    }
    assert OccursAt(w, q, nonce);
  }

  /** Nor inside the nonce itself, when no hex digit follows it. */
  lemma SkipNonce(s: string, from: nat, nonce: string, p: nat)
    requires nonce != "" && All(nonce, Hex) && OccursAt(s, p, nonce) && from < p
    requires from + |nonce| < |s| && !IsHex(s[from + |nonce|])
    ensures from + |nonce| < p
  {
    if p <= from + |nonce| {
      HexThere(s, p, nonce, from + |nonce|);
    }
  }

  /** One marker and the clean text after it hold the nonce once, after the marker's prefix. */
  lemma NonceInMarker(
    s: string, off: nat, prefix: string, nonce: string, name: string, close: string, body: string, p: nat)
    requires nonce != "" && All(nonce, Hex) && OccursAt(s, p, nonce) && off <= p
    requires NoHex(prefix) && NoHex(close) && close != ""
    requires OccursAt(s, off, prefix + (nonce + ("_" + (name + close))))
    requires !Contains(name, nonce) && !Contains(body, nonce)
    requires var t := off + |prefix| + |nonce| + 1 + |name| + |close|;
             OccursAt(s, t, body) && t + |body| < |s| && !IsHex(s[t + |body|])
    ensures p == off + |prefix| || off + |prefix| + |nonce| + 1 + |name| + |close| + |body| < p
  {
    var a := off + |prefix|;
    var b := a + |nonce|;
    OccursConcat(s, off, prefix, nonce + ("_" + (name + close)));
    OccursConcat(s, a, nonce, "_" + (name + close));
    OccursConcat(s, b, "_", name + close);
    OccursConcat(s, b + 1, name, close);
    SkipNoHex(s, off, prefix, nonce, p);
    if p != a {
      At(s, b, "_", 0);
      SkipNonce(s, a, nonce, p);
      At(s, b + 1 + |name|, close, 0);
      SkipClean(s, b + 1, name, nonce, p);
      SkipNoHex(s, b + 1 + |name|, close, nonce, p);
      SkipClean(s, b + 1 + |name| + |close|, body, nonce, p);
    }
  }

  // ----- Where a bundle puts its markers -----

  function Width(m: Scheme, nonce: string, run: Run): nat {
    |m.BeginMarker(nonce, run.name)| + |run.text| + |m.RcMarker(nonce, run.name)| + |Dec(run.code)| + 3
  }

  /** Where run `i` starts in a bundle that starts at `base`. */
  function Off(m: Scheme, nonce: string, runs: seq<Run>, base: nat, i: nat): nat
    requires i <= |runs|
  {
    if i == 0 then base else Off(m, nonce, runs, base, i - 1) + Width(m, nonce, runs[i - 1])
  }

  function RcOff(m: Scheme, nonce: string, runs: seq<Run>, base: nat, i: nat): nat
    requires i < |runs|
  {
    Off(m, nonce, runs, base, i) + |m.BeginMarker(nonce, runs[i].name)| + |runs[i].text|
  }

  /** A run stands at `off`, its exit marker at `r`, and what follows the run at `next`. */
  ghost predicate RunAt(m: Scheme, s: string, nonce: string, run: Run, off: nat, r: nat, next: nat) {
    var bm, rm, digits := m.BeginMarker(nonce, run.name), m.RcMarker(nonce, run.name), Dec(run.code);
    && r == off + |bm| + |run.text| && next == r + |rm| + |digits| + 3 && next <= |s|
    && OccursAt(s, off, bm) && OccursAt(s, off + |bm|, run.text)
    && OccursAt(s, r, rm) && OccursAt(s, r + |rm|, digits) && OccursAt(s, r + |rm| + |digits|, "__\n")
  }

  lemma RunPieces(
    m: Scheme, s: string, nonce: string, run: Run, off: nat, rest: string, bm: string, rm: string, digits: string)
    requires bm == m.BeginMarker(nonce, run.name) && rm == m.RcMarker(nonce, run.name) && digits == Dec(run.code)
    requires off <= |s| && s[off..] == bm + (run.text + (rm + (digits + ("__\n" + rest))))
    ensures RunAt(m, s, nonce, run, off, off + |bm| + |run.text|, off + Width(m, nonce, run))
    ensures s[off + Width(m, nonce, run)..] == rest
  {
    PieceAt(s, off, bm, run.text + (rm + (digits + ("__\n" + rest))));
    PieceAt(s, off + |bm|, run.text, rm + (digits + ("__\n" + rest)));
    var r := off + |bm| + |run.text|;
    PieceAt(s, r, rm, digits + ("__\n" + rest));
    PieceAt(s, r + |rm|, digits, "__\n" + rest);
    PieceAt(s, r + |rm| + |digits|, "__\n", rest);
  }

  lemma FirstRun(m: Scheme, s: string, nonce: string, runs: seq<Run>, run: Run, off: nat, r: nat, next: nat)
    requires runs != [] && off <= |s| && s[off..] == m.Bundle(nonce, runs)
    requires run == runs[0] && r == off + |m.BeginMarker(nonce, run.name)| + |run.text|
    requires next == off + Width(m, nonce, run)
    ensures RunAt(m, s, nonce, run, off, r, next) && s[next..] == m.Bundle(nonce, runs[1..])
  {
    RunPieces(m, s, nonce, run, off, m.Bundle(nonce, runs[1..]),
              m.BeginMarker(nonce, run.name), m.RcMarker(nonce, run.name), Dec(run.code));
  }

  lemma {:induction false} BundlePieces(m: Scheme, s: string, nonce: string, runs: seq<Run>, base: nat, i: nat)
    requires base <= |s| && s[base..] == m.Bundle(nonce, runs) && i <= |runs|
    ensures Off(m, nonce, runs, base, i) <= |s| && s[Off(m, nonce, runs, base, i)..] == m.Bundle(nonce, runs[i..])
  {
    if i == 0 {
      assert runs[0..] == runs;
    } else {
      BundlePieces(m, s, nonce, runs, base, i - 1);
      assert runs[i - 1..][1..] == runs[i..];
      FirstRun(m, s, nonce, runs[i - 1..], runs[i - 1], Off(m, nonce, runs, base, i - 1),
               RcOff(m, nonce, runs, base, i - 1), Off(m, nonce, runs, base, i));
    }
  }

  lemma RunIsAt(m: Scheme, s: string, nonce: string, runs: seq<Run>, base: nat, i: nat)
    requires base <= |s| && s[base..] == m.Bundle(nonce, runs) && i < |runs|
    ensures RunAt(m, s, nonce, runs[i], Off(m, nonce, runs, base, i), RcOff(m, nonce, runs, base, i),
                  Off(m, nonce, runs, base, i + 1))
  {
    BundlePieces(m, s, nonce, runs, base, i);
    FirstRun(m, s, nonce, runs[i..], runs[i], Off(m, nonce, runs, base, i), RcOff(m, nonce, runs, base, i),
             Off(m, nonce, runs, base, i + 1));
  }

  // ----- The nonce stands only in the markers -----

  lemma NonceInRun(m: Scheme, s: string, nonce: string, run: Run, off: nat, r: nat, next: nat, p: nat)
    requires m.Good() && IsNonce(nonce) && Fits(nonce, run) && RunAt(m, s, nonce, run, off, r, next)
    requires OccursAt(s, p, nonce) && off <= p
    ensures p == off + |m.q| || p == r + |m.rc| || next <= p
  {
    var digits := Dec(run.code);
    At(s, r, m.RcMarker(nonce, run.name), 0);
    NonceInMarker(s, off, m.q, nonce, run.name, "__", run.text, p);
    if p != off + |m.q| {
      DigitsHoldNoNonce(digits, nonce);
      At(s, r + |m.RcMarker(nonce, run.name)| + |digits|, "__\n", 0);
      NonceInMarker(s, r, m.rc, nonce, run.name, "_", digits, p);
      if p != r + |m.rc| {
        SkipNoHex(s, next - 3, "__\n", nonce, p);
      }
    }
  }

  lemma DigitsHoldNoNonce(digits: string, nonce: string)
    requires |digits| < |nonce|
    ensures !Contains(digits, nonce)
  {
    assert forall p :: !OccursAt(digits, p, nonce);
  }

  /** Every occurrence of the nonce from run `i` on belongs to a marker. */
  lemma {:induction false} NonceInBundle(
    m: Scheme, s: string, nonce: string, runs: seq<Run>, base: nat, i: nat, p: nat) returns (j: nat)
    requires m.Good() && IsNonce(nonce) && forall k :: 0 <= k < |runs| ==> Fits(nonce, runs[k])
    requires base <= |s| && s[base..] == m.Bundle(nonce, runs) && i <= |runs|
    requires OccursAt(s, p, nonce) && Off(m, nonce, runs, base, i) <= p
    ensures i <= j < |runs|
    ensures p == Off(m, nonce, runs, base, j) + |m.q| || p == RcOff(m, nonce, runs, base, j) + |m.rc|
    decreases |runs| - i
  {
    BundlePieces(m, s, nonce, runs, base, i);
    if i < |runs| {
      j := i;
      var off, r := Off(m, nonce, runs, base, i), RcOff(m, nonce, runs, base, i);
      RunIsAt(m, s, nonce, runs, base, i);
      NonceInRun(m, s, nonce, runs[i], off, r, Off(m, nonce, runs, base, i + 1), p);
      if p != off + |m.q| && p != r + |m.rc| {
        j := NonceInBundle(m, s, nonce, runs, base, i + 1, p);
      }
    }
  }

  // ----- Each marker stands in one place -----

  /** What surrounds the nonce in a marker: the second to last character before it, and the name after it. */
  lemma MarkerParts(s: string, p: nat, prefix: string, nonce: string, name: string, close: string)
    requires OccursAt(s, p, prefix + (nonce + ("_" + (name + close)))) && |prefix| >= 2
    requires close != "" && close[0] == '_'
    ensures OccursAt(s, p + |prefix|, nonce) && p + |prefix| <= |s| && s[p + |prefix| - 2] == prefix[|prefix| - 2]
    ensures OccursAt(s, p + |prefix| + |nonce| + 1, name)
    ensures p + |prefix| + |nonce| + 1 + |name| < |s| && s[p + |prefix| + |nonce| + 1 + |name|] == '_'
  {
    var a := p + |prefix|;
    OccursConcat(s, p, prefix, nonce + ("_" + (name + close)));
    OccursConcat(s, a, nonce, "_" + (name + close));
    OccursConcat(s, a + |nonce|, "_", name + close);
    OccursConcat(s, a + |nonce| + 1, name, close);
    At(s, p, prefix, |prefix| - 2);
    At(s, a + |nonce| + 1 + |name|, close, 0);
  }

  /** Two names, each read up to the next underscore, are the same. */
  lemma SameName(s: string, p: nat, a: string, b: string)
    requires NoUnderscore(a) && NoUnderscore(b) && OccursAt(s, p, a) && OccursAt(s, p, b)
    requires p + |a| < |s| && s[p + |a|] == '_' && p + |b| < |s| && s[p + |b|] == '_'
    ensures a == b
  {
    if |a| < |b| {
      At(s, p, b, |a|);
      assert false;
    }
    if |b| < |a| {
      At(s, p, a, |b|);
      assert false;
    }
    forall i | 0 <= i < |a|
      ensures a[i] == b[i]
    {
      At(s, p, a, i);
      At(s, p, b, i);
    }
  }

  ghost predicate Layout(m: Scheme, s: string, nonce: string, runs: seq<Run>, base: nat) {
    && m.Good() && IsNonce(nonce) && (forall k :: 0 <= k < |runs| ==> Fits(nonce, runs[k])) && Distinct(Names(runs))
    && base <= |s| && s[base..] == m.Bundle(nonce, runs) && !Contains(s[..base], nonce)
  }

  /** Which of a bundle's markers has its nonce at `a`. */
  lemma MarkerWithNonceAt(m: Scheme, s: string, nonce: string, runs: seq<Run>, base: nat, a: nat) returns (j: nat)
    requires Layout(m, s, nonce, runs, base) && runs != [] && OccursAt(s, a, nonce)
    ensures j < |runs|
    ensures a == Off(m, nonce, runs, base, j) + |m.q| || a == RcOff(m, nonce, runs, base, j) + |m.rc|
  {
    RunIsAt(m, s, nonce, runs, base, 0);
    At(s, base, m.BeginMarker(nonce, runs[0].name), 0);
    forall i | 0 <= i < base
      ensures Same(s, 0, s[..base], i)
    {}
    SkipClean(s, 0, s[..base], nonce, a);
    j := NonceInBundle(m, s, nonce, runs, base, 0, a);
  }

  /** A marker whose nonce is the nonce of one of a run's markers has that run's name and that marker's prefix. */
  lemma NamesItsRun(
    m: Scheme, s: string, nonce: string, run: Run, off: nat, r: nat, next: nat,
    p: nat, prefix: string, name: string, close: string)
    requires |m.q| >= 2 && |m.rc| >= 2 && RunAt(m, s, nonce, run, off, r, next) && NoUnderscore(run.name)
    requires |prefix| >= 2 && close != "" && close[0] == '_' && NoUnderscore(name)
    requires OccursAt(s, p, prefix + (nonce + ("_" + (name + close))))
    requires p + |prefix| == off + |m.q| || p + |prefix| == r + |m.rc|
    ensures name == run.name
    ensures p + |prefix| == off + |m.q| ==> prefix[|prefix| - 2] == m.q[|m.q| - 2]
    ensures p + |prefix| == r + |m.rc| ==> prefix[|prefix| - 2] == m.rc[|m.rc| - 2]
  {
    MarkerParts(s, p, prefix, nonce, name, close);
    if p + |prefix| == off + |m.q| {
      MarkerParts(s, off, m.q, nonce, run.name, "__");
    }
    if p + |prefix| == r + |m.rc| {
      MarkerParts(s, r, m.rc, nonce, run.name, "_");
    }
    SameName(s, p + |prefix| + |nonce| + 1, name, run.name);
  }

  lemma MarkerRun(
    m: Scheme, s: string, nonce: string, runs: seq<Run>, base: nat, i: nat, p: nat, prefix: string, close: string)
    requires Layout(m, s, nonce, runs, base) && i < |runs|
    requires |prefix| >= 2 && close != "" && close[0] == '_'
    requires OccursAt(s, p, prefix + (nonce + ("_" + (runs[i].name + close))))
    ensures (p + |prefix| == Off(m, nonce, runs, base, i) + |m.q| && prefix[|prefix| - 2] == m.q[|m.q| - 2]) ||
            (p + |prefix| == RcOff(m, nonce, runs, base, i) + |m.rc| && prefix[|prefix| - 2] == m.rc[|m.rc| - 2])
  {
    MarkerParts(s, p, prefix, nonce, runs[i].name, close);
    var j := MarkerWithNonceAt(m, s, nonce, runs, base, p + |prefix|);
    RunIsAt(m, s, nonce, runs, base, j);
    NamesItsRun(m, s, nonce, runs[j], Off(m, nonce, runs, base, j), RcOff(m, nonce, runs, base, j),
                Off(m, nonce, runs, base, j + 1), p, prefix, runs[i].name, close);
    assert Names(runs)[i] == Names(runs)[j];
  }

  lemma BeginStandsOnce(m: Scheme, s: string, nonce: string, runs: seq<Run>, base: nat, i: nat, p: nat)
    requires Layout(m, s, nonce, runs, base) && i < |runs| && OccursAt(s, p, m.BeginMarker(nonce, runs[i].name))
    ensures p == Off(m, nonce, runs, base, i)
  {
    MarkerRun(m, s, nonce, runs, base, i, p, m.q, "__");
  }

  lemma RcStandsOnce(m: Scheme, s: string, nonce: string, runs: seq<Run>, base: nat, i: nat, p: nat)
    requires Layout(m, s, nonce, runs, base) && i < |runs| && OccursAt(s, p, m.RcMarker(nonce, runs[i].name))
    ensures p == RcOff(m, nonce, runs, base, i)
  {
    MarkerRun(m, s, nonce, runs, base, i, p, m.rc, "_");
  }

  ghost predicate OnlyAt(s: string, w: string, at: nat) {
    forall p: nat :: OccursAt(s, p, w) ==> p == at
  }

  lemma MarkersStandOnce(m: Scheme, s: string, nonce: string, runs: seq<Run>, base: nat, i: nat)
    requires Layout(m, s, nonce, runs, base) && i < |runs|
    ensures OnlyAt(s, m.BeginMarker(nonce, runs[i].name), Off(m, nonce, runs, base, i))
    ensures OnlyAt(s, m.RcMarker(nonce, runs[i].name), RcOff(m, nonce, runs, base, i))
  {
    forall p: nat | OccursAt(s, p, m.BeginMarker(nonce, runs[i].name))
      ensures p == Off(m, nonce, runs, base, i)
    {
      BeginStandsOnce(m, s, nonce, runs, base, i, p);
    }
    forall p: nat | OccursAt(s, p, m.RcMarker(nonce, runs[i].name))
      ensures p == RcOff(m, nonce, runs, base, i)
    {
      RcStandsOnce(m, s, nonce, runs, base, i, p);
    }
  }

  // ----- Parsing -----

  /** A marker that stands once is not counted twice, and is found from any earlier place. */
  lemma StandsOnce(s: string, w: string, at: nat, from: nat)
    requires w != "" && OccursAt(s, at, w) && from <= at
    requires OnlyAt(s, w, at)
    ensures CountFrom(s, w, 0) <= 1 && Find(s, w, from) == Some(at)
  {
    CountAtMostOneIff(s, w, 0);
    FindsFirst(s, w, from, at);
    FoundOccurs(s, w, from);
  }

  lemma ReadsCode(segment: string, digits: string, rest: string, code: nat)
    requires digits == Dec(code)
    ensures ReadQuery(segment, digits + ("__" + rest)) == Exited(code, Strip(segment))
  {
    var tail := digits + ("__" + rest);
    DigitsThenDunder(tail, digits, rest);
    StripDigits(digits);
    PyIntOfDec(code);
  }

  lemma DigitsThenDunder(tail: string, digits: string, rest: string)
    requires All(digits, Digit) && tail == digits + ("__" + rest)
    ensures BeforeDunder(tail) == digits
  {
    var n := |digits|;
    assert OccursAt(tail, n, "__") by {
      PieceAt(tail, 0, digits, "__" + rest);
      PieceAt(tail, n, "__", rest);
    }
    FindsFirst(tail, "__", 0, n);
    FoundOccurs(tail, "__", 0);
    var p := Find(tail, "__", 0).value;
    At(tail, p, "__", 0);
    forall k | 0 <= k < n
      ensures tail[k] != '_'
    {
      assert Digit.Has(digits[k]);
    }
  }

  lemma StripDigits(digits: string)
    requires digits != "" && All(digits, Digit)
    ensures Strip(digits) == digits
  {
    assert Digit.Has(digits[0]) && Digit.Has(digits[|digits| - 1]);
  }

  /** From `cursor`, `query` gives the run's verdict and goes no further than `limit`. */
  predicate Parses(query: (string, nat) -> Step, run: Run, cursor: nat, limit: nat) {
    query(run.name, cursor).verdict == Exited(run.code, Strip(run.text)) && query(run.name, cursor).next <= limit
  }

  /** One query of a bundle, parsed from any place before it. */
  lemma ParsesRun(m: Scheme, s: string, nonce: string, runs: seq<Run>, base: nat, i: nat, cursor: nat)
    requires Layout(m, s, nonce, runs, base) && i < |runs| && cursor <= Off(m, nonce, runs, base, i)
    ensures Parses(m.QueryIn(s, nonce), runs[i], cursor, Off(m, nonce, runs, base, i + 1))
  {
    RunIsAt(m, s, nonce, runs, base, i);
    MarkersStandOnce(m, s, nonce, runs, base, i);
    PlacedRunParses(m, s, nonce, runs[i], Off(m, nonce, runs, base, i), RcOff(m, nonce, runs, base, i),
                    Off(m, nonce, runs, base, i + 1), cursor);
  }

  lemma PlacedRunParses(m: Scheme, s: string, nonce: string, run: Run, off: nat, r: nat, next: nat, cursor: nat)
    requires RunAt(m, s, nonce, run, off, r, next) && cursor <= off
    requires OnlyAt(s, m.BeginMarker(nonce, run.name), off) && OnlyAt(s, m.RcMarker(nonce, run.name), r)
    ensures Parses(m.QueryIn(s, nonce), run, cursor, next)
  {
    var begin, rc := m.BeginMarker(nonce, run.name), m.RcMarker(nonce, run.name);
    PlacedPairParses(s, begin, rc, off, r, cursor, run);
    QueryParses(m, s, nonce, run, begin, rc, cursor, r + |rc|, next);
  }

  lemma PlacedPairParses(s: string, begin: string, rc: string, off: nat, r: nat, cursor: nat, run: Run)
    requires begin != "" && rc != "" && cursor <= off && r == off + |begin| + |run.text|
    requires OccursAt(s, off, begin) && OccursAt(s, off + |begin|, run.text) && OccursAt(s, r, rc)
    requires OccursAt(s, r + |rc|, Dec(run.code)) && OccursAt(s, r + |rc| + |Dec(run.code)|, "__\n")
    requires OnlyAt(s, begin, off)
    requires OnlyAt(s, rc, r)
    ensures ParseQuery(s, begin, rc, cursor, ReadQuery) == Step(Exited(run.code, Strip(run.text)), r + |rc|)
  {
    TailReads(s, r + |rc|, run);
    ParsesPair(s, begin, rc, off, r, cursor, ReadQuery, run.text, Exited(run.code, Strip(run.text)));
  }

  lemma QueryParses(
    m: Scheme, s: string, nonce: string, run: Run, begin: string, rc: string, cursor: nat, end: nat, next: nat)
    requires begin == m.BeginMarker(nonce, run.name) && begin != "" && rc == m.RcMarker(nonce, run.name) && rc != ""
    requires ParseQuery(s, begin, rc, cursor, ReadQuery) == Step(Exited(run.code, Strip(run.text)), end) && end <= next
    ensures Parses(m.QueryIn(s, nonce), run, cursor, next)
  {}

  predicate ReadsAs(read: (string, string) -> Verdict, segment: string, tail: string, v: Verdict) {
    v.Exited? && read(segment, tail) == v
  }

  lemma TailReads(s: string, y: nat, run: Run)
    requires OccursAt(s, y, Dec(run.code)) && OccursAt(s, y + |Dec(run.code)|, "__\n")
    ensures ReadsAs(ReadQuery, run.text, s[y..], Exited(run.code, Strip(run.text)))
  {
    ReadsTail(s, y, Dec(run.code), run);
  }

  lemma ParsesPair(
    s: string, begin: string, rc: string, off: nat, r: nat, cursor: nat,
    read: (string, string) -> Verdict, segment: string, v: Verdict)
    requires begin != "" && rc != "" && cursor <= off && r == off + |begin| + |segment|
    requires OccursAt(s, off, begin) && OccursAt(s, off + |begin|, segment) && OccursAt(s, r, rc)
    requires OnlyAt(s, begin, off)
    requires OnlyAt(s, rc, r)
    requires ReadsAs(read, segment, s[r + |rc|..], v)
    ensures ParseQuery(s, begin, rc, cursor, read) == Step(v, r + |rc|)
  {
    SliceIs(s, off + |begin|, r, segment);
    FindsPair(s, begin, rc, off, r, cursor, read, segment, v);
  }

  lemma FindsPair(
    s: string, begin: string, rc: string, off: nat, r: nat, cursor: nat,
    read: (string, string) -> Verdict, segment: string, v: Verdict)
    requires begin != "" && rc != "" && cursor <= off && off + |begin| <= r
    requires OccursAt(s, off, begin) && OccursAt(s, r, rc)
    requires OnlyAt(s, begin, off)
    requires OnlyAt(s, rc, r)
    requires v.Exited? && s[off + |begin|..r] == segment && read(segment, s[r + |rc|..]) == v
    ensures ParseQuery(s, begin, rc, cursor, read) == Step(v, r + |rc|)
  {
    StandsOnce(s, begin, off, cursor);
    StandsOnce(s, rc, r, off + |begin|);
  }

  lemma TailSplits(s: string, y: nat, digits: string) returns (rest: string)
    requires OccursAt(s, y, digits) && OccursAt(s, y + |digits|, "__\n")
    ensures s[y..] == digits + ("__" + rest)
  {
    var z := y + |digits|;
    assert "__" + "\n" == "__\n";
    OccursConcat(s, z, "__", "\n");
    SliceIs(s, y, z, digits);
    SliceIs(s, z, z + 2, "__");
    rest := s[z + 2..];
    InThree(s, y, z, z + 2);
  }

  lemma InThree(s: string, a: nat, b: nat, c: nat)
    requires a <= b <= c <= |s|
    ensures s[a..] == s[a..b] + (s[b..c] + s[c..])
  {}

  lemma ReadsTail(s: string, y: nat, digits: string, run: Run)
    requires digits == Dec(run.code) && OccursAt(s, y, digits) && OccursAt(s, y + |digits|, "__\n")
    ensures ReadQuery(run.text, s[y..]) == Exited(run.code, Strip(run.text))
  {
    var rest := TailSplits(s, y, digits);
    ReadsCode(run.text, digits, rest, run.code);
  }

  lemma SliceIs(s: string, p: nat, e: nat, w: string)
    requires OccursAt(s, p, w) && e == p + |w|
    ensures s[p..e] == w
  {
    forall i | 0 <= i < |w|
      ensures s[p + i] == w[i]
    {
      At(s, p, w, i);
    }
  }

  predicate ParsesAt(query: (string, nat) -> Step, runs: seq<Run>, starts: seq<nat>, k: nat, c: nat)
    requires |starts| == |runs| + 1 && k < |runs|
  {
    c <= starts[k] ==> Parses(query, runs[k], c, starts[k + 1])
  }

  lemma {:induction false} ParsesEach(
    query: (string, nat) -> Step, runs: seq<Run>, starts: seq<nat>, i: nat, cursor: nat)
    requires |starts| == |runs| + 1 && i <= |runs| && cursor <= starts[i]
    requires forall k: nat, c: nat :: k < |runs| ==> ParsesAt(query, runs, starts, k, c)
    ensures ParseFrom(query, Names(runs), i, cursor) == Verdicts(runs)[i..]
    decreases |runs| - i
  {
    if i < |runs| {
      assert ParsesAt(query, runs, starts, i, cursor);
      ParsesEach(query, runs, starts, i + 1, query(runs[i].name, cursor).next);
    }
  }

  /** The parser inverts the bundle, whatever nonce-free text stands before it. */
  lemma {:induction false} ParsesBundle(m: Scheme, pre: string, nonce: string, runs: seq<Run>)
    requires m.Good() && IsNonce(nonce) && Distinct(Names(runs)) && !Contains(pre, nonce)
    requires forall k :: 0 <= k < |runs| ==> Fits(nonce, runs[k])
    ensures m.Parse(pre + m.Bundle(nonce, runs), nonce, Names(runs)) == Verdicts(runs)
  {
    var s := pre + m.Bundle(nonce, runs);
    assert s[|pre|..] == m.Bundle(nonce, runs) && s[..|pre|] == pre;
    ParsesLayout(m, s, nonce, runs, |pre|);
  }

  lemma ParsesLayout(m: Scheme, s: string, nonce: string, runs: seq<Run>, base: nat)
    requires Layout(m, s, nonce, runs, base)
    ensures m.Parse(s, nonce, Names(runs)) == Verdicts(runs)
  {
    var starts := seq(|runs| + 1, i requires 0 <= i <= |runs| => Off(m, nonce, runs, base, i));
    AllParse(m, s, nonce, runs, base, starts);
    ParsesEach(m.QueryIn(s, nonce), runs, starts, 0, 0);
  }

  lemma AllParse(m: Scheme, s: string, nonce: string, runs: seq<Run>, base: nat, starts: seq<nat>)
    requires Layout(m, s, nonce, runs, base) && |starts| == |runs| + 1
    requires forall i :: 0 <= i <= |runs| ==> starts[i] == Off(m, nonce, runs, base, i)
    ensures forall k: nat, c: nat :: k < |runs| ==> ParsesAt(m.QueryIn(s, nonce), runs, starts, k, c)
  {
    forall k: nat, c: nat | k < |runs|
      ensures ParsesAt(m.QueryIn(s, nonce), runs, starts, k, c)
    {
      if c <= starts[k] {
        ParsesRun(m, s, nonce, runs, base, k, c);
      }
    }
  }
}
