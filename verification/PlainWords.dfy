/** Words that are put on a command line without quoting: exactly when the shell reads them back. */
module PlainWords {
  import opened Options
  import opened Text
  import opened Shell

  /** Needs no quotes, as far as the character alone can tell. */
  predicate IsPlain(c: char) { !IsBlank(c) && !IsSpecial(c) }

  predicate IsSpecial(c: char) { c in {'\'', '"', '\\'} || IsActive(c) }

  /** Character `i` of the word stands for itself. */
  predicate PlainAt(w: string, i: nat)
    requires i < |w|
  {
    IsPlain(w[i]) && !Completes(w[..i], w[i])
  }

  /** A word that stands for itself without quotes, whatever files and users there are. */
  predicate IsPlainWord(w: string) {
    w != "" && !IsActiveFirst(w[0]) && forall i :: 0 <= i < |w| ==> PlainAt(w, i)
  }

  predicate AllPlainWords(ws: seq<string>) { forall i :: 0 <= i < |ws| ==> IsPlainWord(ws[i]) }

  // ----- Plain words are read back -----

  /** The rest of a plain word, from character `i` on. */
  lemma {:induction false} ScanPlainRest(w: string, i: nat, words: seq<string>)
    requires IsPlainWord(w) && 0 < i <= |w|
    ensures Scan(w[i..], State(words, w[..i], Bare)) == State(words, w, Bare)
    decreases |w| - i
  {
    if i == |w| {
      assert w[..i] == w && w[i..] == "";
    } else {
      assert PlainAt(w, i);
      assert w[..i] + [w[i]] == w[..i + 1] && w[i..][1..] == w[i + 1..];
      ScanPlainRest(w, i + 1, words);
    }
  }

  lemma ScanPlain(w: string, words: seq<string>)
    requires IsPlainWord(w)
    ensures Scan(w, State(words, "", Between)) == State(words, w, Bare)
  {
    assert PlainAt(w, 0);
    assert "" + [w[0]] == w[..1] && w[..0] == "";
    ScanPlainRest(w, 1, words);
  }

  lemma {:induction false} ScanPlainWords(ws: seq<string>, words: seq<string>)
    requires ws != [] && AllPlainWords(ws)
    ensures Scan(JoinWithSpace(ws), State(words, "", Between)) == State(words + ws[..|ws| - 1], ws[|ws| - 1], Bare)
  {
    ScanPlain(ws[0], words);
    if |ws| == 1 {
      assert words + ws[..0] == words;
    } else {
      ScanConcat(ws[0], " " + JoinWithSpace(ws[1..]), State(words, "", Between));
      ScanConcat(" ", JoinWithSpace(ws[1..]), State(words, ws[0], Bare));
      ScanOne(' ', State(words, ws[0], Bare));
      ScanPlainWords(ws[1..], words + [ws[0]]);
      OneMoreWord(words, ws);
    }
  }

  // ----- Only they are: every character that is not part of a word is missing in the end -----

  /** The length of the words, each with a blank after it. */
  function Length(ws: seq<string>): nat {
    if ws == [] then 0 else Length(ws[..|ws| - 1]) + |ws[|ws| - 1]| + 1
  }

  function Held(st: State): nat {
    Length(st.words) + |st.word| + if st.quoting.DoubleEscape? then 1 else 0
  }

  lemma LengthOneMore(ws: seq<string>, w: string)
    ensures Length(ws + [w]) == Length(ws) + |w| + 1
  {
    assert (ws + [w])[..|ws|] == ws;
  }

  lemma UnquotedHolds(st: State, c: char)
    requires st.quoting.Between? || st.quoting.Bare?
    ensures Held(Unquoted(st, c)) <= Held(st) + if IsSpecial(c) || Completes(st.word, c) then 0 else 1
  {}

  /** What a character that the word would miss is, outside quotes. */
  predicate IsLost(st: State, c: char) {
    IsSpecial(c) || (if st.quoting.Between? then IsBlank(c) || IsActiveFirst(c) else Completes(st.word, c))
  }

  lemma StepHolds(st: State, c: char)
    ensures Held(Step(st, c)) <= Held(st) + 1
    ensures (st.quoting.Between? || st.quoting.Bare?) && IsLost(st, c) ==> Held(Step(st, c)) <= Held(st)
  {
    if st.quoting.Between? {
      BetweenHolds(st, c);
    } else if st.quoting.Bare? {
      BareHolds(st, c);
    } else {
      QuotedHolds(st, c);
    }
  }

  lemma BetweenHolds(st: State, c: char)
    requires st.quoting.Between?
    ensures Held(Step(st, c)) <= Held(st) + if IsLost(st, c) then 0 else 1
  {
    UnquotedHolds(st, c);
  }

  lemma BareHolds(st: State, c: char)
    requires st.quoting.Bare?
    ensures Held(Step(st, c)) <= Held(st) + if IsLost(st, c) then 0 else 1
  {
    if IsBlank(c) {
      BlankIsNotSpecial(c, st.word);
      LengthOneMore(st.words, st.word);
    } else {
      UnquotedHolds(st, c);
    }
  }

  lemma BlankIsNotSpecial(c: char, word: string)
    requires IsBlank(c)
    ensures !IsSpecial(c) && !Completes(word, c)
  {}

  lemma QuotedHolds(st: State, c: char)
    requires !st.quoting.Between? && !st.quoting.Bare?
    ensures Held(Step(st, c)) <= Held(st) + 1
  {}

  lemma {:induction false} ScanHolds(s: string, st: State)
    ensures Held(Scan(s, st)) <= Held(st) + |s|
  {
    if s != "" {
      StepHolds(st, s[0]);
      ScanHolds(s[1..], Step(st, s[0]));
    }
  }

  /** Outside quotes, with plain words so far. */
  predicate PlainSoFar(st: State) {
    && AllPlainWords(st.words)
    && (st.quoting.Between? || (st.quoting.Bare? && IsPlainWord(st.word)))
  }

  lemma PlainExtended(word: string, c: char)
    requires IsPlainWord(word) || (word == "" && !IsActiveFirst(c))
    requires IsPlain(c) && !Completes(word, c)
    ensures IsPlainWord(word + [c])
  {
    var w := word + [c];
    forall i | 0 <= i < |w|
      ensures PlainAt(w, i)
    {
      if i < |word| {
        assert w[..i] == word[..i] && PlainAt(word, i);
      } else {
        assert w[..i] == word;
      }
    }
  }

  lemma NothingCompletes(c: char)
    ensures !Completes("", c)
  {}

  lemma PlainStep(st: State, c: char)
    requires PlainSoFar(st) && (st.quoting.Between? ==> st.word == "")
    requires Held(Step(st, c)) == Held(st) + 1
    ensures PlainSoFar(Step(st, c)) && (Step(st, c).quoting.Between? ==> Step(st, c).word == "")
  {
    StepHolds(st, c);
    NothingCompletes(c);
    if !IsBlank(c) {
      PlainExtended(st.word, c);
    }
  }

  /** A scan that loses no character has met nothing but plain words and single blanks. */
  lemma {:induction false} LosslessIsPlain(s: string, st: State)
    requires PlainSoFar(st) && (st.quoting.Between? ==> st.word == "")
    requires Held(Scan(s, st)) == Held(st) + |s|
    ensures PlainSoFar(Scan(s, st))
  {
    if s != "" {
      StepHolds(st, s[0]);
      ScanHolds(s[1..], Step(st, s[0]));
      PlainStep(st, s[0]);
      LosslessIsPlain(s[1..], Step(st, s[0]));
    }
  }

  lemma {:induction false} LengthFromFront(ws: seq<string>)
    requires ws != []
    ensures Length(ws) == |ws[0]| + 1 + Length(ws[1..])
  {
    if |ws| > 1 {
      LengthFromFront(ws[..|ws| - 1]);
      assert ws[..|ws| - 1][1..] == ws[1..][..|ws| - 2];
    }
  }

  lemma {:induction false} JoinedLength(ws: seq<string>)
    requires ws != []
    ensures |JoinWithSpace(ws)| + 1 == Length(ws)
  {
    LengthFromFront(ws);
    if |ws| > 1 {
      JoinedLength(ws[1..]);
    }
  }

  lemma ReadBackIsPlain(ws: seq<string>)
    requires ws != [] && Split(JoinWithSpace(ws)) == Some(ws)
    ensures AllPlainWords(ws)
  {
    var start := State([], "", Between);
    var end := Scan(JoinWithSpace(ws), start);
    JoinedLength(ws);
    ScanHolds(JoinWithSpace(ws), start);
    if end.quoting.Bare? {
      LengthOneMore(end.words, end.word);
      LosslessIsPlain(JoinWithSpace(ws), start);
    }
  }

  /** Joined without quoting, a list of words is read back exactly when each is plain and not empty. */
  lemma {:induction false} UnquotedIsReadIff(ws: seq<string>)
    ensures Split(JoinWithSpace(ws)) == Some(ws) <==> AllPlainWords(ws)
  {
    if ws != [] {
      if AllPlainWords(ws) {
        ScanPlainWords(ws, []);
        AllButLast(ws);
      } else if Split(JoinWithSpace(ws)) == Some(ws) {
        ReadBackIsPlain(ws);
      }
    }
  }

  // ----- Lists of words -----

  lemma {:induction false} JoinConcat(a: seq<string>, b: seq<string>)
    requires a != [] && b != []
    ensures JoinWithSpace(a + b) == JoinWithSpace(a) + (" " + JoinWithSpace(b))
  {
    if |a| == 1 {
      assert (a + b)[1..] == b;
    } else {
      assert (a + b)[1..] == a[1..] + b;
      JoinConcat(a[1..], b);
    }
  }

  lemma SafeIsPlain(c: char, word: string)
    requires IsSafe(c)
    ensures IsPlain(c) && !IsActiveFirst(c) && !Completes(word, c)
  {}

  lemma SafeWordIsPlain(w: string)
    requires AllSafe(w) && w != ""
    ensures IsPlainWord(w)
  {
    forall i | 0 <= i < |w|
      ensures PlainAt(w, i) && !IsActiveFirst(w[i])
    {
      SafeIsPlain(w[i], w[..i]);
    }
  }

  /** Safe characters at its end neither make a word plain nor spoil it. */
  lemma PlainBeforeSafe(a: string, b: string)
    requires a != "" && AllSafe(b)
    ensures IsPlainWord(a + b) <==> IsPlainWord(a)
  {
    var w := a + b;
    forall i | 0 <= i < |a|
      ensures PlainAt(w, i) <==> PlainAt(a, i)
    {
      assert w[..i] == a[..i];
    }
    forall i | |a| <= i < |w|
      ensures PlainAt(w, i)
    {
      assert w[i] == b[i - |a|];
      SafeIsPlain(w[i], w[..i]);
    }
  }

  lemma PlainWordsConcat(a: seq<string>, b: seq<string>)
    ensures AllPlainWords(a + b) <==> AllPlainWords(a) && AllPlainWords(b)
  {
    if AllPlainWords(a + b) {
      forall i | 0 <= i < |b|
        ensures IsPlainWord(b[i])
      {
        assert (a + b)[|a| + i] == b[i];
      }
      forall i | 0 <= i < |a|
        ensures IsPlainWord(a[i])
      {
        assert (a + b)[i] == a[i];
      }
    }
  }
}
