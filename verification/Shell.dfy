/**
 Words and quoting: the token recognition of the POSIX shell (sections 2.2 and 2.3 of the Shell Command
 Language), what makes an unquoted word more than its characters (tilde prefixes, section 2.6.1; patterns,
 section 2.13; and bash's brace expansion), and the two quoting functions that must get every argument through.
*/
module Shell {
  import opened Options
  import opened Text

  // ----- Token recognition of a simple command -----

  /** Is an operator, starts an expansion or is a pattern, wherever it stands unquoted. */
  predicate IsActive(c: char) {
    c in {'|', '&', ';', '<', '>', '(', ')', '$', '`', '*', '?', '\n'}
  }

  /** Starts a comment or a tilde prefix where a word begins, and is itself elsewhere. */
  predicate IsActiveFirst(c: char) { c in {'#', '~'} }

  /** Behind `word`, completes a bracket expression, a brace expansion or the beginning of a tilde prefix. */
  predicate Completes(word: string, c: char) {
    (c == ']' && OpensBracket(word)) || (c == '}' && OpensBrace(word)) || (c == '~' && OpensTilde(word))
  }

  /** Some `[` waits for its `]`: it has been given a character to match, and no slash stands between. */
  predicate OpensBracket(word: string) {
    exists k :: 0 <= k < |word| && word[k] == '[' && IsBracketList(word[k + 1..])
  }

  predicate IsBracketList(s: string) { '/' !in s && s !in {"", "!", "^"} }

  /** Some `{` waits for its `}`, with alternatives or a sequence behind it. */
  predicate OpensBrace(word: string) { BraceWaits(word, true) }

  /**
   Looks for it from the left, past braces that are closed and came to nothing; `{}` at the start of a word, or
   right behind such braces, is left alone.
  */
  predicate BraceWaits(s: string, first: bool)
    decreases |s|
  {
    if s == "" then false
    else if s[0] != '{' || (first && |s| > 1 && s[1] == '}') then BraceWaits(s[1..], false)
    else
      match BraceEnd(s[1..] + "}", 0, 0, false)
      case None => BraceWaits(s[1..], false)
      case Some(e) => if e == |s| - 1 then IsBraceList(s[1..]) else BraceWaits(s[e + 2..], true)
  }

  predicate IsBraceList(s: string) { HasComma(s, 0) || IsSequence(s) }

  /**
   Which `}` from `i` on closes a brace: one that is not an inner brace's, once something has been `seen` that
   separates; before, it is an ordinary character.
  */
  function BraceEnd(s: string, i: nat, depth: nat, seen: bool): (r: Option<nat>)
    requires i <= |s|
    ensures r.Some? ==> i <= r.value < |s|
    decreases |s| - i
  {
    if i == |s| then None
    else if s[i] == '{' then BraceEnd(s, i + 1, depth + 1, seen)
    else if s[i] == '}' && depth > 0 then BraceEnd(s, i + 1, depth - 1, seen)
    else if s[i] == '}' && seen then Some(i)
    else BraceEnd(s, i + 1, depth, seen || (depth == 0 && Separates(s, i)))
  }

  /** A comma, or two dots that are not the last thing in the braces. */
  predicate Separates(s: string, i: nat)
    requires i < |s|
  {
    s[i] == ',' || (i + 2 < |s| && s[i] == '.' && s[i + 1] == '.' && s[i + 2] != '}')
  }

  /** A comma outside inner braces. */
  predicate HasComma(s: string, depth: nat) {
    s != "" &&
    if s[0] == '{' then HasComma(s[1..], depth + 1)
    else if s[0] == '}' then HasComma(s[1..], if depth > 0 then depth - 1 else 0)
    else (s[0] == ',' && depth == 0) || HasComma(s[1..], depth)
  }

  /** `x..y` or `x..y..step`, between two letters or two integers. */
  predicate IsSequence(s: string) {
    exists k :: 0 <= k < |s| && OccursAt(s, k, "..") && (IsRange(s[..k], s[k + 2..]) || IsStepped(s[..k], s[k + 2..]))
  }

  /** A range from `x` to the text in front of the dots in `s`, and an integer behind them. */
  predicate IsStepped(x: string, s: string) {
    exists m :: 0 <= m < |s| && OccursAt(s, m, "..") && IsRange(x, s[..m]) && IsInteger(s[m + 2..])
  }

  predicate IsRange(x: string, y: string) {
    (IsInteger(x) && IsInteger(y)) || (|x| == 1 && |y| == 1 && IsLetter(x[0]) && IsLetter(y[0]))
  }

  predicate IsInteger(s: string) {
    var digits := if s != "" && (s[0] == '-' || s[0] == '+') then s[1..] else s;
    digits != "" && All(digits, Digit)
  }

  /** An assignment up to its `=`, or up to a colon in its value; or what may be one to an element of an array. */
  predicate OpensTilde(word: string) {
    word != "" &&
    var n := |word| - 1;
    ((word[n] == '=' && IsAssigned(word[..n])) ||
     (word[n] == ':' && exists k :: 0 <= k < n && word[k] == '=' && IsAssigned(word[..k])) ||
     ((word[n] == '=' || word[n] == ':') && exists k :: 0 <= k < n && word[k] == '[' && IsName(word[..k])))
  }

  /** A variable name, with the `+` of `+=` or without. */
  predicate IsAssigned(s: string) { IsName(s) || (s != "" && s[|s| - 1] == '+' && IsName(s[..|s| - 1])) }

  predicate IsName(s: string) {
    s != "" && !IsDigit(s[0]) && forall i :: 0 <= i < |s| ==> IsLetter(s[i]) || IsDigit(s[i]) || s[i] == '_'
  }

  predicate IsBlank(c: char) { c == ' ' || c == '\t' }

  datatype Quoting =
    | Between              // no word has begun
    | Bare                 // in a word, unquoted
    | Single
    | Double
    | Escape(inWord: bool) // after an unquoted backslash
    | DoubleEscape         // after a backslash in double quotes
    | Rejected             // more than a list of words

  datatype State = State(words: seq<string>, word: string, quoting: Quoting)

  function Unquoted(st: State, c: char): State {
    if c == '\'' then st.(quoting := Single)
    else if c == '"' then st.(quoting := Double)
    else if c == '\\' then st.(quoting := Escape(st.quoting.Bare?))
    else if IsActive(c) || Completes(st.word, c) then st.(quoting := Rejected)
    else State(st.words, st.word + [c], Bare)
  }

  function Step(st: State, c: char): State {
    match st.quoting
    case Between =>
      if IsBlank(c) then st else if IsActiveFirst(c) then st.(quoting := Rejected) else Unquoted(st, c)
    case Bare => if IsBlank(c) then State(st.words + [st.word], "", Between) else Unquoted(st, c)
    case Single => if c == '\'' then st.(quoting := Bare) else st.(word := st.word + [c])
    case Double =>
      if c == '"' then st.(quoting := Bare)
      else if c == '\\' then st.(quoting := DoubleEscape)
      else if c == '$' || c == '`' then st.(quoting := Rejected)
      else st.(word := st.word + [c])
    case Escape(inWord) =>
      if c == '\n' then st.(quoting := if inWord then Bare else Between)
      else State(st.words, st.word + [c], Bare)
    case DoubleEscape =>
      if c == '\n' then st.(quoting := Double)
      else if c in {'$', '`', '"', '\\'} then State(st.words, st.word + [c], Double)
      else State(st.words, st.word + ['\\', c], Double)
    case Rejected => st
  }

  function Scan(s: string, st: State): State {
    if s == "" then st else Scan(s[1..], Step(st, s[0]))
  }

  /** The words of a command line, or nothing if it is more than plain words. */
  function Split(s: string): Option<seq<string>> {
    var st := Scan(s, State([], "", Between));
    match st.quoting
    case Between => Some(st.words)
    case Bare => Some(st.words + [st.word])
    case _ => None
  }

  lemma {:induction false} ScanConcat(a: string, b: string, st: State)
    ensures Scan(a + b, st) == Scan(b, Scan(a, st))
  {
    if a == "" {
      assert a + b == b;
    } else {
      assert (a + b)[1..] == a[1..] + b;
      ScanConcat(a[1..], b, Step(st, a[0]));
    }
  }

  // ----- Quoting -----

  /** `[\w@%+=:,./-]` in ASCII. */
  predicate IsSafe(c: char) {
    IsDigit(c) || IsLetter(c) || c in {'_', '@', '%', '+', '=', ':', ',', '.', '/', '-'}
  }

  predicate AllSafe(s: string) { forall i :: 0 <= i < |s| ==> IsSafe(s[i]) }

  /** A single quote becomes `'"'"'`; all else stays. */
  function EscapeQuotes(s: string): string {
    if s == "" then "" else (if s[0] == '\'' then "'\"'\"'" else [s[0]]) + EscapeQuotes(s[1..])
  }

  /** `shlex.quote`, and `shQuote` on the other side. */
  function Quote(s: string): string {
    if s == "" then "''" else if AllSafe(s) then s else "'" + (EscapeQuotes(s) + "'")
  }

  lemma StepSafe(st: State, c: char)
    requires IsSafe(c) && (st.quoting.Between? || st.quoting.Bare?)
    ensures Step(st, c) == State(st.words, st.word + [c], Bare)
  {}

  lemma {:induction false} ScanSafe(s: string, words: seq<string>, word: string, q: Quoting)
    requires AllSafe(s) && s != "" && (q.Between? || q.Bare?)
    ensures Scan(s, State(words, word, q)) == State(words, word + s, Bare)
  {
    StepSafe(State(words, word, q), s[0]);
    if |s| == 1 {
      assert s == [s[0]];
    } else {
      ScanSafe(s[1..], words, word + [s[0]], Bare);
      assert word + [s[0]] + s[1..] == word + s;
    }
  }

  lemma ScanQuote(words: seq<string>, word: string)
    ensures Scan("'\"'\"'", State(words, word, Single)) == State(words, word + ['\''], Single)
  {
    var s := "'\"'\"'";
    var st := State(words, word, Single);
    ScanConcat("'", "\"'\"'", st);
    ScanConcat("\"", "'\"'", State(words, word, Bare));
    ScanConcat("'", "\"'", State(words, word, Double));
    ScanConcat("\"", "'", State(words, word + ['\''], Double));
    assert s == "'" + "\"'\"'" && "\"'\"'" == "\"" + "'\"'" && "'\"'" == "'" + "\"'" && "\"'" == "\"" + "'";
    ScanOne('\'', st);
    ScanOne('"', State(words, word, Bare));
    ScanOne('\'', State(words, word, Double));
    ScanOne('"', State(words, word + ['\''], Double));
    ScanOne('\'', State(words, word + ['\''], Bare));
  }

  lemma ScanOne(c: char, st: State)
    ensures Scan([c], st) == Step(st, c)
  {
    assert Scan([c][1..], Step(st, c)) == Step(st, c);
  }

  lemma {:induction false} ScanEscaped(s: string, words: seq<string>, word: string)
    ensures Scan(EscapeQuotes(s), State(words, word, Single)) == State(words, word + s, Single)
  {
    if s == "" {
      assert word + s == word;
    } else {
      var head := if s[0] == '\'' then "'\"'\"'" else [s[0]];
      ScanConcat(head, EscapeQuotes(s[1..]), State(words, word, Single));
      if s[0] == '\'' {
        ScanQuote(words, word);
      } else {
        ScanOne(s[0], State(words, word, Single));
      }
      ScanEscaped(s[1..], words, word + [s[0]]);
      assert word + [s[0]] + s[1..] == word + s;
    }
  }

  /** A quoted text adds exactly that text to the word it stands in. */
  lemma {:induction false} ScanQuoted(s: string, words: seq<string>, word: string, q: Quoting)
    requires q.Between? || q.Bare?
    ensures Scan(Quote(s), State(words, word, q)) == State(words, word + s, Bare)
  {
    if s == "" {
      assert "''" == "'" + "'";
      ScanConcat("'", "'", State(words, word, q));
      ScanOne('\'', State(words, word, q));
      ScanOne('\'', State(words, word, Single));
      assert word + s == word;
    } else if AllSafe(s) {
      ScanSafe(s, words, word, q);
    } else {
      ScanConcat("'", EscapeQuotes(s) + "'", State(words, word, q));
      ScanOne('\'', State(words, word, q));
      ScanConcat(EscapeQuotes(s), "'", State(words, word, Single));
      ScanEscaped(s, words, word);
      ScanOne('\'', State(words, word + s, Single));
    }
  }

  // ----- Lists of words -----

  /** `shlex.join`. */
  function JoinQuoted(words: seq<string>): string {
    if words == [] then ""
    else if |words| == 1 then Quote(words[0])
    else Quote(words[0]) + (" " + JoinQuoted(words[1..]))
  }

  /** A quoted argument and a space are one more word. */
  lemma ScanWord(w: string, rest: string, words: seq<string>)
    ensures Scan(Quote(w) + (" " + rest), State(words, "", Between)) == Scan(rest, State(words + [w], "", Between))
  {
    ScanQuoted(w, words, "", Between);
    assert "" + w == w;
    ScanConcat(Quote(w), " " + rest, State(words, "", Between));
    ScanConcat(" ", rest, State(words, w, Bare));
    ScanOne(' ', State(words, w, Bare));
  }

  /** Words before a quoted list are kept; the list comes out as it went in. */
  lemma {:induction false} ScanJoined(list: seq<string>, words: seq<string>)
    requires list != []
    ensures Scan(JoinQuoted(list), State(words, "", Between)) ==
            State(words + list[..|list| - 1], list[|list| - 1], Bare)
  {
    if |list| > 1 {
      ScanWord(list[0], JoinQuoted(list[1..]), words);
      ScanJoined(list[1..], words + [list[0]]);
      OneMoreWord(words, list);
    } else {
      ScanQuoted(list[0], words, "", Between);
      assert "" + list[0] == list[0];
      assert words + list[..0] == words;
    }
  }

  lemma OneMoreWord(words: seq<string>, list: seq<string>)
    requires |list| > 1
    ensures words + [list[0]] + list[1..][..|list[1..]| - 1] == words + list[..|list| - 1]
  {}

  lemma AllButLast(list: seq<string>)
    requires list != []
    ensures [] + list[..|list| - 1] + [list[|list| - 1]] == list
  {}

  /** Splitting undoes joining, for every list of arguments. */
  lemma {:induction false} SplitJoined(list: seq<string>)
    ensures Split(JoinQuoted(list)) == Some(list)
  {
    if list != [] {
      ScanJoined(list, []);
      AllButLast(list);
    }
  }

  // ----- The payload that crosses the privilege boundary -----

  const DISPATCH_BINARY := "/usr/local/libexec/sandbox-ai/dispatch"

  /** `f"{binary} {op} {shlex.join(args)}".rstrip()`. */
  function Payload(binary: string, op: string, args: seq<string>): string {
    RStrip(binary + (" " + (op + (" " + JoinQuoted(args)))))
  }

  lemma SafeIsNotSpace(c: char)
    requires IsSafe(c)
    ensures !IsSpace(c)
  {}

  lemma QuoteEndsInNoSpace(s: string)
    ensures Quote(s) != "" && !IsSpace(Quote(s)[|Quote(s)| - 1])
  {
    if s != "" && AllSafe(s) {
      SafeIsNotSpace(s[|s| - 1]);
    } else {
      assert Quote(s)[|Quote(s)| - 1] == '\'';
    }
  }

  lemma {:induction false} JoinedEndsInNoSpace(args: seq<string>)
    requires args != []
    ensures JoinQuoted(args) != "" && !IsSpace(JoinQuoted(args)[|JoinQuoted(args)| - 1])
  {
    QuoteEndsInNoSpace(args[0]);
    if |args| > 1 {
      JoinedEndsInNoSpace(args[1..]);
    }
  }

  /** The trailing strip takes away the space left by an empty argument list, and nothing else. */
  lemma {:induction false} PayloadStripsNothing(binary: string, op: string, args: seq<string>)
    requires AllSafe(binary) && AllSafe(op) && op != ""
    ensures Payload(binary, op, args) == binary + (" " + (op + if args == [] then "" else " " + JoinQuoted(args)))
  {
    var full := binary + (" " + (op + (" " + JoinQuoted(args))));
    if args == [] {
      SafeIsNotSpace(op[|op| - 1]);
      var front := binary + (" " + (op + ""));
      assert full == front + " ";
      assert full[..|full| - 1] == front && front[|front| - 1] == op[|op| - 1];
      assert full[|full| - 1] == ' ' && IsSpace(' ');
      assert RStrip(full) == RStrip(front) == front;
    } else {
      JoinedEndsInNoSpace(args);
      assert full[|full| - 1] == JoinQuoted(args)[|JoinQuoted(args)| - 1];
    }
  }

  /** Whatever the arguments are, the shell hands exactly them to the dispatcher. */
  lemma {:induction false} PayloadSplits(binary: string, op: string, args: seq<string>)
    requires AllSafe(binary) && binary != "" && AllSafe(op) && op != ""
    ensures Split(Payload(binary, op, args)) == Some([binary, op] + args)
  {
    PayloadStripsNothing(binary, op, args);
    assert Quote(binary) == binary && Quote(op) == op;
    PayloadIsJoined(binary, op, args);
    SplitJoined([binary, op] + args);
  }

  lemma PayloadIsJoined(binary: string, op: string, args: seq<string>)
    ensures JoinQuoted([binary, op] + args) ==
            Quote(binary) + (" " + (Quote(op) + if args == [] then "" else " " + JoinQuoted(args)))
  {
    var list := [binary, op] + args;
    var tail := list[1..];
    assert tail == [op] + args && tail[1..] == args;
    assert list[0] == binary && tail[0] == op;
    assert JoinQuoted(list) == Quote(binary) + (" " + JoinQuoted(tail));
    if args == [] {
      assert JoinQuoted(tail) == Quote(op);
      assert Quote(op) + "" == Quote(op);
    } else {
      assert JoinQuoted(tail) == Quote(op) + (" " + JoinQuoted(args));
    }
  }

  lemma DispatchBinaryIsSafe()
    ensures AllSafe(DISPATCH_BINARY) && DISPATCH_BINARY != ""
  {}

  // ----- The helper container -----

  /** Plain words, each followed by a space. */
  function Spaced(words: seq<string>): string {
    if words == [] then "" else words[0] + (" " + Spaced(words[1..]))
  }

  const HARDENING: seq<string> := [
    "docker", "run", "--rm", "--runtime=runc", "--network=none", "--read-only", "--tmpfs", "/tmp", "--user", "0:0",
    "--cap-drop", "ALL", "--cap-add", "CHOWN", "--cap-add", "DAC_OVERRIDE",
    "--security-opt", "no-new-privileges:true", "-v"]

  function DockerRun(prefix: seq<string>, image: string, parent: string, inner: string): string {
    Spaced(prefix) + (Quote(parent) + (":/p " + (Quote(image) + (" sh -c " + Quote(inner)))))
  }

  function HardenedDockerRun(image: string, parent: string, inner: string): string {
    DockerRun(HARDENING, image, parent, inner)
  }

  lemma {:induction false} ScanSpaced(list: seq<string>, rest: string, words: seq<string>)
    requires forall i :: 0 <= i < |list| ==> AllSafe(list[i]) && list[i] != ""
    ensures Scan(Spaced(list) + rest, State(words, "", Between)) == Scan(rest, State(words + list, "", Between))
  {
    if list == [] {
      assert Spaced(list) + rest == rest && words + list == words;
    } else {
      assert Spaced(list) + rest == list[0] + (" " + (Spaced(list[1..]) + rest));
      assert Quote(list[0]) == list[0];
      ScanWord(list[0], Spaced(list[1..]) + rest, words);
      ScanSpaced(list[1..], rest, words + [list[0]]);
      assert words + [list[0]] + list[1..] == words + list;
    }
  }

  /** The mount argument: the quoted parent glued to `:/p` is one word. */
  lemma ScanMount(parent: string, rest: string, words: seq<string>)
    ensures Scan(Quote(parent) + (":/p " + rest), State(words, "", Between)) ==
            Scan(rest, State(words + [parent + ":/p"], "", Between))
  {
    ScanQuoted(parent, words, "", Between);
    assert "" + parent == parent;
    ScanConcat(Quote(parent), ":/p " + rest, State(words, "", Between));
    ScanMountEnd(rest, words, parent);
  }

  lemma ScanMountEnd(rest: string, words: seq<string>, word: string)
    ensures Scan(":/p " + rest, State(words, word, Bare)) == Scan(rest, State(words + [word + ":/p"], "", Between))
  {
    assert ":/p " + rest == ":/p" + (" " + rest);
    ScanConcat(":/p", " " + rest, State(words, word, Bare));
    ScanSafe(":/p", words, word, Bare);
    ScanConcat(" ", rest, State(words, word + ":/p", Bare));
    ScanOne(' ', State(words, word + ":/p", Bare));
  }

  /** Two plain words, each followed by a space, are two more words. */
  lemma ScanTwo(a: string, b: string, rest: string, words: seq<string>)
    requires AllSafe(a) && a != "" && AllSafe(b) && b != ""
    ensures Scan(a + (" " + (b + (" " + rest))), State(words, "", Between)) ==
            Scan(rest, State(words + [a, b], "", Between))
  {
    assert Quote(a) == a && Quote(b) == b;
    ScanWord(a, b + (" " + rest), words);
    ScanWord(b, rest, words + [a]);
    assert words + [a] + [b] == words + [a, b];
  }

  lemma ScanLast(w: string, words: seq<string>)
    ensures Scan(Quote(w), State(words, "", Between)) == State(words, w, Bare)
  {
    ScanQuoted(w, words, "", Between);
    assert "" + w == w;
  }

  lemma ShCText(rest: string)
    ensures AllSafe("sh") && AllSafe("-c")
    ensures " sh -c " + rest == " " + ("sh" + (" " + ("-c" + (" " + rest))))
  {
    assert " sh -c " == " " + ("sh" + (" " + ("-c" + " ")));
  }

  lemma ScanTail(image: string, inner: string, words: seq<string>)
    ensures Scan(Quote(image) + (" sh -c " + Quote(inner)), State(words, "", Between)) ==
            State(words + [image] + ["sh", "-c"], inner, Bare)
  {
    ShCText(Quote(inner));
    ScanWord(image, "sh" + (" " + ("-c" + (" " + Quote(inner)))), words);
    ScanTwo("sh", "-c", Quote(inner), words + [image]);
    ScanLast(inner, words + [image] + ["sh", "-c"]);
  }

  lemma ScanDockerRun(prefix: seq<string>, image: string, parent: string, inner: string)
    requires forall i :: 0 <= i < |prefix| ==> AllSafe(prefix[i]) && prefix[i] != ""
    ensures Scan(DockerRun(prefix, image, parent, inner), State([], "", Between)) ==
            State(prefix + [parent + ":/p"] + [image] + ["sh", "-c"], inner, Bare)
  {
    var tail := Quote(image) + (" sh -c " + Quote(inner));
    ScanSpaced(prefix, Quote(parent) + (":/p " + tail), []);
    assert [] + prefix == prefix;
    ScanMount(parent, tail, prefix);
    ScanTail(image, inner, prefix + [parent + ":/p"]);
  }

  lemma DockerRunSplits(prefix: seq<string>, image: string, parent: string, inner: string)
    requires forall i :: 0 <= i < |prefix| ==> AllSafe(prefix[i]) && prefix[i] != ""
    ensures Split(DockerRun(prefix, image, parent, inner)) ==
            Some(prefix + [parent + ":/p", image, "sh", "-c", inner])
  {
    ScanDockerRun(prefix, image, parent, inner);
    FiveMore(prefix, parent + ":/p", image, ["sh", "-c"], inner);
  }

  lemma FiveMore(prefix: seq<string>, a: string, b: string, cd: seq<string>, e: string)
    requires |cd| == 2
    ensures prefix + [a] + [b] + cd + [e] == prefix + [a, b, cd[0], cd[1], e]
  {}

  lemma HardeningIsSafe(i: nat)
    requires i < |HARDENING|
    ensures AllSafe(HARDENING[i]) && HARDENING[i] != ""
  {}

  /**
   The command line of the helper container splits into the fixed hardening words, the mount of exactly
   `parent`, exactly the image and, as one argument of `sh -c`, exactly the script.
  */
  lemma {:induction false} HardenedDockerRunSplits(image: string, parent: string, inner: string)
    ensures Split(HardenedDockerRun(image, parent, inner)) ==
            Some(HARDENING + [parent + ":/p", image, "sh", "-c", inner])
  {
    forall i | 0 <= i < |HARDENING|
      ensures AllSafe(HARDENING[i]) && HARDENING[i] != ""
    {
      HardeningIsSafe(i);
    }
    DockerRunSplits(HARDENING, image, parent, inner);
  }
}
