/** The helper operations: both builders, and the octal mode that one of them reformats. */
module HelperArgv {
  import opened Options
  import opened Text
  import opened Shell
  import opened ComposeArgv
  import opened Paths

  // ----- Octal -----

  predicate IsOctal(s: string) { s != "" && forall i :: 0 <= i < |s| ==> '0' <= s[i] <= '7' }

  function OctValue(s: string): nat
    requires s == "" || IsOctal(s)
  {
    if s == "" then 0 else 8 * OctValue(s[..|s| - 1]) + (s[|s| - 1] as int - '0' as int)
  }

  /** `format(n, "o")` */
  function Oct(n: nat): (s: string)
    ensures IsOctal(s) && (s[0] == '0' <==> n == 0) && (n == 0 ==> s == "0")
  {
    if n < 8 then [(48 + n) as char] else Oct(n / 8) + [(48 + n % 8) as char]
  }

  function Zeros(k: nat): (s: string)
    ensures |s| == k && forall i :: 0 <= i < k ==> s[i] == '0'
  {
    if k == 0 then "" else Zeros(k - 1) + "0"
  }

  /** `format(n, "04o")` */
  function Format04o(n: nat): string {
    Zeros(if |Oct(n)| < 4 then 4 - |Oct(n)| else 0) + Oct(n)
  }

  /** The text without its leading zeros, but never empty. */
  function Canonical(s: string): string
    requires s != ""
  {
    if |s| > 1 && s[0] == '0' then Canonical(s[1..]) else s
  }

  lemma {:induction false} OctOfValue(s: string)
    requires IsOctal(s) && (|s| == 1 || s[0] != '0')
    ensures Oct(OctValue(s)) == s
  {
    var n := |s| - 1;
    if n == 0 {
      OneDigit(s);
    } else {
      OctOfValue(s[..n]);
      assert s == s[..n] + [s[n]];
    }
  }

  lemma OneDigit(s: string)
    requires IsOctal(s) && |s| == 1
    ensures Oct(OctValue(s)) == s
  {
    assert s[..0] == "";
    assert OctValue(s) == s[0] as int - '0' as int;
  }

  lemma {:induction false} LeadingZero(s: string)
    requires IsOctal(s) && |s| > 1 && s[0] == '0'
    ensures OctValue(s) == OctValue(s[1..])
  {
    var n := |s| - 1;
    assert s[1..][..|s[1..]| - 1] == s[..n][1..];
    if n > 1 {
      LeadingZero(s[..n]);
    } else {
      assert s[..1] == "0" && s[..1][..0] == "";
    }
  }

  /** Formatting the value of an octal text strips its leading zeros and pads back to four digits. */
  lemma {:induction false} OctIsCanonical(s: string)
    requires IsOctal(s)
    ensures Oct(OctValue(s)) == Canonical(s)
  {
    if |s| > 1 && s[0] == '0' {
      LeadingZero(s);
      OctIsCanonical(s[1..]);
    } else {
      OctOfValue(s);
    }
  }

  lemma {:induction false} CanonicalPadded(s: string)
    requires IsOctal(s)
    ensures 1 <= |Canonical(s)| <= |s| && Zeros(|s| - |Canonical(s)|) + Canonical(s) == s
  {
    if |s| > 1 && s[0] == '0' {
      CanonicalPadded(s[1..]);
      var k := |s| - 1 - |Canonical(s)|;
      assert Zeros(k + 1) == "0" + Zeros(k);
      assert s == "0" + s[1..];
    } else {
      assert Zeros(0) + s == s;
    }
  }

  /** Reformatting is the identity exactly on four digits, or on more of them without a leading zero. */
  lemma {:induction false} ReformatIsIdentityIff(mode: string)
    requires IsOctal(mode)
    ensures Format04o(OctValue(mode)) == mode <==> |mode| == 4 || (|mode| > 4 && mode[0] != '0')
  {
    OctIsCanonical(mode);
    FormatOfText(OctValue(mode), Canonical(mode));
    CanonicalLength(mode);
    if |mode| == 4 {
      CanonicalPadded(mode);
    }
  }

  lemma CanonicalLength(s: string)
    requires IsOctal(s)
    ensures 1 <= |Canonical(s)| <= |s|
    ensures |s| > 1 ==> (|Canonical(s)| == |s| <==> s[0] != '0')
    ensures |s| > 1 && s[0] != '0' ==> Canonical(s) == s
  {
    CanonicalPadded(s);
    if |s| > 1 && s[0] == '0' {
      CanonicalPadded(s[1..]);
    }
  }

  lemma FormatOfText(n: nat, c: string)
    requires c == Oct(n)
    ensures |c| <= 4 ==> Format04o(n) == Zeros(4 - |c|) + c && |Format04o(n)| == 4
    ensures |c| > 4 ==> Format04o(n) == c
  {
    assert Zeros(0) + c == c;
  }

  // ----- The two builders -----

  /** `^[0-7]{4}$` */
  predicate IsMode(s: string) { IsOctal(s) && |s| == 4 }

  predicate NoTraversal(parent: string) {
    && parent != "" && parent[0] == '/'
    && ".." !in SplitOn(parent, '/') && 0 as char !in parent && '\n' !in parent
  }

  predicate NoMetachars(name: string) { '/' !in name && name != ".." && 0 as char !in name && '\n' !in name }

  /** `_validate_helper_chown_files` */
  predicate ValidChown(args: seq<string>) {
    && |args| >= 5
    && NoTraversal(args[0]) && IsMode(args[1])
    && args[2] != "" && All(args[2], Digit) && args[3] != "" && All(args[3], Digit)
    && forall i :: 4 <= i < |args| ==> NoMetachars(args[i])
  }

  const LOOP_HEAD := "set -e; for f in "

  function LoopBody(mode: string, uid: string, gid: string): string {
    " do cp /p/\"$f\" /tmp/\"$f\" " +
    ("&& unlink /p/\"$f\" " +
     ("&& cp /tmp/\"$f\" /p/\"$f\" " +
      ("&& chmod " + mode + " /p/\"$f\" " +
       ("&& chown " + uid + ":" + gid + " /p/\"$f\"; done"))))
  }

  function ChownScript(names: string, mode: string, uid: string, gid: string): string {
    LOOP_HEAD + (names + (";" + LoopBody(mode, uid, gid)))
  }

  /** The operator's builder: reads the mode as octal and prints it back. */
  function PyChownArgv(image: string, args: seq<string>): seq<string>
    requires |args| >= 5 && IsOctal(args[1])
  {
    ChownArgv(image, args[0], JoinQuoted(args[4..]), Format04o(OctValue(args[1])), args[2], args[3])
  }

  function ChownArgv(
    image: string, parent: string, names: string, mode: string, uid: string, gid: string): seq<string>
  {
    BashC(HardenedDockerRun(image, parent, ChownScript(names, mode, uid, gid)))
  }

  /** The dispatcher's builder: takes the mode as it is, and quotes the names one by one. */
  method GoBuildHelperChownFiles(image: string, args: seq<string>) returns (r: Option<seq<string>>)
    ensures r.Some? <==> |args| >= 5
    ensures ValidChown(args) ==> r == Some(PyChownArgv(image, args))
    ensures r.Some? && IsOctal(args[1]) && (|args[1]| == 4 || (|args[1]| > 4 && args[1][0] != '0')) ==>
              r == Some(PyChownArgv(image, args))
  {
    if |args| < 5 {
      return None;
    }
    var parent, mode, uid, gid := args[0], args[1], args[2], args[3];
    var files := args[4..];
    var quoted := QuoteEach(files);
    if IsOctal(mode) {
      ReformatIsIdentityIff(mode);
    }
    r := Some(ChownArgv(image, parent, JoinWithSpace(quoted), mode, uid, gid));
  }

  method QuoteEach(files: seq<string>) returns (quoted: seq<string>)
    ensures JoinWithSpace(quoted) == JoinQuoted(files)
  {
    quoted := [];
    for i := 0 to |files|
      invariant |quoted| == i && forall j :: 0 <= j < i ==> quoted[j] == Quote(files[j])
    {
      quoted := quoted + [Quote(files[i])];
    }
    QuotedOneByOne(files, quoted);
  }

  lemma {:induction false} QuotedOneByOne(files: seq<string>, quoted: seq<string>)
    requires |quoted| == |files| && forall j :: 0 <= j < |files| ==> quoted[j] == Quote(files[j])
    ensures JoinWithSpace(quoted) == JoinQuoted(files)
  {
    if |files| > 1 {
      QuotedOneByOne(files[1..], quoted[1..]);
    }
  }

  // ----- What the loop runs over -----

  /** The words in front of the first unquoted semicolon, if nothing else interrupts them. */
  function WordsToSemicolon(s: string, st: State): Option<seq<string>> {
    if s == "" then None
    else if s[0] == ';' && st.quoting.Between? then Some(st.words)
    else if s[0] == ';' && st.quoting.Bare? then Some(st.words + [st.word])
    else WordsToSemicolon(s[1..], Step(st, s[0]))
  }

  lemma {:induction false} RejectedStays(s: string, st: State)
    requires st.quoting.Rejected?
    ensures Scan(s, st) == st
  {
    if s != "" {
      RejectedStays(s[1..], st);
    }
  }

  /** A text that scans to the end holds no unquoted semicolon. */
  lemma {:induction false} SemicolonIsBehind(a: string, b: string, st: State)
    requires !Scan(a, st).quoting.Rejected?
    ensures WordsToSemicolon(a + b, st) == WordsToSemicolon(b, Scan(a, st))
  {
    if a == "" {
      assert a + b == b;
    } else {
      assert (a + b)[1..] == a[1..] + b;
      if Step(st, a[0]).quoting.Rejected? {
        RejectedStays(a[1..], Step(st, a[0]));
      }
      SemicolonIsBehind(a[1..], b, Step(st, a[0]));
    }
  }

  /** The operand list of a shell's `for` loop, when `list` follows its `in`. */
  function ForOperands(list: string): Option<seq<string>> { WordsToSemicolon(list, State([], "", Between)) }

  lemma JoinedOperands(names: seq<string>, rest: string)
    requires names != []
    ensures ForOperands(JoinQuoted(names) + (";" + rest)) == Some(names)
  {
    ScanJoined(names, []);
    SemicolonIsBehind(JoinQuoted(names), ";" + rest, State([], "", Between));
    SemicolonEnds(rest, [] + names[..|names| - 1], names[|names| - 1]);
    AllButLast(names);
  }

  lemma SemicolonEnds(rest: string, words: seq<string>, word: string)
    ensures WordsToSemicolon(";" + rest, State(words, word, Bare)) == Some(words + [word])
  {}

  /** The script's `for f in` is followed by exactly these names. */
  ghost predicate LoopsOver(script: string, names: seq<string>) {
    && |LOOP_HEAD| <= |script| && script[..|LOOP_HEAD|] == LOOP_HEAD
    && ForOperands(script[|LOOP_HEAD|..]) == Some(names)
  }

  lemma ListIsLooped(names: seq<string>, list: string)
    requires ForOperands(list) == Some(names)
    ensures LoopsOver(LOOP_HEAD + list, names)
  {
    assert (LOOP_HEAD + list)[..|LOOP_HEAD|] == LOOP_HEAD && (LOOP_HEAD + list)[|LOOP_HEAD|..] == list;
  }

  /** The loop of the script runs over exactly the file names that were given, whatever they hold. */
  lemma {:induction false} ChownLoopsOverFiles(args: seq<string>, mode: string)
    requires |args| >= 5
    ensures LoopsOver(ChownScript(JoinQuoted(args[4..]), mode, args[2], args[3]), args[4..])
  {
    JoinedOperands(args[4..], LoopBody(mode, args[2], args[3]));
    ListIsLooped(args[4..], JoinQuoted(args[4..]) + (";" + LoopBody(mode, args[2], args[3])));
  }

  const IN_PARENT := "/p/\"$f\""
  const IN_TMP := "/tmp/\"$f\""

  /** The commands of the loop, each with its operands. */
  function LoopWords(mode: string, uid: string, gid: string): seq<string> {
    ["", "do", "cp", IN_PARENT, IN_TMP] +
    (["&&", "unlink", IN_PARENT] +
     (["&&", "cp", IN_TMP, IN_PARENT] +
      (["&&", "chmod", mode, IN_PARENT] +
       ["&&", "chown", uid + (":" + gid), IN_PARENT + ";", "done"])))
  }

  lemma {:induction false} JoinOnConcat(a: seq<string>, b: seq<string>, sep: char)
    requires a != [] && b != []
    ensures JoinOn(a + b, sep) == JoinOn(a, sep) + ([sep] + JoinOn(b, sep))
  {
    if |a| == 1 {
      assert (a + b)[1..] == b;
    } else {
      assert (a + b)[1..] == a[1..] + b;
      JoinOnConcat(a[1..], b, sep);
    }
  }

  lemma JoinThree(a: string, b: string, c: string)
    ensures JoinOn([a, b, c], ' ') == a + (" " + (b + (" " + c)))
  {
    assert [a, b, c][1..] == [b, c] && [b, c][1..] == [c];
    assert JoinOn([b, c], ' ') == b + ([' '] + JoinOn([c], ' '));
    assert [' '] == " ";
  }

  lemma JoinFour(a: string, b: string, c: string, d: string)
    ensures JoinOn([a, b, c, d], ' ') == a + (" " + (b + (" " + (c + (" " + d)))))
  {
    assert [a, b, c, d][1..] == [b, c, d];
    JoinThree(b, c, d);
  }

  lemma JoinFive(a: string, b: string, c: string, d: string, e: string)
    ensures JoinOn([a, b, c, d, e], ' ') == a + (" " + (b + (" " + (c + (" " + (d + (" " + e)))))))
  {
    assert [a, b, c, d, e][1..] == [b, c, d, e];
    JoinFour(b, c, d, e);
  }

  lemma CopyOut()
    ensures JoinOn(["", "do", "cp", IN_PARENT, IN_TMP], ' ') + " " == " do cp /p/\"$f\" /tmp/\"$f\" "
  {
    JoinFive("", "do", "cp", IN_PARENT, IN_TMP);
  }

  lemma Unlinks()
    ensures JoinOn(["&&", "unlink", IN_PARENT], ' ') + " " == "&& unlink /p/\"$f\" "
  {
    JoinThree("&&", "unlink", IN_PARENT);
  }

  lemma CopyBack()
    ensures JoinOn(["&&", "cp", IN_TMP, IN_PARENT], ' ') + " " == "&& cp /tmp/\"$f\" /p/\"$f\" "
  {
    JoinFour("&&", "cp", IN_TMP, IN_PARENT);
  }

  lemma Chmods(mode: string)
    ensures JoinOn(["&&", "chmod", mode, IN_PARENT], ' ') + " " == "&& chmod " + mode + " /p/\"$f\" "
  {
    JoinFour("&&", "chmod", mode, IN_PARENT);
    assert "&&" + (" " + ("chmod" + " ")) == "&& chmod ";
    assert " " + IN_PARENT + " " == " /p/\"$f\" ";
    ModeBetween("&&", " ", "chmod", mode, IN_PARENT);
  }

  lemma ModeBetween(a: string, s: string, b: string, m: string, f: string)
    ensures a + (s + (b + (s + (m + (s + f))))) + s == a + (s + (b + s)) + m + (s + f + s)
  {}

  lemma Chowns(uid: string, gid: string)
    ensures JoinOn(["&&", "chown", uid + (":" + gid), IN_PARENT + ";", "done"], ' ') ==
            "&& chown " + uid + ":" + gid + " /p/\"$f\"; done"
  {
    JoinFive("&&", "chown", uid + (":" + gid), IN_PARENT + ";", "done");
    assert "&&" + (" " + ("chown" + " ")) == "&& chown ";
    assert " " + (IN_PARENT + ";" + (" " + "done")) == " /p/\"$f\"; done";
    OwnerBetween("&&", " ", "chown", uid, ":", gid, " " + (IN_PARENT + ";" + (" " + "done")));
  }

  lemma OwnerBetween(a: string, s: string, b: string, u: string, c: string, g: string, rest: string)
    ensures a + (s + (b + (s + (u + (c + g) + rest)))) == a + (s + (b + s)) + u + c + g + rest
  {}

  lemma LoopIsJoined(mode: string, uid: string, gid: string)
    ensures LoopBody(mode, uid, gid) == JoinOn(LoopWords(mode, uid, gid), ' ')
  {
    var a, b := ["", "do", "cp", IN_PARENT, IN_TMP], ["&&", "unlink", IN_PARENT];
    var c, d := ["&&", "cp", IN_TMP, IN_PARENT], ["&&", "chmod", mode, IN_PARENT];
    var e := ["&&", "chown", uid + (":" + gid), IN_PARENT + ";", "done"];
    JoinOnConcat(d, e, ' ');
    JoinOnConcat(c, d + e, ' ');
    JoinOnConcat(b, c + (d + e), ' ');
    JoinOnConcat(a, b + (c + (d + e)), ' ');
    CopyOut();
    Unlinks();
    CopyBack();
    Chmods(mode);
    Chowns(uid, gid);
    Nest(JoinOn(a, ' '), JoinOn(b, ' '), JoinOn(c, ' '), JoinOn(d, ' '), JoinOn(e, ' '));
  }

  lemma Nest(a: string, b: string, c: string, d: string, e: string)
    ensures a + (" " + (b + (" " + (c + (" " + (d + (" " + e))))))) ==
            a + " " + (b + " " + (c + " " + (d + " " + e)))
  {}

  /**
   What each turn of the loop does: a copy out, an unlink, a copy back, then the mode on the copy, and as its owner the
   user and the group in this order.
  */
  lemma {:induction false} LoopCommands(mode: string, uid: string, gid: string)
    requires ' ' !in mode && ' ' !in uid && ' ' !in gid
    ensures SplitOn(LoopBody(mode, uid, gid), ' ') == LoopWords(mode, uid, gid)
  {
    LoopIsJoined(mode, uid, gid);
    JoinThenSplit(LoopWords(mode, uid, gid), ' ');
  }

  /** The container receives exactly the parent, the image and the script, as the outer shell splits them. */
  lemma {:induction false} ChownReachesTheContainer(image: string, args: seq<string>)
    requires |args| >= 5 && IsOctal(args[1])
    ensures var script := ChownScript(JoinQuoted(args[4..]), Format04o(OctValue(args[1])), args[2], args[3]);
            PyChownArgv(image, args) == ["/bin/bash", "-c", PyChownArgv(image, args)[2]] &&
            Split(PyChownArgv(image, args)[2]) == Some(HARDENING + [args[0] + ":/p", image, "sh", "-c", script])
  {
    var script := ChownScript(JoinQuoted(args[4..]), Format04o(OctValue(args[1])), args[2], args[3]);
    HardenedDockerRunSplits(image, args[0], script);
    BashReads(HardenedDockerRun(image, args[0], script));
  }
}
