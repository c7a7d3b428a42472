/** The character classes and names of the project, spelled out character by character. */
module Grammars {
  import opened Options
  import opened Text
  import opened Paths
  import opened Wire
  import opened FwdWire
  import opened ComposeArgv
  import opened FwdArgv
  import opened OperatorWire

  const LOWER := "abcdefghijklmnopqrstuvwxyz"
  const UPPER := "ABCDEFGHIJKLMNOPQRSTUVWXYZ"
  const DIGITS := "0123456789"

  // ----- Characters -----

  lemma LowerIff(c: char)
    ensures 'a' <= c <= 'z' <==> c in LOWER
  {
    if 'a' <= c <= 'z' {
      assert LOWER[c as int - 97] == c;
    }
  }

  lemma UpperIff(c: char)
    ensures 'A' <= c <= 'Z' <==> c in UPPER
  {
    if 'A' <= c <= 'Z' {
      assert UPPER[c as int - 65] == c;
    }
  }

  lemma DigitIff(c: char)
    ensures '0' <= c <= '9' <==> c in DIGITS
  {
    if '0' <= c <= '9' {
      assert DIGITS[c as int - 48] == c;
    }
  }

  lemma HexIff(c: char)
    ensures 'a' <= c <= 'f' <==> c in "abcdef"
  {
    if 'a' <= c <= 'f' {
      assert "abcdef"[c as int - 97] == c;
    }
  }

  /** `[0-9]`, `[0-9a-f]`, `[a-zA-Z]`, `[0-9;]`. */
  lemma {:induction false} ClassesAre(c: char)
    ensures IsDigit(c) <==> c in DIGITS
    ensures IsHex(c) <==> c in DIGITS || c in "abcdef"
    ensures IsLetter(c) <==> c in LOWER || c in UPPER
    ensures IsParam(c) <==> c in DIGITS || c == ';'
  {
    LowerIff(c);
    UpperIff(c);
    DigitIff(c);
    HexIff(c);
  }

  /** What `\s` and `strip` take for white space. */
  lemma SpacesAre(c: char)
    ensures IsSpace(c) <==>
            c as int in {9, 10, 11, 12, 13, 28, 29, 30, 31, 32, 0x85, 0xA0, 0x1680, 0x2000, 0x2001, 0x2002, 0x2003,
                         0x2004, 0x2005, 0x2006, 0x2007, 0x2008, 0x2009, 0x200A, 0x2028, 0x2029, 0x202F, 0x205F, 0x3000}
  {}

  // ----- Names -----

  predicate InName(c: char) { c in LOWER || c in DIGITS }

  lemma NameCharIff(c: char)
    ensures IsProjectStart(c) <==> InName(c)
    ensures IsProjectChar(c) <==> InName(c) || c in "_-"
  {
    LowerIff(c);
    DigitIff(c);
  }

  /** `[a-z0-9][a-z0-9_-]*`, which an instance's name also follows, up to thirty characters, unless it is reserved. */
  lemma {:induction false} NamesAre(s: string)
    ensures IsProjectName(s) <==>
            s != "" && InName(s[0]) && forall i :: 0 <= i < |s| ==> InName(s[i]) || s[i] in "_-"
    ensures IsInstanceName(s) <==>
            IsProjectName(s) && |s| <= 30 &&
            s !in {"_backups", "default", "all", "none", "system", "isolated", "core_proxy", "dns", "egress", "ipc"}
  {
    forall c
      ensures IsProjectStart(c) <==> InName(c)
      ensures IsProjectChar(c) <==> InName(c) || c in "_-"
    {
      NameCharIff(c);
    }
  }

  /** A component of a confined path. */
  lemma {:induction false} ComponentsAre(c: string)
    ensures IsCleanComponent(c) <==>
            c !in {"", ".", ".."} && forall x :: x in c ==> x !in {'/', '\n'} && x as int != 0
  {
    forall i | 0 <= i < |c|
      ensures c[i] in c
    {}
  }

  lemma {:induction false} SuffixIff(s: string, suffix: string)
    ensures HasSuffix(s, suffix) <==> exists front :: s == front + suffix
  {
    if HasSuffix(s, suffix) {
      assert s == s[..|s| - |suffix|] + suffix;
    }
  }

  /** The dispatcher reads what the operator's side does, if the project is a name that ends in the instance. */
  lemma {:induction false} GoReadingIff(op: ComposeOp, wire: seq<string>, cw: ComposeWire)
    ensures GoComposeMeaning(op, wire) == Some(cw) <==>
            wire != [] && ComposeMeaning(op, wire) == Some(cw) && IsProjectName(cw.project) &&
            exists front :: cw.project == front + ("-" + wire[0])
  {
    if wire != [] {
      SuffixIff(cw.project, "-" + wire[0]);
    }
  }

  /** What else the dispatcher demands of a compose wire: the name and its end, and every path confined. */
  lemma {:induction false} GoAcceptsIff(cw: ComposeWire, inst: string)
    ensures GoAccepts(cw, inst) <==>
            IsProjectName(cw.project) && (exists front :: cw.project == front + ("-" + inst)) &&
            forall path :: path in cw.files + [cw.envFile] ==> Confined(path, inst)
  {
    SuffixIff(cw.project, "-" + inst);
    if GoAccepts(cw, inst) {
      forall path | path in cw.files + [cw.envFile]
        ensures Confined(path, inst)
      {}
    } else if forall path :: path in cw.files + [cw.envFile] ==> Confined(path, inst) {
      assert cw.envFile in cw.files + [cw.envFile];
      forall i | 0 <= i < |cw.files|
        ensures Confined(cw.files[i], inst)
      {
        assert cw.files[i] in cw.files + [cw.envFile];
      }
    }
  }

  /** And of a fwd wire: the same of the project, and an address whose four parts are plain octets from 10.100 on. */
  lemma {:induction false} GoAcceptsFwdIff(r: FwdRequest, inst: string)
    ensures GoAcceptsFwd(r, inst) <==>
            IsProjectName(r.project) && (exists front :: r.project == front + ("-" + inst)) &&
            exists b, c, d :: QuadIs(SplitOn(r.ip, '.'), b, c, d)
  {
    SuffixIff(r.project, "-" + inst);
    SuperblockIff(r.ip);
  }

  predicate QuadIs(parts: seq<string>, b: nat, c: nat, d: nat) {
    100 <= b < 256 && c < 256 && d < 256 && parts == ["10", Dec(b), Dec(c), Dec(d)]
  }

  lemma SuperblockIff(ip: string)
    ensures InSuperblock(ip) <==> exists b, c, d :: QuadIs(SplitOn(ip, '.'), b, c, d)
  {
    TenIs();
    if InSuperblock(ip) {
      var b, c, d :| 100 <= b <= 255 && 0 <= c <= 255 && 0 <= d <= 255 && ip == Dotted(10, b, c, d);
      DottedIff(ip, b, c, d);
      assert QuadIs(SplitOn(ip, '.'), b, c, d);
    }
    forall b, c, d | QuadIs(SplitOn(ip, '.'), b, c, d)
      ensures InSuperblock(ip)
    {
      DottedIff(ip, b, c, d);
    }
  }

  lemma TenIs()
    ensures Dec(10) == "10"
  {
    assert Dec(1) == "1" && Dec(0) == "0";
  }

  lemma DottedIff(ip: string, b: nat, c: nat, d: nat)
    ensures ip == Dotted(10, b, c, d) <==> SplitOn(ip, '.') == [Dec(10), Dec(b), Dec(c), Dec(d)]
  {
    var parts := [Dec(10), Dec(b), Dec(c), Dec(d)];
    forall i | 0 <= i < |parts|
      ensures '.' !in parts[i]
    {
      NoDot(parts[i]);
    }
    JoinThenSplit(parts, '.');
    SplitThenJoin(ip, '.');
  }

  lemma NoDot(s: string)
    requires All(s, Digit)
    ensures '.' !in s
  {
    forall i | 0 <= i < |s|
      ensures s[i] != '.'
    {
      assert Digit.Has(s[i]);
    }
  }

  /** Each character of a user name, sanitised. */
  lemma {:induction false} DashedAt(username: string, i: nat)
    requires i < |username|
    ensures var c, d := username[i], Dashed(username)[i];
            if c in LOWER || c in DIGITS then d == c
            else if c in UPPER then exists k :: 0 <= k < 26 && c == UPPER[k] && d == LOWER[k]
            else d == '-'
  {
    var c := username[i];
    LowerIff(c);
    UpperIff(c);
    DigitIff(c);
    if c in UPPER {
      LoweredAt(c as int - 65);
    }
  }

  lemma LoweredAt(k: nat)
    requires k < 26
    ensures UPPER[k] == (65 + k) as char && LOWER[k] == (97 + k) as char
    ensures ToLower(UPPER[k]) == LOWER[k]
  {
    UpperAt(k);
    LowerAt(k);
  }

  lemma UpperAt(k: nat)
    requires k < 26
    ensures UPPER[k] == (65 + k) as char
  {}

  lemma LowerAt(k: nat)
    requires k < 26
    ensures LOWER[k] == (97 + k) as char
  {}
}
