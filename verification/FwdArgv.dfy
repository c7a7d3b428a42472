/** The target argv of `fwd` on both sides, and the address check in front of the dispatcher's. */
module FwdArgv {
  import opened Options
  import opened Text
  import opened Paths
  import opened Wire
  import opened FwdWire

  function FwdTargetOf(r: FwdRequest): seq<string> {
    ["/usr/bin/docker", "exec", "-i", r.project + "-admin-1", "/fwd", r.ip + ":" + "9999"]
  }

  ghost function PyFwdTarget(wire: seq<string>): Option<seq<string>> {
    match FwdMeaning(wire)
    case None => None
    case Some(r) => Some(FwdTargetOf(r))
  }

  /** The container is the project's admin container, and the address comes with its port. */
  lemma {:induction false} FwdReachesAdmin(wire: seq<string>, r: FwdRequest)
    requires FwdMeaning(wire) == Some(r)
    ensures PyFwdTarget(wire).Some?
    ensures var argv := PyFwdTarget(wire).value;
            && |argv| == 6 && argv[..3] == ["/usr/bin/docker", "exec", "-i"] && argv[4] == "/fwd"
            && argv[3] == r.project + "-admin-1"
            && argv[5] == r.ip + ":9999"
  {
    assert ":" + "9999" == ":9999";
    assert r.ip + (":" + "9999") == r.ip + ":" + "9999";
  }

  method BuildFwd(wire: seq<string>) returns (r: Option<seq<string>>)
    ensures r == PyFwdTarget(wire)
  {
    var parsed := ParseFwdWire(wire);
    if parsed.None? {
      return None;
    }
    var project, ip := parsed.value.project, parsed.value.ip;
    r := Some(["/usr/bin/docker", "exec", "-i", project + "-admin-1", "/fwd", ip + ":" + "9999"]);
  }

  // ----- Dotted quads -----

  function Dotted(a: nat, b: nat, c: nat, d: nat): string {
    JoinOn([Dec(a), Dec(b), Dec(c), Dec(d)], '.')
  }

  /** Inside 10.100.0.0 to 10.255.255.255, each octet in plain decimal. */
  ghost predicate InSuperblock(ip: string) {
    exists b, c, d :: 100 <= b <= 255 && 0 <= c <= 255 && 0 <= d <= 255 && ip == Dotted(10, b, c, d)
  }

  /** Digits without a leading zero are what printing their value gives. */
  lemma {:induction false} DecOfValue(s: string)
    requires s != "" && All(s, Digit) && (|s| > 1 ==> s[0] != '0')
    ensures Dec(DecValue(s)) == s
  {
    var n := |s| - 1;
    assert Digit.Has(s[n]);
    if n == 0 {
      assert s[..0] == "";
      assert s == [s[0]];
    } else {
      DecOfValue(s[..n]);
      assert s == s[..n] + [s[n]];
    }
  }

  lemma NoDots(n: nat)
    ensures '.' !in Dec(n)
  {
    forall i | 0 <= i < |Dec(n)|
      ensures Dec(n)[i] != '.'
    {
      assert Digit.Has(Dec(n)[i]);
    }
  }

  lemma DottedSplits(a: nat, b: nat, c: nat, d: nat)
    ensures SplitOn(Dotted(a, b, c, d), '.') == [Dec(a), Dec(b), Dec(c), Dec(d)]
  {
    NoDots(a);
    NoDots(b);
    NoDots(c);
    NoDots(d);
    JoinThenSplit([Dec(a), Dec(b), Dec(c), Dec(d)], '.');
  }

  predicate IsOctet(o: string, n: nat) { n <= 255 && o == Dec(n) }

  lemma OctetShape(o: string, n: nat)
    requires IsOctet(o, n)
    ensures o != "" && |o| <= 3 && (|o| > 1 ==> o[0] != '0')
    ensures All(o, Digit) && DecValue(o) == n
  {
    DecRoundTrip(n);
    if n >= 10 {
      assert |Dec(n / 10)| <= 2 by {
        if n >= 100 {
          assert |Dec(n / 100)| == 1;
        }
      }
    }
  }

  method ReadDigits(o: string) returns (r: Option<nat>)
    ensures r.Some? <==> All(o, Digit)
    ensures r.Some? ==> r.value == DecValue(o)
  {
    var n: nat := 0;
    for i := 0 to |o|
      invariant All(o[..i], Digit) && n == DecValue(o[..i])
    {
      var c := o[i];
      if c < '0' || c > '9' {
        assert !Digit.Has(o[i]);
        return None;
      }
      assert o[..i + 1][..i] == o[..i];
      n := n * 10 + (c as int - '0' as int);
    }
    assert o[..|o|] == o;
    r := Some(n);
  }

  /** One to three digits, no leading zero, at most 255. */
  method ParseOctet(o: string) returns (r: Option<nat>)
    ensures r.Some? ==> IsOctet(o, r.value)
    ensures r.None? ==> forall n :: !IsOctet(o, n)
  {
    forall n | IsOctet(o, n)
      ensures o != "" && |o| <= 3 && (|o| > 1 ==> o[0] != '0') && All(o, Digit) && DecValue(o) <= 255
    {
      OctetShape(o, n);
    }
    if o == "" || |o| > 3 {
      return None;
    }
    if |o| > 1 && o[0] == '0' {
      return None;
    }
    var n := ReadDigits(o);
    if n.None? {
      return None;
    }
    DecOfValue(o);
    if n.value > 255 {
      return None;
    }
    r := n;
  }

  method ParseOctets(octets: seq<string>) returns (r: Option<seq<nat>>)
    ensures r.Some? ==> |r.value| == |octets| && forall i :: 0 <= i < |octets| ==> IsOctet(octets[i], r.value[i])
    ensures r.None? ==> exists i :: 0 <= i < |octets| && forall n :: !IsOctet(octets[i], n)
  {
    var vals: seq<nat> := [];
    for i := 0 to |octets|
      invariant |vals| == i && forall j :: 0 <= j < i ==> IsOctet(octets[j], vals[j])
    {
      var n := ParseOctet(octets[i]);
      if n.None? {
        return None;
      }
      vals := vals + [n.value];
    }
    r := Some(vals);
  }

  lemma DottedOctets(ip: string, b: nat, c: nat, d: nat)
    requires 100 <= b <= 255 && c <= 255 && d <= 255 && ip == Dotted(10, b, c, d)
    ensures var o := SplitOn(ip, '.');
            |o| == 4 && IsOctet(o[0], 10) && IsOctet(o[1], b) && IsOctet(o[2], c) && IsOctet(o[3], d)
  {
    DottedSplits(10, b, c, d);
  }

  lemma OctetsDotted(ip: string, vals: seq<nat>)
    requires |SplitOn(ip, '.')| == 4 == |vals| && forall i :: 0 <= i < 4 ==> IsOctet(SplitOn(ip, '.')[i], vals[i])
    ensures ip == Dotted(vals[0], vals[1], vals[2], vals[3])
  {
    SplitThenJoin(ip, '.');
    assert SplitOn(ip, '.') == [Dec(vals[0]), Dec(vals[1]), Dec(vals[2]), Dec(vals[3])];
  }

  lemma OctetUnique(o: string, m: nat, n: nat)
    requires IsOctet(o, m) && IsOctet(o, n)
    ensures m == n
  {
    DecInjective(m, n);
  }

  /** The dispatcher's check accepts exactly the plainly printed addresses of the superblock. */
  method ValidateFwdIP(ip: string) returns (ok: bool)
    ensures ok <==> InSuperblock(ip)
  {
    var octets := SplitOn(ip, '.');
    forall b: nat, c: nat, d: nat | 100 <= b <= 255 && c <= 255 && d <= 255 && ip == Dotted(10, b, c, d)
      ensures |octets| == 4 && IsOctet(octets[0], 10) && IsOctet(octets[1], b)
      ensures |octets| == 4 && IsOctet(octets[2], c) && IsOctet(octets[3], d)
    {
      DottedOctets(ip, b, c, d);
    }
    if |octets| != 4 {
      return false;
    }
    var vals := ParseOctets(octets);
    if vals.None? {
      return false;
    }
    OctetsDotted(ip, vals.value);
    forall n | IsOctet(octets[0], n)
      ensures n == vals.value[0]
    {
      OctetUnique(octets[0], n, vals.value[0]);
    }
    forall n | IsOctet(octets[1], n)
      ensures n == vals.value[1]
    {
      OctetUnique(octets[1], n, vals.value[1]);
    }
    if vals.value[0] != 10 {
      return false;
    }
    if vals.value[1] < 100 || vals.value[1] > 255 {
      return false;
    }
    assert ip == Dotted(10, vals.value[1], vals.value[2], vals.value[3]);
    return true;
  }

  /** The dispatcher's further demands. */
  ghost predicate GoAcceptsFwd(r: FwdRequest, inst: string) {
    ProjectFits(r.project, inst) && InSuperblock(r.ip)
  }

  /** The dispatcher's builder accepts exactly the operator's wires that meet its demands, with the same argv. */
  method GoBuildFwdArgv(wire: seq<string>) returns (ok: bool, argv: seq<string>, inst: string)
    ensures ok <==> PyFwdTarget(wire).Some? && GoAcceptsFwd(FwdMeaning(wire).value, wire[0])
    ensures ok ==> PyFwdTarget(wire) == Some(argv) && inst == wire[0]
  {
    argv, inst := [], "";
    if |wire| == 0 {
      return false, argv, inst;
    }
    inst := wire[0];
    var parsed := GoParseFwdWire(wire);
    if parsed.None? {
      return false, argv, inst;
    }
    var project, ip := parsed.value.project, parsed.value.ip;
    if !ProjectFits(project, inst) {
      return false, argv, inst;
    }
    var ipOk := ValidateFwdIP(ip);
    if !ipOk {
      return false, argv, inst;
    }
    ok, argv := true, ["/usr/bin/docker", "exec", "-i", project + "-admin-1", "/fwd", ip + ":" + "9999"];
  }
}
