/** Which subnets and addresses belong to a slot: five /24 networks and thirteen fixed addresses in them. */
module Subnets {
  import opened Options
  import opened Text
  import opened Paths
  import opened FwdArgv

  const MAX_SLOTS: nat := 7987

  function SecondOctet(g: nat): nat { 100 + g / 256 }

  /** `f"10.{100 + g // 256}.{g % 256}.0/24"` */
  function Subnet(g: nat): string {
    "10." + (Dec(SecondOctet(g)) + ("." + (Dec(g % 256) + ".0/24")))
  }

  /** The five subnets of a slot, or nothing for a slot out of range. */
  function DeriveSubnets(slot: nat): Option<seq<string>> {
    if slot >= MAX_SLOTS then None
    else Some(seq(5, i requires 0 <= i < 5 => Subnet(slot * 5 + i)))
  }

  /** The position of the last `w` that starts at or before `p`. */
  function FindLast(s: string, w: string, p: nat): Option<nat> {
    if OccursAt(s, p, w) then Some(p) else if p == 0 then None else FindLast(s, w, p - 1)
  }

  /** `s.rsplit(w, 1)[0]` */
  function RSplitHead(s: string, w: string): string {
    match FindLast(s, w, |s|)
    case None => s
    case Some(p) => s[..if p <= |s| then p else |s|]
  }

  const NET_SUFFIX := ".0/24"

  /** An address name, the index of its network among the five, and its last octet. */
  datatype Host = Host(name: string, net: nat, octet: nat)

  const HOSTS: seq<Host> := [
    Host("agent_isolated_ip", 0, 3), Host("agent_proxy_ip", 1, 3), Host("core_ipc_ip", 4, 3),
    Host("proxy_core_ip", 1, 254), Host("dnsdist_isolated_ip", 0, 56), Host("dnsdist_dns_ip", 2, 56),
    Host("coredns_dns_ip", 2, 53), Host("coredns_egress_ip", 3, 53), Host("admin_ipc_ip", 4, 2),
    Host("db_postgres_ip", 0, 54), Host("mcp_firecrawl_proxy_ip", 1, 55), Host("firecrawl_dns_ip", 2, 55),
    Host("firecrawl_isolated_ip", 0, 55)]

  /** The address of host `k` of a slot: its subnet's text up to the suffix, and its octet. */
  function StaticIp(slot: nat, k: nat): string
    requires slot < MAX_SLOTS && k < |HOSTS| && HOSTS[k].net < 5
  {
    RSplitHead(DeriveSubnets(slot).value[HOSTS[k].net], NET_SUFFIX) + ("." + Dec(HOSTS[k].octet))
  }

  // ----- The arithmetic -----

  /** All five second octets are in range exactly for the slots below the limit: the limit is tight. */
  lemma {:induction false} MaxSlotsIsTight(slot: nat)
    ensures (forall i: nat :: i < 5 ==> OctetOf(slot, i) <= 255) <==> slot < MAX_SLOTS
  {
    if slot >= MAX_SLOTS {
      assert OctetOf(slot, 4) >= 256;
    }
  }

  /** The second octet of subnet `i` of a slot. */
  function OctetOf(slot: nat, i: nat): nat { SecondOctet(slot * 5 + i) }

  /** The address with the given last octet in network `i` of a slot. */
  function Quad(slot: nat, i: nat, octet: nat): string {
    Dotted(10, OctetOf(slot, i), (slot * 5 + i) % 256, octet)
  }

  lemma SplitOfG(g: nat, h: nat)
    requires g / 256 == h / 256 && g % 256 == h % 256
    ensures g == h
  {}

  lemma SlotOfG(s: nat, i: nat, t: nat, j: nat)
    requires i < 5 && j < 5 && s * 5 + i == t * 5 + j
    ensures s == t && i == j
  {}

  // ----- The texts -----

  lemma DottedIs(a: nat, b: nat, c: nat, d: nat)
    ensures Dotted(a, b, c, d) == Dec(a) + ("." + (Dec(b) + ("." + (Dec(c) + ("." + Dec(d))))))
  {
    JoinFour(Dec(a), Dec(b), Dec(c), Dec(d));
  }

  lemma JoinFour(a: string, b: string, c: string, d: string)
    ensures JoinOn([a, b, c, d], '.') == a + ("." + (b + ("." + (c + ("." + d)))))
  {
    assert [a, b, c, d][1..] == [b, c, d];
    assert [b, c, d][1..] == [c, d];
    assert [c, d][1..] == [d];
    assert JoinOn([c, d], '.') == c + ("." + d);
    assert JoinOn([b, c, d], '.') == b + ("." + JoinOn([c, d], '.'));
  }

  lemma Dec10()
    ensures Dec(10) == "10" && Dec(0) == "0"
  {
    assert Dec(1) == "1";
  }

  /** A subnet's text is the quad of its first address, and the prefix length. */
  lemma SubnetIsQuad(g: nat)
    ensures Subnet(g) == Dotted(10, SecondOctet(g), g % 256, 0) + "/24"
  {
    var b, c := Dec(SecondOctet(g)), Dec(g % 256);
    Dec10();
    DottedIs(10, SecondOctet(g), g % 256, 0);
    assert Subnet(g) == "10." + (b + ("." + (c + ".0/24")));
    QuadText(b, c);
  }

  lemma SubnetText(slot: nat, i: nat)
    requires slot < MAX_SLOTS && i < 5
    ensures DeriveSubnets(slot).value[i] == Quad(slot, i, 0) + "/24"
  {
    SubnetIsQuad(slot * 5 + i);
  }

  lemma QuadText(b: string, c: string)
    ensures "10" + ("." + (b + ("." + (c + ("." + "0"))))) + "/24" == "10." + (b + ("." + (c + ".0/24")))
  {
    assert "10." == "10" + "." && ".0/24" == ("." + "0") + "/24";
  }

  lemma {:induction false} FindLastSkips(s: string, w: string, p: nat, at: nat)
    requires at <= p && OccursAt(s, at, w) && forall q: nat :: at < q <= p ==> !OccursAt(s, q, w)
    ensures FindLast(s, w, p) == Some(at)
  {
    if p > at {
      FindLastSkips(s, w, p - 1, at);
    }
  }

  lemma RSplitSuffix(base: string, w: string)
    requires w != ""
    ensures RSplitHead(base + w, w) == base
  {
    var s := base + w;
    assert OccursAt(s, |base|, w);
    FindLastSkips(s, w, |s|, |base|);
    assert s[..|base|] == base;
  }

  function BaseOf(g: nat): string { "10." + (Dec(SecondOctet(g)) + ("." + Dec(g % 256))) }

  lemma BaseText(b: string, c: string, suffix: string)
    ensures "10." + (b + ("." + (c + suffix))) == "10." + (b + ("." + c)) + suffix
  {}

  /** Every static address is the quad of its network with its own last octet. */
  lemma StaticIpIsQuad(slot: nat, k: nat)
    requires slot < MAX_SLOTS && k < |HOSTS| && HOSTS[k].net < 5
    ensures StaticIp(slot, k) == Quad(slot, HOSTS[k].net, HOSTS[k].octet)
  {
    var host := HOSTS[k];
    var g := slot * 5 + host.net;
    QuadOfHost(g, host.octet, RSplitHead(DeriveSubnets(slot).value[host.net], NET_SUFFIX));
  }

  lemma QuadOfHost(g: nat, octet: nat, base: string)
    requires base == RSplitHead(Subnet(g), NET_SUFFIX)
    ensures base + ("." + Dec(octet)) == Dotted(10, SecondOctet(g), g % 256, octet)
  {
    var b, c := Dec(SecondOctet(g)), Dec(g % 256);
    BaseText(b, c, NET_SUFFIX);
    RSplitSuffix(BaseOf(g), NET_SUFFIX);
    Dec10();
    DottedIs(10, SecondOctet(g), g % 256, octet);
    HostText(b, c, Dec(octet));
  }

  lemma HostText(b: string, c: string, d: string)
    ensures "10" + ("." + (b + ("." + (c + ("." + d))))) == "10." + (b + ("." + c)) + ("." + d)
  {
    assert "10." == "10" + ".";
  }

  lemma DottedInjective(a: nat, b: nat, c: nat, d: nat, a': nat, b': nat, c': nat, d': nat)
    requires Dotted(a, b, c, d) == Dotted(a', b', c', d')
    ensures a == a' && b == b' && c == c' && d == d'
  {
    DottedSplits(a, b, c, d);
    DottedSplits(a', b', c', d');
    var parts, parts' := [Dec(a), Dec(b), Dec(c), Dec(d)], [Dec(a'), Dec(b'), Dec(c'), Dec(d')];
    assert parts[0] == parts'[0] && parts[1] == parts'[1] && parts[2] == parts'[2] && parts[3] == parts'[3];
    DecInjective(a, a');
    DecInjective(b, b');
    DecInjective(c, c');
    DecInjective(d, d');
  }

  lemma SameBeforeSuffix(p: string, q: string, suffix: string)
    requires p + suffix == q + suffix
    ensures p == q
  {
    assert p == (p + suffix)[..|p|] && q == (q + suffix)[..|q|];
  }

  /** A quad built from a slot, a network and an octet tells all three. */
  lemma QuadDistinct(s: nat, i: nat, o: nat, t: nat, j: nat, o': nat)
    requires i < 5 && j < 5
    requires Quad(s, i, o) == Quad(t, j, o')
    ensures s == t && i == j && o == o'
  {
    DottedInjective(10, OctetOf(s, i), (s * 5 + i) % 256, o, 10, OctetOf(t, j), (t * 5 + j) % 256, o');
    SplitOfG(s * 5 + i, t * 5 + j);
    SlotOfG(s, i, t, j);
  }

  // ----- What the plan guarantees -----

  /** No two subnets, of one slot or of different slots, have the same text. */
  lemma {:induction false} SubnetsDistinct(s: nat, i: nat, t: nat, j: nat)
    requires s < MAX_SLOTS && t < MAX_SLOTS && i < 5 && j < 5
    ensures DeriveSubnets(s).value[i] == DeriveSubnets(t).value[j] <==> s == t && i == j
  {
    SubnetText(s, i);
    SubnetText(t, j);
    if Quad(s, i, 0) + "/24" == Quad(t, j, 0) + "/24" {
      SameBeforeSuffix(Quad(s, i, 0), Quad(t, j, 0), "/24");
      QuadDistinct(s, i, 0, t, j, 0);
    }
  }

  /** Printed addresses and networks that agree on their first three octets. */
  ghost predicate InSubnet(ip: string, subnet: string) {
    exists a, b, c, d :: 0 <= d <= 255 && AgreeOn(ip, subnet, a, b, c, d)
  }

  ghost predicate AgreeOn(ip: string, subnet: string, a: nat, b: nat, c: nat, d: nat) {
    a <= 255 && b <= 255 && c <= 255 && ip == Dotted(a, b, c, d) && subnet == Dotted(a, b, c, 0) + "/24"
  }

  /** The addresses listed for a slot name distinct places in its five networks. */
  lemma HostsDistinct(k: nat, l: nat)
    requires k < |HOSTS| && l < |HOSTS|
    ensures HOSTS[k].net < 5 && 2 <= HOSTS[k].octet <= 254
    ensures HOSTS[k].net == HOSTS[l].net && HOSTS[k].octet == HOSTS[l].octet ==> k == l
  {}

  /** Every static address lies in its own subnet. */
  lemma {:induction false} StaticIpInItsSubnet(slot: nat, k: nat)
    requires slot < MAX_SLOTS && k < |HOSTS| && HOSTS[k].net < 5
    ensures InSubnet(StaticIp(slot, k), DeriveSubnets(slot).value[HOSTS[k].net])
  {
    HostsDistinct(k, k);
    StaticIpIsQuad(slot, k);
    var i := HOSTS[k].net;
    SubnetText(slot, i);
    MaxSlotsIsTight(slot);
    assert AgreeOn(StaticIp(slot, k), DeriveSubnets(slot).value[i], 10, OctetOf(slot, i), (slot * 5 + i) % 256,
                   HOSTS[k].octet);
  }

  /** No two static addresses, of one slot or of different slots, are the same. */
  lemma {:induction false} StaticIpsDistinct(s: nat, k: nat, t: nat, l: nat)
    requires s < MAX_SLOTS && t < MAX_SLOTS && k < |HOSTS| && l < |HOSTS| && HOSTS[k].net < 5 && HOSTS[l].net < 5
    ensures StaticIp(s, k) == StaticIp(t, l) <==> s == t && k == l
  {
    if StaticIp(s, k) == StaticIp(t, l) {
      StaticIpIsQuad(s, k);
      StaticIpIsQuad(t, l);
      SamePlace(s, HOSTS[k], t, HOSTS[l]);
      HostsDistinct(k, l);
    }
  }

  lemma SamePlace(s: nat, p: Host, t: nat, q: Host)
    requires p.net < 5 && q.net < 5 && Quad(s, p.net, p.octet) == Quad(t, q.net, q.octet)
    ensures s == t && p.net == q.net && p.octet == q.octet
  {
    QuadDistinct(s, p.net, p.octet, t, q.net, q.octet);
  }

  const CORE_IPC: nat := 2

  /** The address that `fwd` is sent to passes the dispatcher's check, for every slot. */
  lemma {:induction false} CoreIpcInSuperblock(slot: nat)
    requires slot < MAX_SLOTS
    ensures HOSTS[CORE_IPC].net < 5 && InSuperblock(StaticIp(slot, CORE_IPC))
  {
    HostsDistinct(CORE_IPC, CORE_IPC);
    StaticIpIsQuad(slot, CORE_IPC);
    MaxSlotsIsTight(slot);
    var i := HOSTS[CORE_IPC].net;
    assert StaticIp(slot, CORE_IPC) == Dotted(10, OctetOf(slot, i), (slot * 5 + i) % 256, HOSTS[CORE_IPC].octet);
  }
}
