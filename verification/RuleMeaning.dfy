/**
 What a rule allows, piece by piece: a rule for one protocol, one source and one
 port allows exactly that, and every other rule allows what its pieces allow
 together.
 */
module RuleMeaning {
  import opened Common
  import opened FlowKey
  import opened Firewall

  /** One source, one protocol, one port: nothing else is allowed but icmp between the two addresses. */
  lemma PlainRuleIsExact(address: u32, source: u32, protocol: string, port: u16, hi: HoleInfo)
    requires protocol != "both"
    ensures Matches(Rule(address, Some(source), protocol, port, None), hi) <==>
            && hi.dstIp == address && hi.srcIp == source
            && (hi.protocol == "icmp" || (hi.protocol == protocol && hi.dstPort == port))
  {}

  /** A range of ports allows what its ports allow, both ends included. */
  lemma RangeIsItsPorts(rule: Rule, end: u16, hi: HoleInfo)
    requires rule.portEnd == Some(end) && hi.protocol != "icmp"
    ensures Matches(rule, hi) <==>
            exists p: u16 :: rule.portStart <= p <= end && Matches(rule.(portStart := p, portEnd := None), hi)
  {
    if Matches(rule, hi) {
      assert Matches(rule.(portStart := hi.dstPort, portEnd := None), hi);
    }
  }

  /** A rule for both protocols allows what its tcp and its udp version allow. */
  lemma BothIsTcpAndUdp(rule: Rule, hi: HoleInfo)
    requires rule.protocol == "both" && hi.protocol in {"tcp", "udp", "icmp"}
    ensures Matches(rule, hi) <==>
            Matches(rule.(protocol := "tcp"), hi) || Matches(rule.(protocol := "udp"), hi)
  {}

  /** A rule without a source allows what its versions with a source allow together. */
  lemma AnySourceIsEverySource(rule: Rule, hi: HoleInfo)
    requires rule.target == None
    ensures Matches(rule, hi) <==> exists t: u32 :: Matches(rule.(target := Some(t)), hi)
  {
    if Matches(rule, hi) {
      assert Matches(rule.(target := Some(hi.srcIp)), hi);
    }
  }

  /** Whether a rule allows an icmp packet does not depend on its protocol and ports, nor on the packet's. */
  lemma IcmpNeedsAddressesOnly(a: Rule, b: Rule, hi: HoleInfo, other: HoleInfo)
    requires a.address == b.address && a.target == b.target && hi.protocol == "icmp" == other.protocol
    requires hi.srcIp == other.srcIp && hi.dstIp == other.dstIp
    ensures Matches(a, hi) <==> Matches(b, other)
    ensures Matches(a, hi) <==> hi.dstIp == a.address && (a.target == None || a.target == Some(hi.srcIp))
  {}

  /** The ports of a rule that the source chooses its own port from do not matter. */
  lemma SourcePortIsFree(rule: Rule, hi: HoleInfo, port: u16)
    ensures Matches(rule, hi) <==> Matches(rule, hi.(srcPort := port))
  {}

  /** Checking a packet leaves no expired hole of its flow, and no hole of another flow is touched. */
  lemma CheckSweepsOwnFlow(holes: Holes, hi: HoleInfo, now: int, key: string)
    ensures var checked := Checked(holes, hi, now);
            && (key in checked ==> key in holes && checked[key] == holes[key])
            && (key in checked <==> key in holes && (key != MakeFlowKey(hi) || now < holes[key].expire))
  {}
}
