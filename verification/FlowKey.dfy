/**
 The key under which the firewall files the hole of a flow: decimal fields
 joined by bars, the two endpoints in canonical order, so that both directions
 of a flow share one key and different flows never do.
 */
module FlowKey {
  import opened Common

  /** The part of a packet header the firewall and the sharding look at. */
  datatype HoleInfo = HoleInfo(srcIp: u32, dstIp: u32, srcPort: u16, dstPort: u16, protocol: string)

  function Reply(hi: HoleInfo): HoleInfo {
    HoleInfo(hi.dstIp, hi.srcIp, hi.dstPort, hi.srcPort, hi.protocol)
  }

  function Digit(n: nat): char
    requires n < 10
  {
    '0' + n as char
  }

  /** The decimal form printed by the format verb %d. */
  function Decimal(n: nat): string {
    if n < 10 then [Digit(n)] else Decimal(n / 10) + [Digit(n % 10)]
  }

  function MakeFlowKey(hi: HoleInfo): string {
    if hi.protocol == "icmp" then
      if hi.srcIp < hi.dstIp then Decimal(hi.srcIp) + "|" + (Decimal(hi.dstIp) + "|" + "icmp")
      else Decimal(hi.dstIp) + "|" + (Decimal(hi.srcIp) + "|" + "icmp")
    else if hi.srcIp < hi.dstIp || (hi.srcIp == hi.dstIp && hi.srcPort < hi.dstPort) then
      Fields(hi.srcIp, hi.dstIp, hi.srcPort, hi.dstPort, hi.protocol)
    else
      Fields(hi.dstIp, hi.srcIp, hi.dstPort, hi.srcPort, hi.protocol)
  }

  function Fields(ip1: nat, ip2: nat, port1: nat, port2: nat, protocol: string): string {
    Decimal(ip1) + "|" + (Decimal(ip2) + "|" + (Decimal(port1) + "|" + (Decimal(port2) + "|" + protocol)))
  }

  /** Two packets belong to one flow: same protocol and the same unordered pair of endpoints. */
  predicate SameFlow(a: HoleInfo, b: HoleInfo) {
    a.protocol == b.protocol &&
    if a.protocol == "icmp" then
      (a.srcIp == b.srcIp && a.dstIp == b.dstIp) || (a.srcIp == b.dstIp && a.dstIp == b.srcIp)
    else
      a == b || a == Reply(b)
  }

  lemma {:induction false} DecimalIsDigits(n: nat)
    ensures |Decimal(n)| > 0 && forall c | c in Decimal(n) :: '0' <= c <= '9'
  {
    if n >= 10 {
      DecimalIsDigits(n / 10);
    }
  }

  lemma {:induction false} DecimalIsInjective(a: nat, b: nat)
    requires Decimal(a) == Decimal(b)
    ensures a == b
  {
    DecimalIsDigits(a / 10);
    DecimalIsDigits(b / 10);
    var da, db := Decimal(a), Decimal(b);
    assert da[|da| - 1] == Digit(a % 10) && db[|db| - 1] == Digit(b % 10);
    if a >= 10 && b >= 10 {
      assert da[..|da| - 1] == Decimal(a / 10) && db[..|db| - 1] == Decimal(b / 10);
      DecimalIsInjective(a / 10, b / 10);
    }
  }

  /** Text without a bar before a bar can be read back, together with everything after the bar. */
  lemma {:induction false} BarSplits(a: string, b: string, x: string, y: string)
    requires '|' !in a && '|' !in b && a + "|" + x == b + "|" + y
    ensures a == b && x == y
    decreases |a|
  {
    var s, t := a + "|" + x, b + "|" + y;
    assert s[0] == if a == [] then '|' else a[0];
    assert t[0] == if b == [] then '|' else b[0];
    if a == [] {
      assert x == s[1..] && y == t[1..];
    } else {
      assert s[1..] == a[1..] + "|" + x && t[1..] == b[1..] + "|" + y;
      BarSplits(a[1..], b[1..], x, y);
      assert a == [a[0]] + a[1..] && b == [b[0]] + b[1..];
    }
  }

  lemma FieldIsReadable(a: nat, b: nat, x: string, y: string)
    requires Decimal(a) + "|" + x == Decimal(b) + "|" + y
    ensures a == b && x == y
  {
    DecimalIsDigits(a);
    DecimalIsDigits(b);
    BarSplits(Decimal(a), Decimal(b), x, y);
    DecimalIsInjective(a, b);
  }

  lemma FieldsAreReadable(a1: nat, a2: nat, p1: nat, p2: nat, x: string, b1: nat, b2: nat, q1: nat, q2: nat, y: string)
    requires Fields(a1, a2, p1, p2, x) == Fields(b1, b2, q1, q2, y)
    ensures a1 == b1 && a2 == b2 && p1 == q1 && p2 == q2 && x == y
  {
    var r1, s1 := Decimal(p2) + "|" + x, Decimal(q2) + "|" + y;
    var r2, s2 := Decimal(p1) + "|" + r1, Decimal(q1) + "|" + s1;
    FieldIsReadable(a1, b1, Decimal(a2) + "|" + r2, Decimal(b2) + "|" + s2);
    FieldIsReadable(a2, b2, r2, s2);
    FieldIsReadable(p1, q1, r1, s1);
    FieldIsReadable(p2, q2, x, y);
  }

  /** A two-field icmp key is never a four-field key. */
  lemma IcmpKeyIsDistinct(a1: nat, a2: nat, b1: nat, b2: nat, q1: nat, q2: nat, y: string)
    ensures Decimal(a1) + "|" + (Decimal(a2) + "|" + "icmp") != Fields(b1, b2, q1, q2, y)
  {
    var rest := Decimal(q1) + "|" + (Decimal(q2) + "|" + y);
    DecimalIsDigits(q1);
    assert rest[0] == Decimal(q1)[0] && rest[0] in Decimal(q1);
    assert rest != "icmp";
    if Decimal(a1) + "|" + (Decimal(a2) + "|" + "icmp") == Fields(b1, b2, q1, q2, y) {
      FieldIsReadable(a1, b1, Decimal(a2) + "|" + "icmp", Decimal(b2) + "|" + rest);
      FieldIsReadable(a2, b2, "icmp", rest);
    }
  }

  /** Equal keys mean the same flow, and the other way round. */
  lemma KeyIdentifiesFlow(a: HoleInfo, b: HoleInfo)
    ensures MakeFlowKey(a) == MakeFlowKey(b) <==> SameFlow(a, b)
  {
    if MakeFlowKey(a) == MakeFlowKey(b) {
      KeyReadsBack(a, b);
    }
  }

  function Low(hi: HoleInfo): (u32, u16) {
    if hi.srcIp < hi.dstIp || (hi.srcIp == hi.dstIp && hi.srcPort < hi.dstPort) then (hi.srcIp, hi.srcPort)
    else (hi.dstIp, hi.dstPort)
  }

  function High(hi: HoleInfo): (u32, u16) {
    if hi.srcIp < hi.dstIp || (hi.srcIp == hi.dstIp && hi.srcPort < hi.dstPort) then (hi.dstIp, hi.dstPort)
    else (hi.srcIp, hi.srcPort)
  }

  lemma KeyReadsBack(a: HoleInfo, b: HoleInfo)
    requires MakeFlowKey(a) == MakeFlowKey(b)
    ensures SameFlow(a, b)
  {
    if a.protocol == "icmp" && b.protocol == "icmp" {
      var (a1, a2) := if a.srcIp < a.dstIp then (a.srcIp, a.dstIp) else (a.dstIp, a.srcIp);
      var (b1, b2) := if b.srcIp < b.dstIp then (b.srcIp, b.dstIp) else (b.dstIp, b.srcIp);
      FieldIsReadable(a1, b1, Decimal(a2) + "|" + "icmp", Decimal(b2) + "|" + "icmp");
      FieldIsReadable(a2, b2, "icmp", "icmp");
    } else if a.protocol == "icmp" {
      var (a1, a2) := if a.srcIp < a.dstIp then (a.srcIp, a.dstIp) else (a.dstIp, a.srcIp);
      IcmpKeyIsDistinct(a1, a2, Low(b).0, High(b).0, Low(b).1, High(b).1, b.protocol);
    } else if b.protocol == "icmp" {
      var (b1, b2) := if b.srcIp < b.dstIp then (b.srcIp, b.dstIp) else (b.dstIp, b.srcIp);
      IcmpKeyIsDistinct(b1, b2, Low(a).0, High(a).0, Low(a).1, High(a).1, a.protocol);
    } else {
      FieldsAreReadable(Low(a).0, High(a).0, Low(a).1, High(a).1, a.protocol,
                        Low(b).0, High(b).0, Low(b).1, High(b).1, b.protocol);
    }
  }
}
