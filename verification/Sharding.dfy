/**
 From raw datagrams to workers: the header parser, the symmetric hash that picks
 a worker, and the order in which the packets of one flow are handled.
 */
module Sharding {
  import opened Common
  import opened FlowKey

  datatype ParseError = TooSmall | NotIPv4 | TooLarge | TooSmallForTcp | TooSmallForUdp | Unsupported

  datatype Parsed = Ok(hi: HoleInfo) | Err(error: ParseError)

  function Be16(b: seq<byte>, at: nat): u16
    requires at + 2 <= |b|
  {
    b[at] as int * 0x100 + b[at + 1] as int
  }

  function Be32(b: seq<byte>, at: nat): u32
    requires at + 4 <= |b|
  {
    ((b[at] as int * 0x100 + b[at + 1] as int) * 0x100 + b[at + 2] as int) * 0x100 + b[at + 3] as int
  }

  /** The header parser of section 3.1 of RFC 791: version, header length, protocol, addresses, then the ports. */
  function Parse(data: seq<byte>, maxSize: nat): Parsed {
    if |data| < 20 then Err(TooSmall)
    else if data[0] / 16 != 4 then Err(NotIPv4)
    else if |data| > maxSize then Err(TooLarge)
    else
      var ihl := data[0] % 16 * 4;
      var src, dst := Be32(data, 12), Be32(data, 16);
      if data[9] == 6 then
        if |data| < ihl + 14 then Err(TooSmallForTcp)
        else Ok(HoleInfo(src, dst, Be16(data, ihl), Be16(data, ihl + 2), "tcp"))
      else if data[9] == 17 then
        if |data| < ihl + 8 then Err(TooSmallForUdp)
        else Ok(HoleInfo(src, dst, Be16(data, ihl), Be16(data, ihl + 2), "udp"))
      else if data[9] == 1 then Ok(HoleInfo(src, dst, 0, 0, "icmp"))
      else Err(Unsupported)
  }

  /** What the parser can return: one of three protocols, and no ports for icmp. */
  predicate FromParser(hi: HoleInfo) {
    hi.protocol in {"tcp", "udp", "icmp"} && (hi.protocol == "icmp" ==> hi.srcPort == 0 == hi.dstPort)
  }

  lemma ParserOutput(data: seq<byte>, maxSize: nat)
    ensures Parse(data, maxSize).Ok? ==> FromParser(Parse(data, maxSize).hi)
  {}

  function Bytes2(n: u16): seq<byte> { [n / 0x100, n % 0x100] }

  function Bytes4(n: u32): seq<byte> {
    [n / 0x100 / 0x100 / 0x100, n / 0x100 / 0x100 % 0x100, n / 0x100 % 0x100, n % 0x100]
  }

  function ProtocolNumber(protocol: string): byte {
    if protocol == "tcp" then 6 else if protocol == "udp" then 17 else 1
  }

  /** The bytes after the header that the parser insists on. */
  function Payload(protocol: string): nat {
    if protocol == "tcp" then 14 else 8
  }

  /**
   A datagram laid out as in section 3.1 of RFC 791: version 4, a header of as many 32-bit words as it says,
   the protocol's number, the addresses, and after the header the ports.
   */
  predicate Carries(data: seq<byte>, hi: HoleInfo)
    requires |data| >= 20
  {
    var header := data[0] % 16 * 4;
    && data[0] / 16 == 4 && data[9] == ProtocolNumber(hi.protocol)
    && data[12..16] == Bytes4(hi.srcIp) && data[16..20] == Bytes4(hi.dstIp)
    && (hi.protocol != "icmp" ==>
          && |data| >= header + Payload(hi.protocol)
          && data[header..header + 2] == Bytes2(hi.srcPort) && data[header + 2..header + 4] == Bytes2(hi.dstPort))
  }

  lemma LastByte(q: nat, r: byte)
    ensures (q * 0x100 + r) / 0x100 == q && (q * 0x100 + r) % 0x100 == r
  {}

  lemma Be32Reads(data: seq<byte>, at: nat, n: u32)
    requires at + 4 <= |data|
    ensures data[at..at + 4] == Bytes4(n) <==> Be32(data, at) == n
  {
    var a, b, c, d := data[at], data[at + 1], data[at + 2], data[at + 3];
    assert data[at..at + 4] == [a, b, c, d];
    if Be32(data, at) == n {
      LastByte((a as int * 0x100 + b) * 0x100 + c, d);
      LastByte(a as int * 0x100 + b, c);
      LastByte(a, b);
    } else if [a, b, c, d] == Bytes4(n) {
      BytesAddUp(n);
    }
  }

  lemma BytesAddUp(n: u32)
    ensures Be32(Bytes4(n), 0) == n
  {
    var a := n / 0x100;
    var b := a / 0x100;
    assert n == a * 0x100 + n % 0x100 && a == b * 0x100 + a % 0x100 && b == b / 0x100 * 0x100 + b % 0x100;
  }

  lemma Be16Reads(data: seq<byte>, at: nat, n: u16)
    requires at + 2 <= |data|
    ensures data[at..at + 2] == Bytes2(n) <==> Be16(data, at) == n
  {
    assert data[at..at + 2] == [data[at], data[at + 1]];
  }

  /** The parser reads exactly the addresses, protocol and ports a datagram carries, options or not. */
  lemma ParserReadsBack(data: seq<byte>, hi: HoleInfo, maxSize: nat)
    ensures Parse(data, maxSize) == Ok(hi) <==> FromParser(hi) && |data| <= maxSize && |data| >= 20 && Carries(data, hi)
  {
    if |data| >= 20 {
      Be32Reads(data, 12, hi.srcIp);
      Be32Reads(data, 16, hi.dstIp);
      var header := data[0] % 16 * 4;
      if |data| >= header + 4 {
        Be16Reads(data, header, hi.srcPort);
        Be16Reads(data, header + 2, hi.dstPort);
      }
    }
  }

  /** Why a datagram is refused: the first test it fails. */
  lemma ParserRefusals(data: seq<byte>, maxSize: nat)
    ensures var r, v4 := Parse(data, maxSize), |data| >= 20 && data[0] / 16 == 4;
            && (r == Err(TooSmall) <==> |data| < 20)
            && (r == Err(NotIPv4) <==> |data| >= 20 && data[0] / 16 != 4)
            && (r == Err(TooLarge) <==> v4 && |data| > maxSize)
            && (r == Err(TooSmallForTcp) <==>
                  v4 && |data| <= maxSize && data[9] == 6 && |data| < data[0] % 16 * 4 + 14)
            && (r == Err(TooSmallForUdp) <==>
                  v4 && |data| <= maxSize && data[9] == 17 && |data| < data[0] % 16 * 4 + 8)
            && (r == Err(Unsupported) <==> v4 && |data| <= maxSize && data[9] !in {1, 6, 17})
  {}

  // ----- choosing a worker -----

  /** The 64-bit mix of the two ends and the protocol's first byte, with wrap-around. */
  function Mixed(ip1: bv64, ip2: bv64, port1: bv64, port2: bv64, first: bv64): bv64 {
    (((ip1 << 32) ^ ip2) * 0x9e3779b97f4a7c15 + (port1 << 16) + port2) ^ (first << 48)
  }

  /** The 32-bit finaliser. */
  function Finalise(k: bv32): bv32 {
    var k1: bv32 := (k ^ (k >> 16)) * 0x85ebca6b;
    var k2: bv32 := (k1 ^ (k1 >> 13)) * 0xc2b2ae35;
    k2 ^ (k2 >> 16)
  }

  function Hash(h: bv64): bv32 { Finalise(((h ^ (h >> 32)) & 0xffff_ffff) as bv32) }

  function Mix(ip1: u32, ip2: u32, port1: u16, port2: u16, first: Option<char>): bv32 {
    Hash(Mixed(ip1 as bv64, ip2 as bv64, port1 as bv64, port2 as bv64,
               match first case None => 0 case Some(c) => (c as int % 256) as bv64))
  }

  /** The hash of the tcp flow from 10.0.0.1:5000 to 10.0.0.2:443. */
  lemma KnownTcpHash()
    ensures Hash(Mixed(0x0A00_0001, 0x0A00_0002, 5000, 443, 0x74)) == 1977136654
  {
    hide Mix, Worker;
    assert Mixed(0x0A00_0001, 0x0A00_0002, 5000, 443, 0x74) == 0xccc65860e41cf9e5;
    assert Finalise(0x28daa185) == 1977136654;
  }

  /** The hash of icmp between the two. */
  lemma KnownIcmpHash()
    ensures Hash(Mixed(0x0A00_0001, 0x0A00_0002, 0, 0, 0x69)) == 608116480
  {
    hide Mix, Worker;
    assert Mixed(0x0A00_0001, 0x0A00_0002, 0, 0, 0x69) == 0xccdb5860d094f82a;
    assert Finalise(0x1c4fa04a) == 608116480;
  }

  function Worker(hi: HoleInfo, workers: nat): (w: nat)
    requires workers > 0
    ensures w < workers
  {
    var swap := hi.srcIp > hi.dstIp || (hi.srcIp == hi.dstIp && hi.srcPort > hi.dstPort);
    var first := if |hi.protocol| > 0 then Some(hi.protocol[0]) else None;
    var hash := if swap then Mix(hi.dstIp, hi.srcIp, hi.dstPort, hi.srcPort, first)
                else Mix(hi.srcIp, hi.dstIp, hi.srcPort, hi.dstPort, first);
    hash as nat % workers
  }

  /** The worker is the hash of the ends, the lower address first, reduced to the number of workers. */
  lemma WorkerIsHash(hi: HoleInfo, workers: nat)
    requires workers > 0 && hi.srcIp < hi.dstIp && hi.protocol != ""
    ensures Worker(hi, workers) ==
            Mix(hi.srcIp, hi.dstIp, hi.srcPort, hi.dstPort, Some(hi.protocol[0])) as nat % workers
  {
    hide Mix;
  }

  /** Packets under one flow key go to one worker, whichever way they travel. */
  lemma SameKeySameWorker(a: HoleInfo, b: HoleInfo, workers: nat)
    requires workers > 0 && FromParser(a) && FromParser(b)
    requires MakeFlowKey(a) == MakeFlowKey(b)
    ensures Worker(a, workers) == Worker(b, workers)
  {
    hide Mix;
    KeyIdentifiesFlow(a, b);
    hide MakeFlowKey;
  }

  // ----- the order of a flow -----

  const WORKER_QUEUE: nat := 1000

  /** `tag` tells apart the packets of a flow. */
  datatype Packet = Packet(hi: HoleInfo, tag: nat)

  /** The workers' queues, and the logs of what arrived and what was handled. */
  datatype State = State(queues: seq<seq<Packet>>, arrived: seq<Packet>, handled: seq<Packet>)

  datatype Step = Arrive(p: Packet) | Work(worker: nat)

  predicate Enabled(st: State, step: Step) {
    match step
    case Arrive(p) => |st.queues| > 0 && FromParser(p.hi) && |st.queues[Worker(p.hi, |st.queues|)]| < WORKER_QUEUE
    case Work(w) => w < |st.queues| && st.queues[w] != []
  }

  function Next(st: State, step: Step): State
    requires Enabled(st, step)
  {
    match step
    case Arrive(p) =>
      var w := Worker(p.hi, |st.queues|);
      st.(queues := st.queues[w := st.queues[w] + [p]], arrived := st.arrived + [p])
    case Work(w) =>
      st.(queues := st.queues[w := st.queues[w][1..]], handled := st.handled + [st.queues[w][0]])
  }

  predicate Legal(st: State, run: seq<Step>)
    decreases |run|
  {
    run == [] || (Enabled(st, run[0]) && Legal(Next(st, run[0]), run[1..]))
  }

  function After(st: State, run: seq<Step>): State
    requires Legal(st, run)
    decreases |run|
  {
    if run == [] then st else After(Next(st, run[0]), run[1..])
  }

  /** The packets of one flow, in order. */
  function Flow(ps: seq<Packet>, key: string): seq<Packet> {
    if ps == [] then []
    else Flow(ps[..|ps| - 1], key) + if MakeFlowKey(ps[|ps| - 1].hi) == key then [ps[|ps| - 1]] else []
  }

  lemma FlowAppend(ps: seq<Packet>, p: Packet, key: string)
    ensures Flow(ps + [p], key) == Flow(ps, key) + if MakeFlowKey(p.hi) == key then [p] else []
  {
    assert (ps + [p])[..|ps|] == ps;
  }

  lemma {:induction false} FlowPrepend(p: Packet, ps: seq<Packet>, key: string)
    ensures Flow([p] + ps, key) == (if MakeFlowKey(p.hi) == key then [p] else []) + Flow(ps, key)
    decreases |ps|
  {
    if ps == [] {
      assert [p] + ps == [] + [p];
      FlowAppend([], p, key);
    } else {
      var init, last := ps[..|ps| - 1], ps[|ps| - 1];
      assert [p] + ps == [p] + init + [last] && ps == init + [last];
      FlowAppend([p] + init, last, key);
      FlowPrepend(p, init, key);
      FlowAppend(init, last, key);
    }
  }

  /** Every packet sits in its worker's queue; a flow's handled and waiting packets are the arrived ones, in order. */
  ghost predicate InOrder(st: State, hi: HoleInfo) {
    var w, key := Worker(hi, if |st.queues| > 0 then |st.queues| else 1), MakeFlowKey(hi);
    && |st.queues| > 0
    && (forall v, p | 0 <= v < |st.queues| && p in st.queues[v] :: FromParser(p.hi) && Worker(p.hi, |st.queues|) == v)
    && Flow(st.handled, key) + Flow(st.queues[w], key) == Flow(st.arrived, key)
  }

  lemma ArriveKeepsOrder(st: State, p: Packet, hi: HoleInfo)
    requires FromParser(hi) && InOrder(st, hi) && Enabled(st, Arrive(p))
    ensures InOrder(Next(st, Arrive(p)), hi)
  {
    hide MakeFlowKey, Worker, Flow;
    var n := |st.queues|;
    var w, v, key := Worker(hi, n), Worker(p.hi, n), MakeFlowKey(hi);
    FlowAppend(st.arrived, p, key);
    FlowAppend(st.queues[v], p, key);
    if MakeFlowKey(p.hi) == key {
      SameKeySameWorker(p.hi, hi, n);
    }
  }

  lemma WorkKeepsOrder(st: State, v: nat, hi: HoleInfo)
    requires FromParser(hi) && InOrder(st, hi) && Enabled(st, Work(v))
    ensures InOrder(Next(st, Work(v)), hi)
  {
    hide MakeFlowKey, Worker, Flow;
    var n, q := |st.queues|, st.queues[v];
    var w, key := Worker(hi, n), MakeFlowKey(hi);
    assert q[0] in q && q == [q[0]] + q[1..];
    FlowAppend(st.handled, q[0], key);
    FlowPrepend(q[0], q[1..], key);
    if MakeFlowKey(q[0].hi) == key {
      SameKeySameWorker(q[0].hi, hi, n);
    }
  }

  lemma {:induction false} RunKeepsOrder(st: State, run: seq<Step>, hi: HoleInfo)
    requires FromParser(hi) && InOrder(st, hi) && Legal(st, run)
    ensures InOrder(After(st, run), hi)
    decreases |run|
  {
    if run != [] {
      match run[0] {
        case Arrive(p) => ArriveKeepsOrder(st, p, hi);
        case Work(w) => WorkKeepsOrder(st, w, hi);
      }
      RunKeepsOrder(Next(st, run[0]), run[1..], hi);
    }
  }

  /** In every interleaving of the workers, the packets of a flow, both ways, are handled in the order they arrived. */
  lemma FlowsKeepArrivalOrder(workers: nat, run: seq<Step>, hi: HoleInfo)
    requires workers > 0 && FromParser(hi)
    requires Legal(State(seq(workers, i => []), [], []), run)
    ensures var end := After(State(seq(workers, i => []), [], []), run);
            Flow(end.handled, MakeFlowKey(hi)) <= Flow(end.arrived, MakeFlowKey(hi))
  {
    RunKeepsOrder(State(seq(workers, i => []), [], []), run, hi);
  }

  // ----- room in the queues -----

  function Waiting(queues: seq<seq<Packet>>): nat {
    if queues == [] then 0 else Waiting(queues[..|queues| - 1]) + |queues[|queues| - 1]|
  }

  lemma {:induction false} OneMoreWaits(queues: seq<seq<Packet>>, v: nat, p: Packet)
    requires v < |queues|
    ensures Waiting(queues[v := queues[v] + [p]]) == Waiting(queues) + 1 && |queues[v]| <= Waiting(queues)
    decreases |queues|
  {
    var init, more := queues[..|queues| - 1], queues[v := queues[v] + [p]];
    if v == |init| {
      assert more[..|init|] == init;
    } else {
      OneMoreWaits(init, v, p);
      assert more[..|init|] == init[v := init[v] + [p]];
    }
  }

  function Arrivals(ps: seq<Packet>): seq<Step> { seq(|ps|, i requires 0 <= i < |ps| => Arrive(ps[i])) }

  /** A thousand packets can wait without anyone being held up, whatever their flows. */
  lemma {:induction false} ThousandCanWait(st: State, ps: seq<Packet>)
    requires |st.queues| > 0 && Waiting(st.queues) + |ps| <= 1000
    requires forall k | 0 <= k < |ps| :: FromParser(ps[k].hi)
    ensures Legal(st, Arrivals(ps)) && After(st, Arrivals(ps)).arrived == st.arrived + ps
    decreases |ps|
  {
    hide Mix, Worker, FromParser;
    if ps != [] {
      var v := Worker(ps[0].hi, |st.queues|);
      OneMoreWaits(st.queues, v, ps[0]);
      assert Arrivals(ps)[0] == Arrive(ps[0]) && Arrivals(ps)[1..] == Arrivals(ps[1..]);
      ThousandCanWait(Next(st, Arrive(ps[0])), ps[1..]);
      assert st.arrived + ps == st.arrived + [ps[0]] + ps[1..];
    }
  }
}
