/**
 Whole runs of packets, rule changes and time over the firewall: a packet passes
 only under rules in force or a flow the mesh has meshed, and removing the last
 rule of a flow closes it in both directions for good.
 */
module FlowRuns {
  import opened Common
  import opened FlowKey
  import opened Firewall
  import opened Slots
  import RuleIndex

  /** Nanoseconds: one minute. */
  const HOLE_LIFETIME: int := 60_000_000_000

  /** `base` and `size` delimit the addresses of the global mesh network. */
  datatype Config = Config(gateway: u32, base: u32, size: nat) {
    predicate InMesh(ip: u32) { base <= ip < base + size }
  }

  datatype Outcome = Dropped | ToIface | Passed

  /** Destinations outside the mesh that a client must not reach. */
  predicate ForbiddenEgress(ip: u32) {
    || ip <= 0x00FF_FFFF
    || 0x7F00_0000 <= ip <= 0x7FFF_FFFF
    || 0x0A00_0000 <= ip <= 0x0AFF_FFFF
    || 0xA9FE_0000 <= ip <= 0xA9FE_FFFF
    || 0xC0A8_0000 <= ip <= 0xC0A8_FFFF
    || 0xAC10_0000 <= ip <= 0xAC1F_FFFF
    || 0xE000_0000 <= ip
  }

  /** Traffic of a client to another mesh address, the only traffic the firewall decides on. */
  predicate Filtered(cfg: Config, hi: HoleInfo) { hi.dstIp != cfg.gateway && cfg.InMesh(hi.dstIp) }

  datatype State = State(rules: Rules, holes: Holes, now: int)

  datatype Step =
    | Transport(hi: HoleInfo, withinLimits: bool)   // a packet from a client of this node
    | Mesh(hi: HoleInfo)                            // a packet another node has already admitted
    | Tun(hi: HoleInfo)                             // a packet from the host interface
    | AddRule(i: Index, rule: Rule)
    | RemoveRule(i: Index)
    | Wait(d: nat)

  ghost predicate Passes(st: State, hi: HoleInfo) { Open(st.holes, hi, st.now) || RulesAllow(st.rules, hi) }

  /** The cases the router settles without asking the firewall. */
  function Early(cfg: Config, hi: HoleInfo, withinLimits: bool): Option<Outcome> {
    if !withinLimits then Some(Dropped)
    else if hi.dstIp == cfg.gateway then Some(ToIface)
    else if !cfg.InMesh(hi.dstIp) then Some(if ForbiddenEgress(hi.dstIp) then Dropped else ToIface)
    else None
  }

  ghost function OutcomeOf(cfg: Config, st: State, hi: HoleInfo, withinLimits: bool): Outcome {
    match Early(cfg, hi, withinLimits)
    case Some(out) => out
    case None => if Passes(st, hi) then Passed else Dropped
  }

  /** The holes after a client's packet: touched only when the firewall was asked. */
  ghost function AfterTransport(cfg: Config, st: State, hi: HoleInfo, withinLimits: bool): Holes {
    if Early(cfg, hi, withinLimits).Some? then st.holes
    else
      var checked := Checked(st.holes, hi, st.now);
      if Passes(st, hi) then Punched(checked, hi, st.now + HOLE_LIFETIME) else checked
  }

  ghost function Next(cfg: Config, st: State, step: Step): State {
    match step
    case Transport(hi, within) => st.(holes := AfterTransport(cfg, st, hi, within))
    case Mesh(hi) => if hi.protocol == "" then st else st.(holes := Punched(st.holes, hi, st.now + HOLE_LIFETIME))
    case Tun(_) => st
    case AddRule(i, rule) => st.(rules := Filled(st.rules, i, rule))
    case RemoveRule(i) =>
      if !Occupied(st.rules, i) then st
      else st.(rules := Vacated(st.rules, i), holes := Authorized(Vacated(st.rules, i), st.holes))
    case Wait(d) => st.(now := st.now + d)
  }

  ghost function After(cfg: Config, st: State, run: seq<Step>): State {
    if run == [] then st else Next(cfg, After(cfg, st, run[..|run| - 1]), run[|run| - 1])
  }

  /** The engine has a short identifier for the operation's node, or one left. */
  ghost predicate HasRoom(t: Table, op: RuleIndex.Op) {
    RuleIndex.Filed(t) && (op.Add? && op.i.node != "" && op.i.node !in t.ids ==> |t.ids| < SHORT_IDS)
  }

  lemma NodesFit(t: Table, node: string)
    requires |t.ids| <= SHORT_IDS && (node == "" || node in t.ids || |t.ids| < SHORT_IDS)
    ensures |t.ids.Keys| <= SHORT_IDS && (node != "" ==> |t.ids.Keys + {node}| <= SHORT_IDS)
  {
    if node in t.ids {
      assert t.ids.Keys + {node} == t.ids.Keys;
    } else {
      RuleIndex.SizeGrows(t.ids, node, 0);
    }
  }

  lemma RoomSuffices(t: Table, op: RuleIndex.Op)
    requires HasRoom(t, op)
    ensures RuleIndex.Result(t, op) == RuleIndex.SlotResult(t.rules, op)
    ensures RuleIndex.Step(t, op).rules == RuleIndex.BySlot(t.rules, op)
    ensures RuleIndex.Filed(RuleIndex.Step(t, op))
  {
    assert |t.ids| <= SHORT_IDS;
    hide RuleIndex.Filed, Adds, Added, Taken, Removed, Occupied, Vacated, Filled;
    if op.Add? {
      var nodes := if op.i.node == "" then t.ids.Keys else t.ids.Keys + {op.i.node};
      NodesFit(t, op.i.node);
      RuleIndex.AddBySlot(t, op.i, op.rule, nodes);
    } else {
      RuleIndex.TableBySlot(t, op.i);
      RuleIndex.RemoveBySlot(t, op.i);
    }
  }

  /** The packet handlers and the rule changes, over a real engine. */
  class Router {
    const cfg: Config
    const firewall: Engine

    constructor (cfg: Config, firewall: Engine)
      ensures this.cfg == cfg && this.firewall == firewall
    {
      this.cfg, this.firewall := cfg, firewall;
    }

    ghost function View(now: int): State
      reads firewall
    {
      State(firewall.table.rules, firewall.holes, now)
    }

    /** `routes` are the addresses the routing table knows; a packet that passed is sent if it has a route. */
    method HandleTransportPacket(hi: HoleInfo, withinLimits: bool, now: int, routes: set<u32>)
      returns (out: Outcome, sent: bool)
      requires firewall.Valid()
      modifies firewall`holes
      ensures firewall.Valid()
      ensures out == OutcomeOf(cfg, old(View(now)), hi, withinLimits)
      ensures sent <==> out == Passed && hi.dstIp in routes
      ensures View(now) == Next(cfg, old(View(now)), Transport(hi, withinLimits))
    {
      hide MakeFlowKey;
      var early := Early(cfg, hi, withinLimits);
      if early.Some? {
        return early.value, false;
      }
      var passed := Filter(hi, now);
      if !passed {
        return Dropped, false;
      }
      return Passed, hi.dstIp in routes;
    }

    /** The check and, when it succeeds, the hole that keeps the flow open. */
    method Filter(hi: HoleInfo, now: int) returns (passed: bool)
      requires firewall.Valid()
      modifies firewall`holes
      ensures firewall.Valid() && (passed <==> Passes(old(View(now)), hi))
      ensures var checked := Checked(old(firewall.holes), hi, now);
              firewall.holes == if passed then Punched(checked, hi, now + HOLE_LIFETIME) else checked
    {
      passed := firewall.RuleCheck(hi, now);
      if passed {
        firewall.Holepunch(hi, now, HOLE_LIFETIME);
      }
    }

    /** A packet with a route is handed to it; a limited client's route may still drop it. */
    method HandleMeshPacket(hi: HoleInfo, now: int, routes: set<u32>) returns (routed: bool)
      requires firewall.Valid()
      modifies firewall`holes
      ensures firewall.Valid() && (routed <==> hi.dstIp in routes)
      ensures View(now) == Next(cfg, old(View(now)), Mesh(hi))
    {
      if hi.protocol != "" {
        firewall.Holepunch(hi, now, HOLE_LIFETIME);
      }
      return hi.dstIp in routes;
    }

    /** With a short identifier for the node, the engine's own addition is the step of the runs. */
    method AddRule(i: Index, rule: Rule, now: int) returns (ok: bool)
      requires firewall.Valid() && HasRoom(firewall.table, RuleIndex.Add(i, rule))
      modifies firewall
      ensures firewall.Valid() && RuleIndex.Filed(firewall.table)
      ensures ok <==> i.node != "" && !Occupied(old(firewall.table.rules), i)
      ensures View(now) == Next(cfg, old(View(now)), Step.AddRule(i, rule))
    {
      hide RuleIndex.Filed, MakeFlowKey, Slot, RulesOk, AddrOk, Added, Taken, Occupied;
      RoomSuffices(firewall.table, RuleIndex.Add(i, rule));
      ok := firewall.AddRule(i, rule);
    }

    /** And so is its removal, which decides about every hole. */
    method RemoveRule(i: Index, now: int) returns (ok: bool)
      requires firewall.Valid() && HasRoom(firewall.table, RuleIndex.Remove(i))
      modifies firewall
      ensures firewall.Valid() && RuleIndex.Filed(firewall.table)
      ensures ok <==> Occupied(old(firewall.table.rules), i)
      ensures View(now) == Next(cfg, old(View(now)), Step.RemoveRule(i))
      ensures forall hi | ok && !EitherWay(firewall.table.rules, hi) :: Closed(View(now), hi)
    {
      hide RuleIndex.Filed, MakeFlowKey, RulesAllow, Slot, RulesOk, AddrOk, Removed, Taken, Occupied, Vacated;
      RoomSuffices(firewall.table, RuleIndex.Remove(i));
      VacateFree(firewall.table.rules, i);
      ok := firewall.RemoveRule(i);
      forall hi | ok && !EitherWay(firewall.table.rules, hi) ensures Closed(View(now), hi) {
        RemovalCloses(cfg, old(View(now)), i, hi);
      }
    }
  }

  // ----- rules and directions -----

  ghost predicate EitherWay(rules: Rules, hi: HoleInfo) { RulesAllow(rules, hi) || RulesAllow(rules, Reply(hi)) }

  /** What the rules say about one packet of a flow they say about every packet of it. */
  lemma FlowShareRules(rules: Rules, a: HoleInfo, b: HoleInfo)
    requires SameFlow(a, b)
    ensures EitherWay(rules, a) <==> EitherWay(rules, b)
  {
    forall i | i in rules
      ensures Matches(rules[i], a) || Matches(rules[i], Reply(a))
              <==> Matches(rules[i], b) || Matches(rules[i], Reply(b))
    {}
  }

  lemma FewerRules(rules: Rules, i: Index, hi: HoleInfo)
    ensures RulesAllow(Vacated(rules, i), hi) ==> RulesAllow(rules, hi)
  {
    if j :| j in Vacated(rules, i) && Matches(Vacated(rules, i)[j], hi) {
      assert j in rules && Matches(rules[j], hi);
    }
  }

  lemma OneMoreRule(rules: Rules, i: Index, rule: Rule, hi: HoleInfo)
    requires !Occupied(rules, i)
    ensures RulesAllow(rules[i := rule], hi) <==> RulesAllow(rules, hi) || Matches(rule, hi)
  {
    var more := rules[i := rule];
    assert i !in rules by {
      assert SameSlot(i, i);
    }
    if j :| j in rules && Matches(rules[j], hi) {
      assert j in more && Matches(more[j], hi);
    }
    if Matches(rule, hi) {
      assert i in more && Matches(more[i], hi);
    }
  }

  // ----- what a packet from a client meets -----

  /** The client's traffic leaves by the interface, reaches another client, or is dropped, for these reasons. */
  lemma OutcomeDecides(cfg: Config, st: State, hi: HoleInfo, withinLimits: bool)
    ensures var out := OutcomeOf(cfg, st, hi, withinLimits);
            && (out == ToIface <==>
                  withinLimits && (hi.dstIp == cfg.gateway || (!cfg.InMesh(hi.dstIp) && !ForbiddenEgress(hi.dstIp))))
            && (out == Passed <==> withinLimits && hi.dstIp != cfg.gateway && cfg.InMesh(hi.dstIp) && Passes(st, hi))
  {}

  /** The mesh network as a prefix: an address is in it exactly when clearing its host part gives the base. */
  lemma MeshIsPrefix(cfg: Config, ip: u32)
    requires cfg.size > 0 && cfg.base % cfg.size == 0
    ensures cfg.InMesh(ip) <==> ip - ip % cfg.size == cfg.base
  {
    var k, q, r := cfg.base / cfg.size, ip / cfg.size, ip % cfg.size;
    assert cfg.base == k * cfg.size && ip == q * cfg.size + r;
    assert q < k ==> (q + 1) * cfg.size <= k * cfg.size;
    assert q > k ==> (k + 1) * cfg.size <= q * cfg.size;
  }

  function Dotted(a: byte, b: byte, c: byte, d: byte): u32 {
    ((a as int * 0x100 + b as int) * 0x100 + c as int) * 0x100 + d as int
  }

  /** The ranges a client must not reach outside the mesh, as their addresses are written. */
  lemma ForbiddenRanges(a: byte, b: byte, c: byte, d: byte)
    ensures ForbiddenEgress(Dotted(a, b, c, d)) <==>
            || a in {0, 10, 127} || a >= 224
            || (a == 169 && b == 254) || (a == 192 && b == 168) || (a == 172 && 16 <= b < 32)
  {}

  /** An added rule allows its packets at once, and nothing else changes. */
  lemma AddedRuleAllows(cfg: Config, st: State, i: Index, rule: Rule, hi: HoleInfo)
    ensures Passes(Next(cfg, st, AddRule(i, rule)), hi) <==>
            Passes(st, hi) || (i.node != "" && !Occupied(st.rules, i) && Matches(rule, hi))
  {
    if !Occupied(st.rules, i) {
      OneMoreRule(st.rules, i, rule, hi);
    }
  }

  // ----- a packet opens its flow for a minute -----

  /** The packet is let through, or was by the node it came from, and so opens its flow. */
  ghost predicate Opens(cfg: Config, st: State, step: Step) {
    || (step.Mesh? && step.hi.protocol != "")
    || (step.Transport? && OutcomeOf(cfg, st, step.hi, step.withinLimits) == Passed)
  }

  function Elapsed(run: seq<Step>): nat {
    if run == [] then 0 else Elapsed(run[..|run| - 1]) + if run[|run| - 1].Wait? then run[|run| - 1].d else 0
  }

  lemma {:induction false} ClockRuns(cfg: Config, st: State, run: seq<Step>)
    ensures After(cfg, st, run).now == st.now + Elapsed(run)
    decreases |run|
  {
    if run != [] {
      ClockRuns(cfg, st, run[..|run| - 1]);
    }
  }

  ghost predicate OpenUntil(st: State, hi: HoleInfo, until: int) {
    MakeFlowKey(hi) in st.holes && st.holes[MakeFlowKey(hi)].expire >= until
  }

  /** A flow opened at `since` is open for a minute through every run without a removal. */
  lemma {:induction false} StaysOpen(cfg: Config, st: State, run: seq<Step>, hi: HoleInfo, since: int)
    requires OpenUntil(st, hi, since + 60_000_000_000) && since <= st.now
    requires forall s | s in run :: !s.RemoveRule?
    requires st.now + Elapsed(run) < since + 60_000_000_000
    ensures OpenUntil(After(cfg, st, run), hi, since + 60_000_000_000)
    decreases |run|
  {
    hide MakeFlowKey;
    if run != [] {
      var init, last := run[..|run| - 1], run[|run| - 1];
      assert run == init + [last] && last in run;
      StaysOpen(cfg, st, init, hi, since);
      ClockRuns(cfg, st, init);
    }
  }

  /**
   From the packet that opened it, for less than a minute, every packet of the flow passes, both ways, through
   every run without a removal.
   */
  lemma OpenedFlowPasses(cfg: Config, st: State, step: Step, run: seq<Step>, p: HoleInfo)
    requires Opens(cfg, st, step) && SameFlow(step.hi, p)
    requires Elapsed(run) < 60_000_000_000 && forall s | s in run :: !s.RemoveRule?
    ensures Passes(After(cfg, Next(cfg, st, step), run), p)
    ensures Passes(After(cfg, Next(cfg, st, step), run), Reply(p))
  {
    var st1 := Next(cfg, st, step);
    KeyIdentifiesFlow(step.hi, p);
    KeyIdentifiesFlow(p, Reply(p));
    StaysOpen(cfg, st1, run, p, st.now);
    ClockRuns(cfg, st1, run);
  }

  /** The step is a packet of the flow that may open it again. */
  predicate InFlow(step: Step, p: HoleInfo) { (step.Mesh? || step.Transport?) && SameFlow(step.hi, p) }

  ghost predicate GoneBy(st: State, hi: HoleInfo, until: int) {
    MakeFlowKey(hi) in st.holes ==> st.holes[MakeFlowKey(hi)].expire <= until
  }

  lemma {:induction false} StaysGone(cfg: Config, st: State, run: seq<Step>, hi: HoleInfo, until: int)
    requires GoneBy(st, hi, until) && forall s | s in run :: !InFlow(s, hi)
    ensures GoneBy(After(cfg, st, run), hi, until)
    decreases |run|
  {
    if run != [] {
      var init, last := run[..|run| - 1], run[|run| - 1];
      assert run == init + [last] && last in run;
      StaysGone(cfg, st, init, hi, until);
      if last.Mesh? || last.Transport? {
        KeyIdentifiesFlow(last.hi, hi);
      }
      hide MakeFlowKey;
    }
  }

  /** A minute after the last packet that opened it, whatever else happened, only the rules decide. */
  lemma OpenedFlowExpires(cfg: Config, st: State, step: Step, run: seq<Step>, p: HoleInfo)
    requires Opens(cfg, st, step) && SameFlow(step.hi, p)
    requires Elapsed(run) >= 60_000_000_000 && forall s | s in run :: !InFlow(s, p)
    ensures var end := After(cfg, Next(cfg, st, step), run); Passes(end, p) <==> RulesAllow(end.rules, p)
  {
    var st1 := Next(cfg, st, step);
    KeyIdentifiesFlow(step.hi, p);
    StaysGone(cfg, st1, run, p, st.now + 60_000_000_000);
    ClockRuns(cfg, st1, run);
  }

  // ----- nothing passes without a rule -----

  ghost predicate Justified(st: State, meshed: set<string>) {
    && HolesKeyed(st.holes)
    && forall k | k in st.holes :: k in meshed || EitherWay(st.rules, st.holes[k].info)
  }

  function MeshedBy(step: Step): set<string> { if step.Mesh? then {MakeFlowKey(step.hi)} else {} }

  function MeshedIn(run: seq<Step>): set<string> {
    if run == [] then {} else MeshedIn(run[..|run| - 1]) + MeshedBy(run[|run| - 1])
  }

  lemma StepKeepsJustified(cfg: Config, st: State, step: Step, meshed: set<string>)
    requires Justified(st, meshed)
    ensures Justified(Next(cfg, st, step), meshed + MeshedBy(step))
  {
    hide MakeFlowKey;
    var st' := Next(cfg, st, step);
    forall k | k in st'.holes
      ensures k in meshed + MeshedBy(step) || EitherWay(st'.rules, st'.holes[k].info)
    {
      match step
      case Transport(hi, within) =>
        if st'.holes[k] == Hole(st.now + HOLE_LIFETIME, hi) && k == MakeFlowKey(hi) && Open(st.holes, hi, st.now) {
          KeyIdentifiesFlow(hi, st.holes[k].info);
          FlowShareRules(st.rules, hi, st.holes[k].info);
        }
      case AddRule(i, rule) =>
        if !Occupied(st.rules, i) {
          OneMoreRule(st.rules, i, rule, st.holes[k].info);
          OneMoreRule(st.rules, i, rule, Reply(st.holes[k].info));
        }
      case _ =>
    }
  }

  lemma {:induction false} RunKeepsJustified(cfg: Config, st: State, run: seq<Step>)
    requires st.holes == map[]
    ensures Justified(After(cfg, st, run), MeshedIn(run))
    decreases |run|
  {
    if run != [] {
      var init, last := run[..|run| - 1], run[|run| - 1];
      RunKeepsJustified(cfg, st, init);
      StepKeepsJustified(cfg, After(cfg, st, init), last, MeshedIn(init));
    }
  }

  /**
   In every run from an engine without holes, a packet passes only if the rules of that very moment
   allow its flow in one of the two directions, or a mesh packet of the flow came earlier.
   */
  lemma PassedMeansAllowed(cfg: Config, st: State, run: seq<Step>, hi: HoleInfo)
    requires st.holes == map[]
    ensures var here := After(cfg, st, run);
            Passes(here, hi) ==> EitherWay(here.rules, hi) || MakeFlowKey(hi) in MeshedIn(run)
  {
    RunKeepsJustified(cfg, st, run);
    var here := After(cfg, st, run);
    if Open(here.holes, hi, here.now) {
      var info := here.holes[MakeFlowKey(hi)].info;
      KeyIdentifiesFlow(hi, info);
      FlowShareRules(here.rules, hi, info);
    }
  }

  // ----- closed flows stay closed -----

  ghost predicate Closed(st: State, hi: HoleInfo) {
    HolesKeyed(st.holes) && MakeFlowKey(hi) !in st.holes && !EitherWay(st.rules, hi)
  }

  /** The only two events that can open a closed flow again. */
  predicate Reopens(step: Step, hi: HoleInfo) {
    || (step.AddRule? && (Matches(step.rule, hi) || Matches(step.rule, Reply(hi))))
    || (step.Mesh? && SameFlow(step.hi, hi))
  }

  /** Removing a rule closes exactly the flows it leaves without one, hole or no hole. */
  lemma RemovalCloses(cfg: Config, st: State, i: Index, hi: HoleInfo)
    requires HolesKeyed(st.holes) && Occupied(st.rules, i)
    ensures Closed(Next(cfg, st, RemoveRule(i)), hi) || EitherWay(Vacated(st.rules, i), hi)
  {
    var st' := Next(cfg, st, RemoveRule(i));
    var key := MakeFlowKey(hi);
    if key in st'.holes {
      KeyIdentifiesFlow(hi, st'.holes[key].info);
      FlowShareRules(st'.rules, hi, st'.holes[key].info);
    }
  }

  lemma StepKeepsClosed(cfg: Config, st: State, step: Step, hi: HoleInfo)
    requires Closed(st, hi) && !Reopens(step, hi)
    ensures Closed(Next(cfg, st, step), hi)
    ensures step.Transport? && SameFlow(step.hi, hi) && Filtered(cfg, step.hi) ==>
              OutcomeOf(cfg, st, step.hi, step.withinLimits) == Dropped
  {
    match step
    case Transport(p, within) =>
      KeyIdentifiesFlow(p, hi);
      if SameFlow(p, hi) {
        FlowShareRules(st.rules, p, hi);
      }
    case Mesh(p) => KeyIdentifiesFlow(p, hi);
    case AddRule(i, rule) =>
      if !Occupied(st.rules, i) {
        OneMoreRule(st.rules, i, rule, hi);
        OneMoreRule(st.rules, i, rule, Reply(hi));
      }
    case RemoveRule(i) =>
      FewerRules(st.rules, i, hi);
      FewerRules(st.rules, i, Reply(hi));
    case _ =>
  }

  /** A closed flow is refused in both directions through any run that does not reopen it. */
  lemma {:induction false} ClosedFlowStaysClosed(cfg: Config, st: State, run: seq<Step>, hi: HoleInfo)
    requires Closed(st, hi) && forall s | s in run :: !Reopens(s, hi)
    ensures Closed(After(cfg, st, run), hi)
    ensures forall k | 0 <= k < |run| && run[k].Transport? && SameFlow(run[k].hi, hi) && Filtered(cfg, run[k].hi) ::
              OutcomeOf(cfg, After(cfg, st, run[..k]), run[k].hi, run[k].withinLimits) == Dropped
    decreases |run|
  {
    if run != [] {
      var init, last := run[..|run| - 1], run[|run| - 1];
      ClosedFlowStaysClosed(cfg, st, init, hi);
      StepKeepsClosed(cfg, After(cfg, st, init), last, hi);
      forall k | 0 <= k < |run| && run[k].Transport? && SameFlow(run[k].hi, hi) && Filtered(cfg, run[k].hi)
        ensures OutcomeOf(cfg, After(cfg, st, run[..k]), run[k].hi, run[k].withinLimits) == Dropped
      {
        if k < |init| {
          assert run[..k] == init[..k] && run[k] == init[k];
        }
      }
    }
  }

  /** Once a removal leaves a flow without a rule, it is refused from then on. */
  lemma RemovedFlowIsRefused(cfg: Config, st: State, i: Index, run: seq<Step>, hi: HoleInfo)
    requires HolesKeyed(st.holes) && Occupied(st.rules, i) && !EitherWay(Vacated(st.rules, i), hi)
    requires forall s | s in run :: !Reopens(s, hi)
    ensures var shut := Next(cfg, st, RemoveRule(i));
            && !Passes(After(cfg, shut, run), hi) && !Passes(After(cfg, shut, run), Reply(hi))
  {
    var shut := Next(cfg, st, RemoveRule(i));
    RemovalCloses(cfg, st, i, hi);
    ClosedFlowStaysClosed(cfg, shut, run, hi);
    KeyIdentifiesFlow(hi, Reply(hi));
    assert Reply(Reply(hi)) == hi;
  }

  // ----- a removal and the flows it does not concern -----

  /** Two packets of a flow going the same way; icmp packets have no ports to tell them apart by. */
  predicate SameWay(a: HoleInfo, b: HoleInfo) {
    && a.srcIp == b.srcIp && a.dstIp == b.dstIp
    && (b.protocol != "icmp" ==> a.srcPort == b.srcPort && a.dstPort == b.dstPort)
  }

  /** After a removal a packet passes exactly by the rules left or by a hole whose stored direction they allow. */
  lemma PassesAfterRemovalIff(cfg: Config, st: State, i: Index, hi: HoleInfo)
    requires Occupied(st.rules, i)
    ensures var left := Vacated(st.rules, i);
            Passes(Next(cfg, st, RemoveRule(i)), hi) <==>
            || RulesAllow(left, hi)
            || (Open(st.holes, hi, st.now) && RulesAllow(left, st.holes[MakeFlowKey(hi)].info))
  {}

  /** An open flow allowed one way keeps its replies through a removal exactly when that way was punched last. */
  lemma RepliesSurviveRemovalIff(cfg: Config, st: State, i: Index, hi: HoleInfo)
    requires HolesKeyed(st.holes) && Occupied(st.rules, i) && Open(st.holes, hi, st.now)
    requires RulesAllow(Vacated(st.rules, i), hi) && !RulesAllow(Vacated(st.rules, i), Reply(hi))
    ensures Passes(Next(cfg, st, RemoveRule(i)), Reply(hi)) <==> SameWay(st.holes[MakeFlowKey(hi)].info, hi)
  {
    var key := MakeFlowKey(hi);
    var info, left := st.holes[key].info, Vacated(st.rules, i);
    KeyIdentifiesFlow(hi, info);
    KeyIdentifiesFlow(hi, Reply(hi));
    assert Reply(Reply(hi)) == hi;
    if SameWay(info, hi) {
      SameWayAllowed(left, hi, info);
    } else {
      SameWayAllowed(left, Reply(hi), info);
    }
  }

  /** The rules cannot tell packets of a flow apart that go the same way. */
  lemma SameWayAllowed(rules: Rules, a: HoleInfo, b: HoleInfo)
    requires a.protocol == b.protocol && SameWay(a, b)
    ensures RulesAllow(rules, a) <==> RulesAllow(rules, b)
  {
    forall i | i in rules ensures Matches(rules[i], a) <==> Matches(rules[i], b) {}
  }

  /** So the removal of an unrelated rule refuses the replies of a flow whose last packet was a reply. */
  lemma UnrelatedRemovalStopsReplies(cfg: Config)
    requires cfg.gateway == 1 && cfg.base == 0 && cfg.size == 1000
    ensures var hi := HoleInfo(100, 200, 5000, 443, "tcp");
            var rules := map[Index("n", 1) := Rule(200, None, "tcp", 443, None),
                             Index("n", 2) := Rule(201, None, "tcp", 80, None)];
            var sent := Next(cfg, State(rules, map[], 0), Transport(hi, true));
            var replied := Next(cfg, sent, Transport(Reply(hi), true));
            var removed := Next(cfg, replied, RemoveRule(Index("n", 2)));
            Passes(sent, Reply(hi)) && Passes(replied, Reply(hi)) && !Passes(removed, Reply(hi)) && Passes(removed, hi)
  {
    hide MakeFlowKey;
    var hi := HoleInfo(100, 200, 5000, 443, "tcp");
    var rules := map[Index("n", 1) := Rule(200, None, "tcp", 443, None),
                     Index("n", 2) := Rule(201, None, "tcp", 80, None)];
    var st := State(rules, map[], 0);
    assert Index("n", 1) in rules && Matches(rules[Index("n", 1)], hi);
    KeyIdentifiesFlow(hi, Reply(hi));
    var sent := Next(cfg, st, Transport(hi, true));
    var replied := Next(cfg, sent, Transport(Reply(hi), true));
    assert replied.holes[MakeFlowKey(hi)].info == Reply(hi) != hi;
    var left := Vacated(rules, Index("n", 2));
    assert SameSlot(Index("n", 2), Index("n", 2));
    assert left == map[Index("n", 1) := Rule(200, None, "tcp", 443, None)];
    assert RulesAllow(left, hi) by {
      assert Index("n", 1) in left && Matches(left[Index("n", 1)], hi);
    }
    RepliesSurviveRemovalIff(cfg, replied, Index("n", 2), hi);
  }
}
