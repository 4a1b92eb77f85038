/**
 Reconciling a node's copies with what a peer reports. Each rule and each client
 has an owner, the node it lives on; a peer's dump decides about the peer's own
 entries, never about ours, and can only add to those of third nodes.
 */
module Reconcile {
  import opened Common
  import opened Firewall
  import opened Slots

  // ----- rules on the wire -----

  /** A rule as sent between nodes: ports are 32 bits wide there. */
  datatype WireRule = WireRule(index: Index, address: u32, target: Option<u32>, protocol: string,
                               portStart: u32, portEnd: Option<u32>)

  function ToWire(i: Index, r: Rule): WireRule {
    WireRule(i, r.address, r.target, r.protocol, r.portStart,
             if r.portEnd.Some? then Some(r.portEnd.value as u32) else None)
  }

  /** The receiver truncates the ports to 16 bits. */
  function FromWire(w: WireRule): Rule {
    Rule(w.address, w.target, w.protocol, w.portStart % 0x1_0000,
         if w.portEnd.Some? then Some(w.portEnd.value % 0x1_0000) else None)
  }

  lemma WireRoundTrip(i: Index, r: Rule)
    ensures FromWire(ToWire(i, r)) == r && ToWire(i, r).index == i
  {}

  /** Of a wider port the low sixteen bits count. */
  lemma PortsKeepLowBits(w: WireRule, high: u16, low: u16)
    requires w.portStart == high * 0x1_0000 + low
    ensures FromWire(w).portStart == low
    ensures w.portEnd == Some(high as int * 0x1_0000 + low as int) ==> FromWire(w).portEnd == Some(low)
  {}

  function RuleOf(rules: Rules, i: Index): Option<Rule> { if i in rules then Some(rules[i]) else None }

  /** The first rule a dump gives under an index. */
  function FirstFor(dump: seq<WireRule>, i: Index): Option<Rule> {
    if dump == [] then None
    else
      var earlier := FirstFor(dump[..|dump| - 1], i);
      var last := dump[|dump| - 1];
      if earlier.None? && last.index == i then Some(FromWire(last)) else earlier
  }

  /** The first rule a dump gives for a slot. */
  function FirstInSlot(dump: seq<WireRule>, i: Index): Option<WireRule> {
    if dump == [] then None
    else
      var earlier := FirstInSlot(dump[..|dump| - 1], i);
      var last := dump[|dump| - 1];
      if earlier.None? && SameSlot(last.index, i) then Some(last) else earlier
  }

  /** What a node holds under `i` after learning `dump`, before anything is removed. */
  function Learned(localId: string, rules: Rules, dump: seq<WireRule>, i: Index): Option<Rule> {
    if Occupied(rules, i) then RuleOf(rules, i)
    else if i.node == localId || i.node == "" then None
    else match FirstInSlot(dump, i)
         case None => None
         case Some(w) => if w.index == i then Some(FromWire(w)) else None
  }

  /** What it holds after the whole reconciliation with `peer`. */
  function Settled(localId: string, peer: string, rules: Rules, dump: seq<WireRule>, i: Index): Option<Rule> {
    if i.node == peer && FirstFor(dump, i).None? then None else Learned(localId, rules, dump, i)
  }

  // ----- routes -----

  /** Which node each virtual address is reached through. */
  type Routes = map<u32, string>

  datatype ClientInfo = ClientInfo(ip: u32, node: string)

  function RouteOf(routes: Routes, ip: u32): Option<string> { if ip in routes then Some(routes[ip]) else None }

  /** The last node a dump gives for an address. */
  function LastFor(dump: seq<ClientInfo>, ip: u32): Option<string> {
    if dump == [] then None
    else if dump[|dump| - 1].ip == ip then Some(dump[|dump| - 1].node)
    else LastFor(dump[..|dump| - 1], ip)
  }

  predicate Reports(dump: seq<ClientInfo>, peer: string, ip: u32) { ClientInfo(ip, peer) in dump }

  /** One report about an address: our own route is never taken, and a route is never turned into ours. */
  function Reported(localId: string, route: Option<string>, node: string): Option<string> {
    if route == Some(localId) then route else if node == localId then None else Some(node)
  }

  /** The route to `ip` after learning `dump`: ours is never taken, others go to the last reported node. */
  function LearnedRoute(localId: string, route: Option<string>, dump: seq<ClientInfo>, ip: u32): Option<string> {
    if route == Some(localId) then route
    else match LastFor(dump, ip)
         case None => route
         case Some(node) => if node == localId then None else Some(node)
  }

  /** And after the whole reconciliation with `peer`. */
  function SettledRoute(localId: string, peer: string, route: Option<string>, dump: seq<ClientInfo>, ip: u32)
    : Option<string>
  {
    var learned := LearnedRoute(localId, route, dump, ip);
    if learned == Some(peer) && LastFor(dump, ip).None? then None else learned
  }

  /** The reconciling side of a node: its copy of the rules and its routing table. */
  class Syncer {
    const localId: string
    var rules: Rules
    var routes: Routes

    constructor (localId: string)
      ensures this.localId == localId && rules == map[] && routes == map[]
    {
      this.localId := localId;
      rules, routes := map[], map[];
    }

    /** An ADDED event, or a dump entry not held yet. Our own rules are only made by us. */
    method AddRemoteRule(ev: WireRule)
      modifies this`rules
      ensures rules == if ev.index.node == localId then old(rules) else Filled(old(rules), ev.index, FromWire(ev))
    {
      if ev.index.node == localId {
        return;
      }
      if ev.index.node != "" && !Occupied(rules, ev.index) {
        rules := rules[ev.index := FromWire(ev)];
      }
    }

    /** A REMOVED event. */
    method DeleteRemoteRule(index: Index)
      modifies this`rules
      ensures rules == Vacated(old(rules), index)
    {
      rules := Vacated(rules, index);
    }

    method SyncRules(peer: string, dump: seq<WireRule>)
      requires peer != localId && OnePerSlot(rules)
      modifies this`rules
      ensures forall i :: RuleOf(rules, i) == Settled(localId, peer, old(rules), dump, i)
      ensures OnePerSlot(rules)
    {
      var alive: set<u64> := {};
      for n := 0 to |dump|
        invariant forall id: u64 :: id in alive <==> FirstFor(dump[..n], Index(peer, id)).Some?
        invariant forall i :: RuleOf(rules, i) == Learned(localId, old(rules), dump[..n], i)
        invariant OnePerSlot(rules)
      {
        var ev := dump[n];
        assert dump[..n + 1][..n] == dump[..n];
        ghost var before := rules;
        if ev.index.node == peer {
          alive := alive + {ev.index.rule};
        }
        if !Occupied(rules, ev.index) {
          AddRemoteRule(ev);
        }
        LearnOne(localId, old(rules), before, dump[..n], ev);
        assert dump[..n + 1] == dump[..n] + [ev];
      }
      assert dump[..|dump|] == dump;
      DropStaleRules(peer, alive);
    }

    /** The sweep over a dump of the rules, in any order. */
    method DropStaleRules(peer: string, alive: set<u64>)
      requires OnePerSlot(rules)
      modifies this`rules
      ensures OnePerSlot(rules)
      ensures forall i :: RuleOf(rules, i) ==
                if i.node == peer && i.rule !in alive then None else RuleOf(old(rules), i)
    {
      var todo := rules.Keys;
      while todo != {}
        invariant todo <= rules.Keys && OnePerSlot(rules)
        invariant forall i :: RuleOf(rules, i) ==
                    if i !in todo && i.node == peer && i.rule !in alive then None else RuleOf(old(rules), i)
        decreases todo
      {
        var i :| i in todo;
        todo := todo - {i};
        if i.node == peer && i.rule !in alive {
          VacateStored(rules, i);
          DeleteRemoteRule(i);
        }
      }
    }

    /** An ADDED client event; the table refuses an address it already has. */
    method AddRemoteRoute(ev: ClientInfo)
      modifies this`routes
      ensures routes == if ev.node == localId || ev.ip in old(routes) then old(routes)
                        else old(routes)[ev.ip := ev.node]
    {
      if ev.node == localId {
        return;
      }
      if ev.ip !in routes {
        routes := routes[ev.ip := ev.node];
      }
    }

    /** A REMOVED client event; whose route it is does not matter. */
    method DeleteRemoteRoute(ev: ClientInfo)
      modifies this`routes
      ensures routes == old(routes) - {ev.ip}
    {
      routes := routes - {ev.ip};
    }

    method SyncPeerObject(ev: ClientInfo)
      modifies this`routes
      ensures forall ip :: RouteOf(routes, ip) ==
                if ip == ev.ip then Reported(localId, RouteOf(old(routes), ip), ev.node) else RouteOf(old(routes), ip)
    {
      if ev.ip !in routes {
        AddRemoteRoute(ev);
        return;
      }
      if routes[ev.ip] == localId {
        return;
      }
      if routes[ev.ip] != ev.node {
        DeleteRemoteRoute(ev);
        AddRemoteRoute(ev);
      }
    }

    method SyncClients(peer: string, dump: seq<ClientInfo>)
      requires peer != localId
      modifies this`routes
      ensures forall ip :: RouteOf(routes, ip) == SettledRoute(localId, peer, RouteOf(old(routes), ip), dump, ip)
    {
      var alive: set<u32> := {};
      for n := 0 to |dump|
        invariant forall ip: u32 :: ip in alive <==> Reports(dump[..n], peer, ip)
        invariant forall ip :: RouteOf(routes, ip) == LearnedRoute(localId, RouteOf(old(routes), ip), dump[..n], ip)
      {
        var ev := dump[n];
        assert dump[..n + 1] == dump[..n] + [ev];
        ghost var before := routes;
        if ev.node == peer {
          alive := alive + {ev.ip};
        }
        SyncPeerObject(ev);
        assert dump[..n + 1][..n] == dump[..n];
        forall ip ensures RouteOf(routes, ip) == LearnedRoute(localId, RouteOf(old(routes), ip), dump[..n + 1], ip) {
          assert RouteOf(before, ip) == LearnedRoute(localId, RouteOf(old(routes), ip), dump[..n], ip);
        }
      }
      assert dump[..|dump|] == dump;
      DropStaleRoutes(peer, alive);
      forall ip ensures RouteOf(routes, ip) == SettledRoute(localId, peer, RouteOf(old(routes), ip), dump, ip) {
        LastIsReported(dump, ip);
      }
    }

    method DropStaleRoutes(peer: string, alive: set<u32>)
      modifies this`routes
      ensures forall ip :: RouteOf(routes, ip) ==
                if RouteOf(old(routes), ip) == Some(peer) && ip !in alive then None else RouteOf(old(routes), ip)
    {
      var todo := routes.Keys;
      while todo != {}
        invariant todo <= routes.Keys
        invariant forall ip :: RouteOf(routes, ip) ==
                    if ip !in todo && RouteOf(old(routes), ip) == Some(peer) && ip !in alive then None
                    else RouteOf(old(routes), ip)
        decreases todo
      {
        var ip :| ip in todo;
        todo := todo - {ip};
        if routes[ip] == peer && ip !in alive {
          routes := routes - {ip};
        }
      }
    }
  }

  lemma {:induction false} LastIsReported(dump: seq<ClientInfo>, ip: u32)
    ensures LastFor(dump, ip).Some? ==> Reports(dump, LastFor(dump, ip).value, ip)
    ensures LastFor(dump, ip).None? ==> forall node :: !Reports(dump, node, ip)
    decreases |dump|
  {
    if dump != [] {
      var init, last := dump[..|dump| - 1], dump[|dump| - 1];
      LastIsReported(init, ip);
      assert dump == init + [last];
      assert forall node :: Reports(dump, node, ip) <==> Reports(init, node, ip) || last == ClientInfo(ip, node);
    }
  }

  // ----- owner authority -----

  lemma {:induction false} FirstForMentions(dump: seq<WireRule>, i: Index)
    ensures FirstFor(dump, i).Some? <==> exists w | w in dump :: w.index == i
    ensures FirstFor(dump, i).Some? ==> exists w | w in dump :: w.index == i && FromWire(w) == FirstFor(dump, i).value
    decreases |dump|
  {
    if dump != [] {
      var init, last := dump[..|dump| - 1], dump[|dump| - 1];
      FirstForMentions(init, i);
      assert dump == init + [last];
      assert last in dump && forall w | w in init :: w in dump;
    }
  }

  lemma {:induction false} FirstInSlotIs(dump: seq<WireRule>, i: Index)
    ensures FirstInSlot(dump, i).Some? <==> exists w | w in dump :: SameSlot(w.index, i)
    ensures FirstInSlot(dump, i).Some? ==> FirstInSlot(dump, i).value in dump
    ensures FirstInSlot(dump, i).Some? ==> SameSlot(FirstInSlot(dump, i).value.index, i)
    ensures FirstInSlot(dump, i).Some? && FirstInSlot(dump, i).value.index == i ==>
              FirstFor(dump, i) == Some(FromWire(FirstInSlot(dump, i).value))
    decreases |dump|
  {
    if dump != [] {
      var init, last := dump[..|dump| - 1], dump[|dump| - 1];
      FirstInSlotIs(init, i);
      FirstForMentions(init, i);
      assert dump == init + [last];
      assert last in dump && forall w | w in init :: w in dump;
    }
  }

  lemma {:induction false} SameFirst(dump: seq<WireRule>, i: Index, j: Index)
    requires SameSlot(i, j)
    ensures FirstInSlot(dump, i) == FirstInSlot(dump, j)
    decreases |dump|
  {
    if dump != [] {
      SameFirst(dump[..|dump| - 1], i, j);
    }
  }

  /** One entry of a dump: it is added exactly when its slot is free. */
  lemma LearnOne(localId: string, rules: Rules, now: Rules, dump: seq<WireRule>, ev: WireRule)
    requires forall i :: RuleOf(now, i) == Learned(localId, rules, dump, i)
    ensures var after := if ev.index.node == localId then now else Filled(now, ev.index, FromWire(ev));
            forall i :: RuleOf(after, i) == Learned(localId, rules, dump + [ev], i)
  {
    var after := if ev.index.node == localId then now else Filled(now, ev.index, FromWire(ev));
    assert (dump + [ev])[..|dump|] == dump;
    SlotsLearned(localId, rules, now, dump, ev.index);
    forall i ensures RuleOf(after, i) == Learned(localId, rules, dump + [ev], i) {
      assert RuleOf(now, i) == Learned(localId, rules, dump, i);
      if SameSlot(i, ev.index) {
        SameFirst(dump, i, ev.index);
        SameFirst(dump + [ev], i, ev.index);
      }
    }
  }

  /** A slot is occupied after learning exactly when it was before or the dump fills it. */
  lemma SlotsLearned(localId: string, rules: Rules, now: Rules, dump: seq<WireRule>, i: Index)
    requires forall j :: RuleOf(now, j) == Learned(localId, rules, dump, j)
    ensures Occupied(now, i) <==>
            Occupied(rules, i) || (i.node != localId && i.node != "" && FirstInSlot(dump, i).Some?)
  {
    FirstInSlotIs(dump, i);
    if j :| j in rules && SameSlot(j, i) {
      assert Occupied(rules, j);
      assert RuleOf(now, j) == Learned(localId, rules, dump, j);
      assert j in now;
    } else if i.node != localId && i.node != "" && FirstInSlot(dump, i).Some? {
      var j := FirstInSlot(dump, i).value.index;
      SameFirst(dump, i, j);
      assert RuleOf(now, j) == Learned(localId, rules, dump, j);
      assert j in now;
    }
    if j :| j in now && SameSlot(j, i) {
      assert RuleOf(now, j) == Learned(localId, rules, dump, j);
      SameFirst(dump, i, j);
    }
  }

  /** The number that has the slot of `i`, in the copy or else first in the dump, is `i` itself. */
  predicate Holds(before: Rules, dump: seq<WireRule>, i: Index) {
    if Occupied(before, i) then i in before else FirstInSlot(dump, i).Some? && FirstInSlot(dump, i).value.index == i
  }

  /**
   A reconciliation leaves our rules untouched, and those of third nodes only grow, by what the peer reported.
   The peer's own become exactly the reported ones if and only if each reported number has its slot to itself.
   */
  lemma DumpDecidesPeerRules(localId: string, peer: string, before: Rules, dump: seq<WireRule>, after: Rules)
    requires peer != localId && peer != ""
    requires forall i :: RuleOf(after, i) == Settled(localId, peer, before, dump, i)
    ensures (forall id: u64 :: Index(peer, id) in after <==> exists w | w in dump :: w.index == Index(peer, id))
            <==> forall w | w in dump && w.index.node == peer :: Holds(before, dump, w.index)
    ensures forall i: Index | i.node == localId :: RuleOf(after, i) == RuleOf(before, i)
    ensures forall i | i in before && i.node != peer :: i in after && after[i] == before[i]
    ensures forall i | i in after && i !in before ::
              i.node != "" && exists w | w in dump :: w.index == i && FromWire(w) == after[i]
    ensures forall w | w in dump && w.index.node !in {localId, "", peer} :: Occupied(after, w.index)
  {
    forall id: u64
      ensures Index(peer, id) in after <==>
              (exists w | w in dump :: w.index == Index(peer, id)) && Holds(before, dump, Index(peer, id))
    {
      FirstForMentions(dump, Index(peer, id));
      assert RuleOf(after, Index(peer, id)) == Settled(localId, peer, before, dump, Index(peer, id));
    }
    if forall id: u64 :: Index(peer, id) in after <==> exists w | w in dump :: w.index == Index(peer, id) {
      forall w | w in dump && w.index.node == peer ensures Holds(before, dump, w.index) {
        assert w.index == Index(peer, w.index.rule);
      }
    }
    forall i: Index ensures i in before && i.node != peer ==> i in after && after[i] == before[i] {
      assert i in before ==> Occupied(before, i) by {
        assert SameSlot(i, i);
      }
      assert RuleOf(after, i) == Settled(localId, peer, before, dump, i);
    }
    forall i: Index | i.node == localId ensures RuleOf(after, i) == RuleOf(before, i) {
      assert i in before ==> SameSlot(i, i);
      assert RuleOf(after, i) == Settled(localId, peer, before, dump, i);
    }
    forall i | i in after && i !in before
      ensures i.node != "" && exists w | w in dump :: w.index == i && FromWire(w) == after[i]
    {
      FirstInSlotIs(dump, i);
      assert RuleOf(after, i) == Settled(localId, peer, before, dump, i);
    }
    forall w | w in dump && w.index.node !in {localId, "", peer} ensures Occupied(after, w.index) {
      ThirdNodeFills(localId, peer, before, dump, after, w);
    }
  }

  /** What a peer reports of a third node is learned, unless its slot is taken already. */
  lemma ThirdNodeFills(localId: string, peer: string, before: Rules, dump: seq<WireRule>, after: Rules, w: WireRule)
    requires forall i :: RuleOf(after, i) == Settled(localId, peer, before, dump, i)
    requires w in dump && w.index.node !in {localId, "", peer}
    ensures Occupied(after, w.index)
  {
    assert SameSlot(w.index, w.index);
    FirstInSlotIs(dump, w.index);
    var j := if Occupied(before, w.index) then (var j :| j in before && SameSlot(j, w.index); j)
             else FirstInSlot(dump, w.index).value.index;
    SameFirst(dump, w.index, j);
    assert Occupied(before, j) <==> Occupied(before, w.index) by {
      if Occupied(before, j) {
        var k :| k in before && SameSlot(k, j);
        assert SameSlot(k, w.index);
      }
    }
    assert RuleOf(after, j) == Settled(localId, peer, before, dump, j);
    assert j in after;
  }

  /** Numbers of at most 48 bits do. */
  lemma NarrowDumpDecides(peer: string, before: Rules, dump: seq<WireRule>)
    requires Narrow(before, peer) && forall w | w in dump && w.index.node == peer :: w.index.rule < RULE_IDS
    ensures forall w | w in dump && w.index.node == peer :: Holds(before, dump, w.index)
  {
    forall w | w in dump && w.index.node == peer ensures Holds(before, dump, w.index) {
      NarrowSlots(before, w.index);
      FirstInSlotIs(dump, w.index);
      assert SameSlot(w.index, w.index);
    }
  }

  /** A number that shares the slot of one already held ends with neither of them. */
  lemma SharedSlotLosesBoth(localId: string, peer: string, rule: Rule, after: Rules)
    requires peer != localId && peer != ""
    requires var before, dump := map[Index(peer, 5) := rule], [ToWire(Index(peer, RULE_IDS + 5), rule)];
             forall i :: RuleOf(after, i) == Settled(localId, peer, before, dump, i)
    ensures after == map[]
  {
    var before, dump := map[Index(peer, 5) := rule], [ToWire(Index(peer, RULE_IDS + 5), rule)];
    forall i: Index ensures i !in after {
      FirstForMentions(dump, i);
      FirstInSlotIs(dump, i);
      assert RuleOf(after, i) == Settled(localId, peer, before, dump, i);
      assert SameSlot(Index(peer, 5), Index(peer, RULE_IDS + 5));
    }
  }

  /** The peer's routes become exactly the addresses it was the last to be reported for, except ours. */
  lemma DumpDecidesPeerRoutes(localId: string, peer: string, before: Routes, dump: seq<ClientInfo>, after: Routes)
    requires peer != localId
    requires forall ip :: RouteOf(after, ip) == SettledRoute(localId, peer, RouteOf(before, ip), dump, ip)
    ensures forall ip: u32 :: RouteOf(after, ip) == Some(peer) <==>
              LastFor(dump, ip) == Some(peer) && RouteOf(before, ip) != Some(localId)
    ensures forall ip: u32 :: RouteOf(after, ip) == Some(localId) <==> RouteOf(before, ip) == Some(localId)
    ensures forall ip: u32 | LastFor(dump, ip).None? && RouteOf(before, ip) != Some(peer) ::
              RouteOf(after, ip) == RouteOf(before, ip)
    ensures forall ip: u32 | LastFor(dump, ip).Some? && RouteOf(before, ip) != Some(localId) ::
              RouteOf(after, ip) == if LastFor(dump, ip) == Some(localId) then None else LastFor(dump, ip)
  {
    assert forall ip :: RouteOf(after, ip) == SettledRoute(localId, peer, RouteOf(before, ip), dump, ip);
  }

  /** With one entry per address the last report is the only one. */
  lemma {:induction false} DistinctReports(dump: seq<ClientInfo>, k: nat)
    requires k < |dump| && forall x, y | 0 <= x < y < |dump| :: dump[x].ip != dump[y].ip
    ensures LastFor(dump, dump[k].ip) == Some(dump[k].node)
    decreases |dump|
  {
    if k < |dump| - 1 {
      DistinctReports(dump[..|dump| - 1], k);
    }
  }

  /** A removal is obeyed whoever owns the route: local clients keep theirs exactly when it names another address. */
  lemma RemovalSparesLocalsIff(localId: string, routes: Routes, ev: ClientInfo)
    ensures (forall ip | RouteOf(routes, ip) == Some(localId) :: RouteOf(routes - {ev.ip}, ip) == Some(localId))
            <==> RouteOf(routes, ev.ip) != Some(localId)
  {
    if RouteOf(routes, ev.ip) != Some(localId) {
      forall ip | RouteOf(routes, ip) == Some(localId) ensures RouteOf(routes - {ev.ip}, ip) == Some(localId) {}
    } else {
      assert RouteOf(routes - {ev.ip}, ev.ip) == None;
    }
  }
}
