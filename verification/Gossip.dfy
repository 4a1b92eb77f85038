/**
 What every run of the gossip store keeps: one freshness per address, freshness
 that never goes back, an event log that replays to the table, and convergence
 to a closed form that does not depend on the order or repetition of updates.
 */
module Gossip {
  import opened Common
  import opened Topology

  datatype Op = Insert(u: PeerInfo) | Drop(id: string)

  function Step(peers: Peers, op: Op): Peers {
    match op
    case Insert(u) => Merge(peers, u)
    case Drop(id) => peers - {id}
  }

  function Run(peers: Peers, ops: seq<Op>): Peers {
    if ops == [] then peers else Step(Run(peers, ops[..|ops| - 1]), ops[|ops| - 1])
  }

  /** Records that share a non-empty address were seen at the same time. */
  ghost predicate Grouped(peers: Peers) {
    forall a, b | a in peers && b in peers && peers[a].address == peers[b].address != "" ::
      peers[a].lastSeen == peers[b].lastSeen
  }

  lemma MergeKeepsGroups(peers: Peers, u: PeerInfo)
    requires Keyed(peers) && Grouped(peers)
    ensures Keyed(Merge(peers, u)) && Grouped(Merge(peers, u))
  {
    var after := Merge(peers, u);
    forall a, b | a in after && b in after && after[a].address == after[b].address != ""
      ensures after[a].lastSeen == after[b].lastSeen
    {
      var keep := Combined(peers, u);
      if after != peers && u.id in {a, b} && a != b {
        var c := if a == u.id then b else a;
        assert c in Rivals(peers, keep) && c !in Staler(peers, keep);
        assert c !in Fresher(peers, keep);
      }
    }
  }

  /** Every table reachable from one with one freshness per address, such as the empty one, has that too. */
  lemma {:induction false} ReachableIsGrouped(peers: Peers, ops: seq<Op>)
    requires Keyed(peers) && Grouped(peers)
    ensures Keyed(Run(peers, ops)) && Grouped(Run(peers, ops))
    decreases |ops|
  {
    if ops != [] {
      ReachableIsGrouped(peers, ops[..|ops| - 1]);
      var last := ops[|ops| - 1];
      if last.Insert? {
        MergeKeepsGroups(Run(peers, ops[..|ops| - 1]), last.u);
      }
    }
  }

  ghost predicate StaysPresent(peers: Peers, ops: seq<Op>, id: string) {
    forall k | 0 <= k <= |ops| :: id in Run(peers, ops[..k])
  }

  /** While a peer stays in the table its last-seen time never decreases. */
  lemma {:induction false} LastSeenNeverDecreases(peers: Peers, ops: seq<Op>, id: string)
    requires StaysPresent(peers, ops, id)
    ensures id in peers && id in Run(peers, ops) && peers[id].lastSeen <= Run(peers, ops)[id].lastSeen
    decreases |ops|
  {
    assert ops[..|ops|] == ops && Run(peers, ops[..0]) == peers;
    if ops != [] {
      var init := ops[..|ops| - 1];
      forall k | 0 <= k <= |init| ensures id in Run(peers, init[..k]) {
        assert init[..k] == ops[..k];
      }
      LastSeenNeverDecreases(peers, init, id);
    }
  }

  /** A peer still in the table after an update with an address is at that address, wherever it was before. */
  lemma MergeSetsAddress(peers: Peers, u: PeerInfo)
    requires u.id != "" && u.address != "" && u.id in Merge(peers, u)
    ensures Merge(peers, u)[u.id].address == u.address
  {}

  /** The address a peer was last heard of with, if with any. */
  function LastAddress(known: string, ops: seq<Op>, id: string): string {
    if ops == [] then known
    else
      var last := ops[|ops| - 1];
      if last.Insert? && last.u.id == id && last.u.address != "" then last.u.address
      else LastAddress(known, ops[..|ops| - 1], id)
  }

  /** The latest time it was heard of. */
  function LatestTime(known: int, ops: seq<Op>, id: string): int {
    if ops == [] then known
    else
      var last, before := ops[|ops| - 1], LatestTime(known, ops[..|ops| - 1], id);
      if last.Insert? && last.u.id == id then Max(before, last.u.lastSeen) else before
  }

  /** While a peer stays in the table, its record is the last address and the latest time heard. */
  lemma {:induction false} RecordIsLastHeard(peers: Peers, ops: seq<Op>, id: string)
    requires Keyed(peers) && id != "" && StaysPresent(peers, ops, id)
    ensures id in peers && id in Run(peers, ops) && Keyed(Run(peers, ops))
    ensures Run(peers, ops)[id] ==
            PeerInfo(id, LastAddress(peers[id].address, ops, id), LatestTime(peers[id].lastSeen, ops, id))
    decreases |ops|
  {
    assert ops[..|ops|] == ops && Run(peers, ops[..0]) == peers;
    if ops != [] {
      var init := ops[..|ops| - 1];
      forall k | 0 <= k <= |init| ensures id in Run(peers, init[..k]) {
        assert init[..k] == ops[..k];
      }
      RecordIsLastHeard(peers, init, id);
      MergeKeepsKeys(Run(peers, init), ops[|ops| - 1]);
    }
  }

  // ----- the event log -----

  ghost predicate Sends(peers: Peers, op: Op, events: seq<Event>) {
    match op
    case Insert(u) => Emits(peers, u, events)
    case Drop(id) => events == if id in peers then [Left(peers[id])] else []
  }

  /** `log` is a possible event log of the run: the events of each operation in turn. */
  ghost predicate LogOf(peers: Peers, ops: seq<Op>, log: seq<Event>)
    decreases |ops|
  {
    if ops == [] then log == []
    else exists cut | 0 <= cut <= |log| ::
      && LogOf(peers, ops[..|ops| - 1], log[..cut])
      && Sends(Run(peers, ops[..|ops| - 1]), ops[|ops| - 1], log[cut..])
  }

  lemma {:induction false} ReplayConcat(peers: Peers, a: seq<Event>, b: seq<Event>)
    ensures Replay(peers, a + b) == Replay(Replay(peers, a), b)
    decreases |b|
  {
    if b == [] {
      assert a + b == a;
    } else {
      assert (a + b)[..|a + b| - 1] == a + b[..|b| - 1];
      ReplayConcat(peers, a, b[..|b| - 1]);
    }
  }

  lemma {:induction false} ReplayDepartures(peers: Peers, dropped: seq<PeerInfo>)
    ensures Replay(peers, Departures(dropped)) == Without(peers, dropped)
    decreases |dropped|
  {
    if dropped != [] {
      var init := dropped[..|dropped| - 1];
      assert Departures(dropped)[..|dropped| - 1] == Departures(init);
      ReplayDepartures(peers, init);
    }
  }

  lemma SentReplays(peers: Peers, op: Op, events: seq<Event>)
    requires Keyed(peers) && Sends(peers, op, events)
    ensures Replay(peers, events) == Step(peers, op)
  {
    if op.Insert? && op.u.id != "" && Changes(peers, op.u) {
      MergeIs(peers, op.u);
      var keep := Combined(peers, op.u);
      if Fresher(peers, keep) == {} {
        var dropped: seq<PeerInfo> :| Lists(peers, dropped, Staler(peers, keep))
          && events == [if op.u.id in peers then Updated(keep) else Joined(keep)] + Departures(dropped);
        var e := events[0];
        EmittedEvents(peers, op.u, e, dropped);
        ReplayConcat(peers, [e], Departures(dropped));
        ReplayDepartures(Replay(peers, [e]), dropped);
      }
    }
  }

  /** Replaying the log of any run over the table it started from gives the table it ended with. */
  lemma {:induction false} LogReplaysToTable(peers: Peers, ops: seq<Op>, log: seq<Event>)
    requires Keyed(peers) && LogOf(peers, ops, log)
    ensures Replay(peers, log) == Run(peers, ops) && Keyed(Run(peers, ops))
    decreases |ops|
  {
    hide Sends, Step, Applied;
    if ops != [] {
      var init, last := ops[..|ops| - 1], ops[|ops| - 1];
      var cut :| 0 <= cut <= |log| && LogOf(peers, init, log[..cut]) && Sends(Run(peers, init), last, log[cut..]);
      LogReplaysToTable(peers, init, log[..cut]);
      SentReplays(Run(peers, init), last, log[cut..]);
      ReplayConcat(peers, log[..cut], log[cut..]);
      assert log == log[..cut] + log[cut..];
      MergeKeepsKeys(Run(peers, init), last);
    }
  }

  lemma MergeKeepsKeys(peers: Peers, op: Op)
    requires Keyed(peers)
    ensures Keyed(Step(peers, op))
  {}

  /** An event is sent exactly when the table changes. */
  lemma SilentIffUnchanged(peers: Peers, op: Op, events: seq<Event>)
    requires Keyed(peers) && Sends(peers, op, events)
    ensures events == [] <==> Step(peers, op) == peers
  {
    if op.Insert? && op.u.id != "" && Changes(peers, op.u) {
      var keep := Combined(peers, op.u);
      if Fresher(peers, keep) == {} {
        assert keep.id in Step(peers, op) && Step(peers, op)[keep.id] == keep;
      }
    } else if op.Drop? && op.id in peers {
      assert op.id !in Step(peers, op);
    }
  }

  /** The first event of a merge is about its peer, as it is now known; the others are evictions. */
  lemma OwnEventComesFirst(peers: Peers, u: PeerInfo, events: seq<Event>)
    requires Keyed(peers) && Sends(peers, Insert(u), events) && events != []
    ensures events[0].peer.id == u.id && events[0].peer.lastSeen >= u.lastSeen
    ensures u.address != "" ==> events[0].peer.address == u.address
    ensures forall k | 0 < k < |events| ::
              && events[k].Left? && events[k].peer.id != u.id && events[k].peer.id in peers
              && events[k].peer == peers[events[k].peer.id]
  {
    var keep := Combined(peers, u);
    if Fresher(peers, keep) == {} {
      var dropped: seq<PeerInfo> :| Lists(peers, dropped, Staler(peers, keep))
        && events == [if u.id in peers then Updated(keep) else Joined(keep)] + Departures(dropped);
      forall k | 0 < k < |events|
        ensures && events[k].Left? && events[k].peer.id != u.id && events[k].peer.id in peers
                && events[k].peer == peers[events[k].peer.id]
      {
        assert events[k] == Left(dropped[k - 1]) && dropped[k - 1] in dropped;
      }
    }
  }

  /** An event is of the kind its peer calls for: new to the table, in it and different, or in it. */
  predicate Truthful(peers: Peers, e: Event) {
    match e
    case Joined(p) => p.id !in peers
    case Updated(p) => p.id in peers && peers[p.id] != p
    case Left(p) => p.id in peers
  }

  ghost predicate AllTruthful(peers: Peers, events: seq<Event>) {
    forall k | 0 <= k < |events| :: Truthful(Replay(peers, events[..k]), events[k])
  }

  lemma TruthfulConcat(peers: Peers, a: seq<Event>, b: seq<Event>)
    requires AllTruthful(peers, a) && AllTruthful(Replay(peers, a), b)
    ensures AllTruthful(peers, a + b)
  {
    forall k | 0 <= k < |a + b| ensures Truthful(Replay(peers, (a + b)[..k]), (a + b)[k]) {
      if k < |a| {
        assert (a + b)[..k] == a[..k];
      } else {
        assert (a + b)[..k] == a + b[..k - |a|];
        ReplayConcat(peers, a, b[..k - |a|]);
      }
    }
  }

  /** Leaving one after another: each is still there when its turn comes. */
  lemma DeparturesTruthful(peers: Peers, dropped: seq<PeerInfo>)
    requires forall p | p in dropped :: p.id in peers
    requires forall i, j | 0 <= i < j < |dropped| :: dropped[i].id != dropped[j].id
    ensures AllTruthful(peers, Departures(dropped))
  {
    forall k | 0 <= k < |dropped| ensures Truthful(Replay(peers, Departures(dropped)[..k]), Left(dropped[k])) {
      assert Departures(dropped)[..k] == Departures(dropped[..k]);
      ReplayDepartures(peers, dropped[..k]);
      WithoutIs(peers, dropped[..k]);
      assert dropped[k] in dropped;
    }
  }

  lemma {:induction false} ListedOnce(peers: Peers, dropped: seq<PeerInfo>, gone: set<string>)
    requires Keyed(peers) && Lists(peers, dropped, gone)
    ensures forall i, j | 0 <= i < j < |dropped| :: dropped[i].id != dropped[j].id
  {
    var ids := seq(|dropped|, i requires 0 <= i < |dropped| => dropped[i].id);
    forall id | id in gone ensures id in ids {
      var k :| 0 <= k < |dropped| && dropped[k] == peers[id];
      assert ids[k] == id;
    }
    forall id | id in ids ensures id in gone {
      var k :| 0 <= k < |ids| && ids[k] == id;
      assert dropped[k] in dropped;
    }
    assert Elements(ids) == gone;
    NoDuplicatesBySize(ids);
    forall i, j | 0 <= i < j < |dropped| ensures dropped[i].id != dropped[j].id {
      assert ids[i] != ids[j];
    }
  }

  lemma SentTruthfully(peers: Peers, op: Op, events: seq<Event>)
    requires Keyed(peers) && Sends(peers, op, events)
    ensures AllTruthful(peers, events)
  {
    if op.Insert? && op.u.id != "" && Changes(peers, op.u) {
      var keep := Combined(peers, op.u);
      if Fresher(peers, keep) == {} {
        var dropped: seq<PeerInfo> :| Lists(peers, dropped, Staler(peers, keep))
          && events == [if op.u.id in peers then Updated(keep) else Joined(keep)] + Departures(dropped);
        var e := events[0];
        assert [e][..0] == [] && Replay(peers, [e]) == Applied(peers, e);
        assert AllTruthful(peers, [e]);
        ListedOnce(peers, dropped, Staler(peers, keep));
        DeparturesTruthful(Applied(peers, e), dropped);
        TruthfulConcat(peers, [e], Departures(dropped));
      } else {
        assert events[..0] == [];
      }
    } else if events != [] {
      assert events[..0] == [];
    }
  }

  /** In the log of every run each event says of its peer what is the case when it is sent. */
  lemma {:induction false} LogIsTruthful(peers: Peers, ops: seq<Op>, log: seq<Event>)
    requires Keyed(peers) && LogOf(peers, ops, log)
    ensures AllTruthful(peers, log)
    decreases |ops|
  {
    hide Sends, Step, Applied, Truthful;
    if ops == [] {
      assert AllTruthful(peers, []);
    } else {
      var init, last := ops[..|ops| - 1], ops[|ops| - 1];
      var cut :| 0 <= cut <= |log| && LogOf(peers, init, log[..cut]) && Sends(Run(peers, init), last, log[cut..]);
      hide LogOf, AllTruthful;
      LogReplaysToTable(peers, init, log[..cut]);
      LogIsTruthful(peers, init, log[..cut]);
      SentTruthfully(Run(peers, init), last, log[cut..]);
      TruthfulConcat(peers, log[..cut], log[cut..]);
      assert log == log[..cut] + log[cut..];
    }
  }

  // ----- convergence -----

  function Merges(us: seq<PeerInfo>): seq<Op> { seq(|us|, i requires 0 <= i < |us| => Insert(us[i])) }

  /** The table of a node that has heard these updates, in this order. */
  function Heard(us: seq<PeerInfo>): Peers { Run(map[], Merges(us)) }

  lemma HeardOneMore(us: seq<PeerInfo>, u: PeerInfo)
    ensures Heard(us + [u]) == Merge(Heard(us), u)
  {
    assert Merges(us + [u])[..|us|] == Merges(us);
  }

  /** Each identifier has one address at most; updates without an address may come besides. */
  ghost predicate OneAddress(us: set<PeerInfo>) {
    forall u, v | u in us && v in us && u.id == v.id && u.address != "" && v.address != "" :: u.address == v.address
  }

  /** The one address of an identifier, empty if it is never heard of with one. */
  ghost function AddressOf(us: set<PeerInfo>, id: string): string {
    if exists u :: u in us && u.id == id && u.address != ""
    then var u :| u in us && u.id == id && u.address != ""; u.address
    else ""
  }

  lemma AddressIs(us: set<PeerInfo>, u: PeerInfo)
    requires OneAddress(us) && u in us && u.address != ""
    ensures AddressOf(us, u.id) == u.address
  {}

  lemma AddressGiven(us: set<PeerInfo>, id: string) returns (u: PeerInfo)
    requires AddressOf(us, id) != ""
    ensures u in us && u.id == id && u.address == AddressOf(us, id)
  {
    u :| u in us && u.id == id && u.address == AddressOf(us, id);
  }

  /** Someone holds the address and was seen at this time or later. */
  ghost predicate Held(peers: Peers, address: string, since: int) {
    exists h :: h in peers && peers[h].address == address && peers[h].lastSeen >= since
  }

  /** What an update said is in the table, or a fresher record holds the address of its identifier. */
  ghost predicate Accounted(us: set<PeerInfo>, peers: Peers, u: PeerInfo) {
    || (u.id in peers && peers[u.id].lastSeen >= u.lastSeen && (u.address != "" ==> peers[u.id].address == u.address))
    || (AddressOf(us, u.id) != "" && Held(peers, AddressOf(us, u.id), u.lastSeen + 1))
  }

  /** A record was made from updates heard. */
  ghost predicate Sourced(us: set<PeerInfo>, seen: set<PeerInfo>, p: PeerInfo) {
    && (exists u :: u in seen && u.id == p.id && u.lastSeen == p.lastSeen)
    && (|| p.address == AddressOf(us, p.id)
        || (p.address == "" && exists u :: u in seen && u.id == p.id && u.address == ""))
  }

  /** The books of a node that will hear `us` and has heard `seen`. */
  ghost predicate Books(us: set<PeerInfo>, seen: set<PeerInfo>, peers: Peers) {
    && Keyed(peers) && Grouped(peers)
    && (forall id | id in peers :: Sourced(us, seen, peers[id]))
    && (forall u | u in seen && u.id != "" :: Accounted(us, peers, u))
  }

  ghost predicate Placed(us: set<PeerInfo>, peers: Peers) {
    forall id | id in peers :: peers[id].id == id && peers[id].address in {"", AddressOf(us, id)}
  }

  lemma BooksPlace(us: set<PeerInfo>, seen: set<PeerInfo>, peers: Peers)
    requires Books(us, seen, peers)
    ensures Placed(us, peers)
  {
    assert forall id | id in peers :: Sourced(us, seen, peers[id]);
  }

  lemma SourceOf(us: set<PeerInfo>, seen: set<PeerInfo>, peers: Peers, id: string) returns (u: PeerInfo)
    requires Books(us, seen, peers) && id in peers
    ensures u in seen && u.id == id && u.lastSeen == peers[id].lastSeen
  {
    assert Sourced(us, seen, peers[id]);
    u :| u in seen && u.id == id && u.lastSeen == peers[id].lastSeen;
  }

  /** An address that is held stays held, by someone as fresh. */
  lemma HeldStays(us: set<PeerInfo>, peers: Peers, u: PeerInfo, address: string, since: int)
    requires OneAddress(us) && Placed(us, peers) && u in us && address != "" && Held(peers, address, since)
    ensures Held(Merge(peers, u), address, since)
  {
    var h :| h in peers && peers[h].address == address && peers[h].lastSeen >= since;
    var after, keep := Merge(peers, u), Combined(peers, u);
    hide AddressOf;
    if u.id != "" && (h == u.id || h in Staler(peers, keep)) {
      if u.address != "" {
        AddressIs(us, u);
      }
      assert keep.address == address && keep.lastSeen >= since;
      KeptOrBeaten(peers, u);
    }
    assert (h in after && after[h] == peers[h]) || Held(after, address, since);
  }

  /** After a merge the combined record is in the table, or a fresher one holds its address. */
  lemma KeptOrBeaten(peers: Peers, u: PeerInfo)
    requires u.id != "" && (u.id in peers ==> peers[u.id].id == u.id)
    ensures var after, keep := Merge(peers, u), Combined(peers, u);
            || (u.id in after && after[u.id] == keep)
            || (keep.address != "" && Held(after, keep.address, keep.lastSeen + 1))
  {
    var after, keep := Merge(peers, u), Combined(peers, u);
    if Changes(peers, u) && Fresher(peers, keep) != {} {
      var f :| f in Fresher(peers, keep);
      assert f in after && after[f] == peers[f];
    }
  }

  lemma MergeKeepsAccounts(us: set<PeerInfo>, peers: Peers, u: PeerInfo, v: PeerInfo)
    requires OneAddress(us) && Placed(us, peers) && u in us && v in us && u.id != "" && v.id != ""
    requires v == u || Accounted(us, peers, v)
    ensures Accounted(us, Merge(peers, u), v)
  {
    hide AddressOf;
    var after, keep := Merge(peers, u), Combined(peers, u);
    var address := AddressOf(us, v.id);
    if u.address != "" {
      AddressIs(us, u);
    }
    if address != "" && Held(peers, address, v.lastSeen + 1) {
      HeldStays(us, peers, u, address, v.lastSeen + 1);
    } else {
      KeptOrBeaten(peers, u);
      if v.id != u.id && v.id !in after {
        assert v.id in Staler(peers, keep);
        assert after[u.id].address == address && after[u.id].lastSeen >= v.lastSeen + 1;
      }
    }
  }

  lemma MergeKeepsBooks(us: set<PeerInfo>, seen: set<PeerInfo>, peers: Peers, u: PeerInfo)
    requires OneAddress(us) && Books(us, seen, peers) && u in us && seen <= us
    ensures Books(us, seen + {u}, Merge(peers, u))
  {
    BooksPlace(us, seen, peers);
    hide Sourced, Accounted;
    var after := Merge(peers, u);
    MergeKeepsGroups(peers, u);
    forall id | id in after ensures Sourced(us, seen + {u}, after[id]) {
      MergeKeepsSources(us, seen, peers, u, id);
    }
    if u.id != "" {
      forall v | v in seen + {u} && v.id != "" ensures Accounted(us, after, v) {
        MergeKeepsAccounts(us, peers, u, v);
      }
    }
  }

  lemma MergeKeepsSources(us: set<PeerInfo>, seen: set<PeerInfo>, peers: Peers, u: PeerInfo, id: string)
    requires OneAddress(us) && Keyed(peers) && (forall i | i in peers :: Sourced(us, seen, peers[i]))
    requires u in us && id in Merge(peers, u)
    ensures Sourced(us, seen + {u}, Merge(peers, u)[id])
  {
    hide AddressOf;
    if u.address != "" {
      AddressIs(us, u);
    }
    assert u in seen + {u} && forall v | v in seen :: v in seen + {u};
    assert id in peers ==> Sourced(us, seen, peers[id]);
    assert (id in peers && Merge(peers, u)[id] == peers[id]) || Merge(peers, u)[id] == Combined(peers, u);
  }

  lemma {:induction false} HearingKeepsBooks(us: set<PeerInfo>, heard: seq<PeerInfo>)
    requires OneAddress(us) && Elements(heard) <= us
    ensures Books(us, Elements(heard), Heard(heard))
    decreases |heard|
  {
    if heard != [] {
      var init, u := heard[..|heard| - 1], heard[|heard| - 1];
      assert heard == init + [u];
      assert Elements(heard) == Elements(init) + {u};
      HearingKeepsBooks(us, init);
      MergeKeepsBooks(us, Elements(init), Heard(init), u);
      HeardOneMore(init, u);
    }
  }

  // ----- the closed form -----

  /** The record an identifier ends with: its address, its latest time, and nobody at its address is fresher. */
  ghost predicate Owns(us: set<PeerInfo>, p: PeerInfo) {
    && p.address == AddressOf(us, p.id)
    && (exists u :: u in us && u.id == p.id && u.lastSeen == p.lastSeen)
    && (forall u | u in us && u.id == p.id :: u.lastSeen <= p.lastSeen)
    && (p.address != "" ==>
          forall v | v in us && v.id != "" && AddressOf(us, v.id) == p.address :: v.lastSeen <= p.lastSeen)
  }

  /** The closed form: exactly the records that own their address. */
  ghost predicate ClosedForm(us: set<PeerInfo>, peers: Peers) {
    && (forall id | id in peers :: id != "" && peers[id].id == id && Owns(us, peers[id]))
    && (forall p: PeerInfo | p.id != "" && Owns(us, p) :: p.id in peers && peers[p.id] == p)
  }

  /**
   `u` tells of an identifier without its address, and `v` of another one at that address, fresher than every
   update that gives the identifier its address.
   */
  ghost predicate Contested(us: set<PeerInfo>, u: PeerInfo, v: PeerInfo) {
    && u in us && v in us && u.id != "" && v.id != "" && u.id != v.id && u.address == ""
    && AddressOf(us, u.id) == AddressOf(us, v.id) != ""
    && forall w | w in us && w.id == u.id && w.address != "" :: w.lastSeen < v.lastSeen
  }

  ghost predicate Settles(us: set<PeerInfo>) { forall u, v :: !Contested(us, u, v) }

  lemma ClosedFormIsUnique(us: set<PeerInfo>, p: Peers, q: Peers)
    requires ClosedForm(us, p) && ClosedForm(us, q)
    ensures p == q
  {
    assert forall id | id in p :: Owns(us, p[id]) && id in q && q[id] == p[id];
    assert forall id | id in q :: Owns(us, q[id]) && id in p;
  }

  lemma {:induction false} Freshest(us: set<PeerInfo>) returns (m: PeerInfo)
    requires us != {}
    ensures m in us && forall v | v in us :: v.lastSeen <= m.lastSeen
    decreases |us|
  {
    m :| m in us;
    if us != {m} {
      var n := Freshest(us - {m});
      m := if m.lastSeen < n.lastSeen then n else m;
    }
  }

  lemma FreshestAt(us: set<PeerInfo>, id: string) returns (w: PeerInfo)
    requires AddressOf(us, id) != ""
    ensures w in us && w.id == id && w.address != ""
    ensures forall x | x in us && x.id == id && x.address != "" :: x.lastSeen <= w.lastSeen
  {
    var addressed := set x | x in us && x.id == id && x.address != "";
    var u := AddressGiven(us, id);
    assert u in addressed;
    w := Freshest(addressed);
  }

  /** When everything has been heard, a record has the address of its identifier. */
  lemma AddressIsKnown(us: set<PeerInfo>, peers: Peers, id: string)
    requires OneAddress(us) && Books(us, us, peers) && id in peers
    ensures peers[id].address == AddressOf(us, id) || !Settles(us)
  {
    hide AddressOf, Grouped;
    assert Sourced(us, us, peers[id]);
    if peers[id].address != AddressOf(us, id) {
      var u :| u in us && u.id == id && u.address == "";
      hide Sourced;
      var w := FreshestAt(us, id);
      AddressIs(us, w);
      assert Accounted(us, peers, w);
      var h :| h in peers && peers[h].address == AddressOf(us, id) && peers[h].lastSeen >= w.lastSeen + 1;
      var v := SourceOf(us, us, peers, h);
      BooksPlace(us, us, peers);
      assert Contested(us, u, v);
    }
  }

  lemma AllHeard(us: set<PeerInfo>, peers: Peers)
    requires OneAddress(us) && Settles(us) && Books(us, us, peers)
    ensures ClosedForm(us, peers)
  {
    hide AddressOf, Sourced, Grouped;
    forall id | id in peers ensures Owns(us, peers[id]) {
      RecordOwns(us, peers, id);
    }
    forall p: PeerInfo | p.id != "" && Owns(us, p) ensures p.id in peers && peers[p.id] == p {
      var u :| u in us && u.id == p.id && u.lastSeen == p.lastSeen;
      assert Accounted(us, peers, u);
    }
  }

  lemma RecordOwns(us: set<PeerInfo>, peers: Peers, id: string)
    requires OneAddress(us) && Settles(us) && Books(us, us, peers) && id in peers
    ensures Owns(us, peers[id])
  {
    var p := peers[id];
    AddressIsKnown(us, peers, id);
    assert Sourced(us, us, p);
    forall v | v in us && v.id != "" && (v.id == id || (p.address != "" && AddressOf(us, v.id) == p.address))
      ensures v.lastSeen <= p.lastSeen
    {
      assert Accounted(us, peers, v);
      if v.id in peers {
        AddressIsKnown(us, peers, v.id);
      }
    }
  }

  /** Any sequence of merges from the empty table ends in the closed form, if no address is contested. */
  lemma GossipReachesClosedForm(us: seq<PeerInfo>)
    requires OneAddress(Elements(us)) && Settles(Elements(us))
    ensures ClosedForm(Elements(us), Heard(us))
  {
    HearingKeepsBooks(Elements(us), us);
    AllHeard(Elements(us), Heard(us));
  }

  /** Two nodes that heard the same updates hold the same table, in whatever order and however often. */
  ghost predicate Converges(us: set<PeerInfo>) {
    forall a, b | Elements(a) == us && Elements(b) == us :: Heard(a) == Heard(b)
  }

  /** They do so exactly when no address is contested. */
  lemma GossipConvergesIff(us: set<PeerInfo>)
    requires OneAddress(us)
    ensures Converges(us) <==> Settles(us)
  {
    if Settles(us) {
      forall a, b | Elements(a) == us && Elements(b) == us ensures Heard(a) == Heard(b) {
        GossipReachesClosedForm(a);
        GossipReachesClosedForm(b);
        ClosedFormIsUnique(us, Heard(a), Heard(b));
      }
    } else {
      var u, v :| Contested(us, u, v);
      var a, b := ContestedDiverges(us, u, v);
    }
  }

  /** Each identifier always comes with the same address. */
  ghost predicate FixedAddresses(us: set<PeerInfo>) {
    forall u, v | u in us && v in us && u.id == v.id :: u.address == v.address
  }

  /** In particular they converge when every identifier keeps its one address or never has one. */
  lemma GossipConverges(us: seq<PeerInfo>, vs: seq<PeerInfo>)
    requires FixedAddresses(Elements(us)) && Elements(us) == Elements(vs)
    ensures Heard(us) == Heard(vs)
  {
    GossipConvergesIff(Elements(us));
  }

  // ----- a contested address -----

  lemma {:induction false} Listed(us: set<PeerInfo>) returns (s: seq<PeerInfo>)
    ensures Elements(s) == us && (us != {} ==> s != [])
    decreases |us|
  {
    s := [];
    if us != {} {
      var u :| u in us;
      var rest := Listed(us - {u});
      s := rest + [u];
      assert Elements(s) == Elements(rest) + {u};
    }
  }

  /** At an address held by someone fresher a newcomer is turned away. */
  lemma {:induction false} NewcomerRefused(before: seq<PeerInfo>, us: seq<PeerInfo>, id: string, address: string,
                                           since: int)
    requires Held(Heard(before), address, since) && id !in Heard(before) && id != "" && address != ""
    requires forall u | u in us :: u.id == id && u.address == address && u.lastSeen < since
    ensures Heard(before + us) == Heard(before)
    decreases |us|
  {
    if us == [] {
      assert before + us == before;
    } else {
      var init, u := us[..|us| - 1], us[|us| - 1];
      NewcomerRefused(before, init, id, address, since);
      assert before + us == before + init + [u] && u in us;
      HeardOneMore(before + init, u);
      var peers := Heard(before);
      var h :| h in peers && peers[h].address == address && peers[h].lastSeen >= since;
      assert h in Fresher(peers, u);
      assert peers - {id} == peers;
    }
  }

  /** One heard of without an address stays without. */
  lemma {:induction false} StaysWithout(before: seq<PeerInfo>, us: seq<PeerInfo>, id: string)
    requires id != "" && (id in Heard(before) ==> Heard(before)[id].address == "")
    requires forall u | u in us :: u.id == id && u.address == ""
    ensures var peers := Heard(before + us);
            (id in peers ==> peers[id].address == "") && (us != [] ==> id in peers)
    decreases |us|
  {
    if us == [] {
      assert before + us == before;
    } else {
      var init, u := us[..|us| - 1], us[|us| - 1];
      StaysWithout(before, init, id);
      assert before + us == before + init + [u] && u in us;
      HeardOneMore(before + init, u);
    }
  }

  /** Once the rival's two updates have been heard, its address is held by someone as fresh as the later of them. */
  lemma RivalHolds(us: set<PeerInfo>, before: seq<PeerInfo>, v: PeerInfo, w: PeerInfo)
    requires OneAddress(us) && Elements(before) <= us && v in us && w in us
    requires v.id == w.id != "" && w.address != ""
    ensures Held(Heard(before + [v] + [w]), w.address, v.lastSeen)
  {
    hide AddressOf;
    AddressIs(us, w);
    assert Elements(before + [v]) == Elements(before) + {v};
    HearingKeepsBooks(us, before + [v]);
    HeardOneMore(before + [v], w);
    var peers := Heard(before + [v]);
    BooksPlace(us, Elements(before + [v]), peers);
    assert Accounted(us, peers, v);
    if Held(peers, w.address, v.lastSeen) {
      HeldStays(us, peers, w, w.address, v.lastSeen);
    } else {
      KeptOrBeaten(peers, w);
    }
  }

  /** Address first, after the rival: the identifier is turned away and then known without an address. */
  lemma AddressLost(us: set<PeerInfo>, u: PeerInfo, v: PeerInfo, rest: seq<PeerInfo>, named: seq<PeerInfo>,
                    bare: seq<PeerInfo>)
    returns (w: PeerInfo)
    requires OneAddress(us) && Contested(us, u, v) && bare != []
    requires forall x | x in rest :: x in us && x.id != u.id
    requires forall x | x in named :: x in us && x.id == u.id && x.address != ""
    requires forall x | x in bare :: x in us && x.id == u.id && x.address == ""
    ensures w in us && w.id == v.id
    ensures var peers := Heard(rest + [v] + [w] + named + bare); u.id in peers && peers[u.id].address == ""
  {
    hide AddressOf;
    w := AddressGiven(us, v.id);
    var rivals := rest + [v] + [w];
    forall x | x in rivals ensures x in us && x.id != u.id {}
    RivalHolds(us, rest, v, w);
    HearingKeepsBooks(us, rivals);
    assert u.id !in Heard(rivals) by {
      assert forall id | id in Heard(rivals) :: Sourced(us, Elements(rivals), Heard(rivals)[id]);
    }
    forall x | x in named ensures x.address == w.address && x.lastSeen < v.lastSeen {
      AddressIs(us, x);
    }
    NewcomerRefused(rivals, named, u.id, w.address, v.lastSeen);
    StaysWithout(rivals + named, bare, u.id);
  }

  /** Two orders of the same updates that end in different tables. */
  lemma ContestedDiverges(us: set<PeerInfo>, u: PeerInfo, v: PeerInfo) returns (a: seq<PeerInfo>, b: seq<PeerInfo>)
    requires OneAddress(us) && Contested(us, u, v)
    ensures Elements(a) == us == Elements(b) && Heard(a) != Heard(b)
  {
    hide AddressOf, Heard, OneAddress;
    var rest := Listed(set x | x in us && x.id != u.id);
    var named := Listed(set x | x in us && x.id == u.id && x.address != "");
    var bare := Listed(set x | x in us && x.id == u.id && x.address == "");
    assert u in Elements(bare);
    assert forall x | x in rest :: x in Elements(rest);
    assert forall x | x in named :: x in Elements(named);
    assert forall x | x in bare :: x in Elements(bare);
    var w := AddressLost(us, u, v, rest, named, bare);
    a := rest + [v] + [w] + named + bare;
    b := rest + bare + named;
    LastGivesAddress(us, u.id, rest + bare, named);
    assert Elements(b) == Elements(rest) + Elements(bare) + Elements(named);
    assert Elements(a) == Elements(b) + {v, w};
    assert Elements(b) == us;
  }

  /** An update with an address, heard last, leaves its identifier at that address or out of the table. */
  lemma LastGivesAddress(us: set<PeerInfo>, id: string, before: seq<PeerInfo>, named: seq<PeerInfo>)
    requires AddressOf(us, id) != "" && id != ""
    requires Elements(named) == set x | x in us && x.id == id && x.address != ""
    ensures var peers := Heard(before + named); id in peers ==> peers[id].address != ""
  {
    var x := AddressGiven(us, id);
    assert x in Elements(named);
    var init, last := named[..|named| - 1], named[|named| - 1];
    assert last in Elements(named);
    assert before + named == before + init + [last];
    HeardOneMore(before + init, last);
  }

  /** For instance, an identifier heard of with and without an address that another one holds more recently. */
  lemma MissingAddressBreaksConvergence()
    ensures !Converges({PeerInfo("a", "", 9), PeerInfo("b", "x", 7), PeerInfo("a", "x", 3)})
  {
    var a, b, c := PeerInfo("a", "", 9), PeerInfo("b", "x", 7), PeerInfo("a", "x", 3);
    AddressIs({a, b, c}, b);
    AddressIs({a, b, c}, c);
    assert Contested({a, b, c}, a, b);
    GossipConvergesIff({a, b, c});
  }
}
