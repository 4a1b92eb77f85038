/**
 The gossip store of known peers: a last-writer-wins table in which one
 non-empty address belongs to the freshest record, and a stream of events that
 tells subscribers how the table changes.
 */
module Topology {
  import opened Common

  datatype PeerInfo = PeerInfo(id: string, address: string, lastSeen: int)

  type Peers = map<string, PeerInfo>

  datatype Event = Joined(peer: PeerInfo) | Updated(peer: PeerInfo) | Left(peer: PeerInfo)

  /** Every record is stored under its own, non-empty identifier. */
  ghost predicate Keyed(peers: Peers) {
    "" !in peers && forall id | id in peers :: peers[id].id == id
  }

  // ----- the merge, as a function of the table -----

  predicate Changes(peers: Peers, u: PeerInfo) {
    u.id !in peers
    || u.lastSeen > peers[u.id].lastSeen
    || (u.address != "" && u.address != peers[u.id].address)
  }

  function Combined(peers: Peers, u: PeerInfo): PeerInfo {
    if u.id !in peers then u
    else PeerInfo(u.id, if u.address != "" then u.address else peers[u.id].address,
                  Max(u.lastSeen, peers[u.id].lastSeen))
  }

  /** The other records at the address of `keep`. */
  function Rivals(peers: Peers, keep: PeerInfo): set<string> {
    set id | id in peers && id != keep.id && keep.address != "" && peers[id].address == keep.address
  }

  function Fresher(peers: Peers, keep: PeerInfo): set<string> {
    set id | id in Rivals(peers, keep) && peers[id].lastSeen > keep.lastSeen
  }

  function Staler(peers: Peers, keep: PeerInfo): set<string> {
    set id | id in Rivals(peers, keep) && peers[id].lastSeen < keep.lastSeen
  }

  function Merge(peers: Peers, u: PeerInfo): Peers {
    if u.id == "" || !Changes(peers, u) then peers
    else
      var keep := Combined(peers, u);
      if Fresher(peers, keep) != {} then peers - {u.id}
      else peers[u.id := keep] - Staler(peers, keep)
  }

  // ----- the event stream -----

  function Applied(peers: Peers, e: Event): Peers {
    if e.Left? then peers - {e.peer.id} else peers[e.peer.id := e.peer]
  }

  function Replay(peers: Peers, events: seq<Event>): Peers {
    if events == [] then peers else Applied(Replay(peers, events[..|events| - 1]), events[|events| - 1])
  }

  lemma ReplayAppend(peers: Peers, events: seq<Event>, e: Event)
    ensures Replay(peers, events + [e]) == Applied(Replay(peers, events), e)
  {
    assert (events + [e])[..|events|] == events;
  }

  function Departures(dropped: seq<PeerInfo>): seq<Event> {
    seq(|dropped|, i requires 0 <= i < |dropped| => Left(dropped[i]))
  }

  /** `dropped` lists the records of `gone`, each once. */
  ghost predicate Lists(peers: Peers, dropped: seq<PeerInfo>, gone: set<string>) {
    && gone <= peers.Keys && |dropped| == |gone|
    && (forall p | p in dropped :: p.id in gone && peers[p.id] == p)
    && (forall id | id in gone :: peers[id] in dropped)
  }

  /** The events one merge may send: what became of the merged record, then the evicted records in some order. */
  ghost predicate Emits(peers: Peers, u: PeerInfo, events: seq<Event>) {
    if u.id == "" || !Changes(peers, u) then events == []
    else
      var keep := Combined(peers, u);
      if Fresher(peers, keep) != {} then events == if u.id in peers then [Left(keep)] else []
      else exists dropped: seq<PeerInfo> | Lists(peers, dropped, Staler(peers, keep)) ::
          events == [if u.id in peers then Updated(keep) else Joined(keep)] + Departures(dropped)
  }

  lemma ListsAppend(peers: Peers, dropped: seq<PeerInfo>, gone: set<string>, p: PeerInfo)
    requires Keyed(peers) && Lists(peers, dropped, gone)
    requires p.id in peers && peers[p.id] == p && p.id !in gone
    ensures Lists(peers, dropped + [p], gone + {p.id})
  {
    assert p == (dropped + [p])[|dropped|];
  }

  function Without(peers: Peers, dropped: seq<PeerInfo>): Peers
    decreases |dropped|
  {
    if dropped == [] then peers
    else Without(peers, dropped[..|dropped| - 1]) - {dropped[|dropped| - 1].id}
  }

  lemma {:induction false} WithoutIs(peers: Peers, dropped: seq<PeerInfo>)
    ensures Without(peers, dropped).Keys <= peers.Keys
    ensures forall id | id in Without(peers, dropped) :: Without(peers, dropped)[id] == peers[id]
    ensures forall id | id in peers :: id in Without(peers, dropped) <==> forall p | p in dropped :: p.id != id
    decreases |dropped|
  {
    if dropped != [] {
      WithoutIs(peers, dropped[..|dropped| - 1]);
      assert dropped == dropped[..|dropped| - 1] + [dropped[|dropped| - 1]];
    }
  }

  /** The same list, seen before `keep` itself was stored. */
  ghost predicate DropList(peers: Peers, dropped: seq<PeerInfo>, keep: PeerInfo) {
    Lists(peers, dropped, Staler(peers, keep))
  }

  /** What the conflict loop knows when the records in `todo` are still to be looked at. */
  ghost predicate Scanned(peers: Peers, keep: PeerInfo, todo: set<string>, dropped: seq<PeerInfo>, keepLost: bool) {
    && (keepLost <==> Fresher(peers, keep) - todo != {})
    && Lists(peers, dropped, Staler(peers, keep) - todo)
  }

  lemma ScanStarts(peers: Peers, keep: PeerInfo)
    ensures Scanned(peers, keep, peers.Keys, [], false)
  {
    assert Fresher(peers, keep) - peers.Keys == {} == Staler(peers, keep) - peers.Keys;
  }

  lemma ScanEnds(peers: Peers, keep: PeerInfo, dropped: seq<PeerInfo>, keepLost: bool)
    requires Scanned(peers, keep, {}, dropped, keepLost)
    ensures keepLost <==> Fresher(peers, keep) != {}
    ensures DropList(peers, dropped, keep)
  {
    assert Fresher(peers, keep) - {} == Fresher(peers, keep) && Staler(peers, keep) - {} == Staler(peers, keep);
  }

  lemma ScanSteps(peers: Peers, keep: PeerInfo, todo: set<string>, dropped: seq<PeerInfo>, keepLost: bool, id: string)
    requires Keyed(peers) && keep.address != "" && Scanned(peers, keep, todo, dropped, keepLost)
    requires id in peers && id in todo
    ensures var rival := id != keep.id && peers[id].address == keep.address;
            Scanned(peers, keep, todo - {id},
                    if rival && keep.lastSeen > peers[id].lastSeen then dropped + [peers[id]] else dropped,
                    keepLost || (rival && peers[id].lastSeen > keep.lastSeen))
  {
    var gone, beaters := Staler(peers, keep), Fresher(peers, keep);
    assert gone - (todo - {id}) == if id in gone then gone - todo + {id} else gone - todo;
    assert beaters - (todo - {id}) == if id in beaters then beaters - todo + {id} else beaters - todo;
    if id in gone {
      ListsAppend(peers, dropped, gone - todo, peers[id]);
    }
  }

  /** The conflict loop over the table, in any order. */
  method Scan(peers: Peers, keep: PeerInfo) returns (dropped: seq<PeerInfo>, keepLost: bool)
    requires Keyed(peers) && keep.address != ""
    ensures keepLost <==> Fresher(peers, keep) != {}
    ensures DropList(peers, dropped, keep)
  {
    dropped, keepLost := [], false;
    var todo := peers.Keys;
    ScanStarts(peers, keep);
    while todo != {}
      invariant todo <= peers.Keys
      invariant Scanned(peers, keep, todo, dropped, keepLost)
      decreases todo
    {
      var id :| id in todo;
      var p := peers[id];
      ScanSteps(peers, keep, todo, dropped, keepLost, id);
      if id != keep.id && p.address == keep.address {
        if p.lastSeen > keep.lastSeen {
          keepLost := true;
        }
        if keep.lastSeen > p.lastSeen {
          dropped := dropped + [p];
        }
      }
      todo := todo - {id};
    }
    ScanEnds(peers, keep, dropped, keepLost);
  }

  /**
   The store. `origin` is the table it was loaded with and `sent` everything handed to the
   subscribers since; both exist for the specification.
   */
  class Store {
    var peers: Peers
    ghost var origin: Peers
    ghost var sent: seq<Event>

    /** Replaying the events over the starting table gives the current table. */
    ghost predicate Valid()
      reads this
    {
      Keyed(peers) && Replay(origin, sent) == peers
    }

    constructor (loaded: Peers)
      requires Keyed(loaded)
      ensures Valid() && peers == loaded && origin == loaded && sent == []
    {
      peers := loaded;
      origin := loaded;
      sent := [];
    }

    ghost method Notify(e: Event)
      modifies this`sent
      ensures sent == old(sent) + [e]
      ensures Replay(origin, sent) == Applied(Replay(origin, old(sent)), e)
    {
      ReplayAppend(origin, sent, e);
      sent := sent + [e];
    }

    /** Decides an address conflict: the records that must go, or that `keep` itself loses. */
    method ResolveAddressConflict(keep: PeerInfo) returns (dropped: seq<PeerInfo>, keepLost: bool)
      requires Keyed(peers)
      modifies this`peers
      ensures keepLost <==> Fresher(old(peers), keep) != {}
      ensures keepLost ==> dropped == [] && peers == old(peers)
      ensures !keepLost ==> peers == old(peers) - Staler(old(peers), keep)
      ensures !keepLost ==> DropList(old(peers), dropped, keep)
    {
      if keep.address == "" {
        return [], false;
      }
      dropped, keepLost := Scan(peers, keep);
      if keepLost {
        return [], true;
      }
      DeleteAll(dropped, Staler(peers, keep));
    }

    /** Deletes the dropped records one by one. */
    method DeleteAll(dropped: seq<PeerInfo>, ghost gone: set<string>)
      requires Keyed(peers) && Lists(peers, dropped, gone)
      modifies this`peers
      ensures peers == old(peers) - gone
    {
      for i := 0 to |dropped|
        invariant peers.Keys <= old(peers).Keys && forall id | id in peers :: peers[id] == old(peers)[id]
        invariant forall id | id in old(peers) && id !in peers :: id in gone
        invariant forall k | 0 <= k < i :: dropped[k].id !in peers
      {
        peers := peers - {dropped[i].id};
      }
      forall id | id in gone ensures id !in peers {
        var k :| 0 <= k < |dropped| && dropped[k] == old(peers)[id];
      }
    }

    method InsertMerge(u: PeerInfo) returns (changed: bool)
      requires Valid()
      modifies this
      ensures Valid() && origin == old(origin)
      ensures peers == Merge(old(peers), u)
      ensures old(sent) <= sent && Emits(old(peers), u, sent[|old(sent)|..])
      ensures changed <==> sent != old(sent)
    {
      if u.id == "" {
        return false;
      }
      var known := u.id in peers;
      var keep := u;
      if known {
        keep := peers[u.id];
        var touched := false;
        if u.lastSeen > keep.lastSeen {
          keep := keep.(lastSeen := u.lastSeen);
          touched := true;
        }
        if u.address != "" && u.address != keep.address {
          keep := keep.(address := u.address);
          touched := true;
        }
        if !touched {
          return false;
        }
      }
      changed := Settle(u, known, keep);
    }

    /** Stores the combined record, resolves its address and tells the subscribers. */
    method Settle(u: PeerInfo, known: bool, keep: PeerInfo) returns (changed: bool)
      requires Valid() && u.id != "" && Changes(peers, u)
      requires known == (u.id in peers) && keep == Combined(peers, u)
      modifies this
      ensures Valid() && origin == old(origin)
      ensures peers == Merge(old(peers), u)
      ensures old(sent) <= sent && Emits(old(peers), u, sent[|old(sent)|..])
      ensures changed <==> sent != old(sent)
    {
      var dropped, lost := Enter(u, keep);
      if lost && !known {
        MergeIs(old(peers), u);
        assert sent[|old(sent)|..] == [];
        return false;
      }
      ghost var e := if lost then Left(keep) else if known then Updated(keep) else Joined(keep);
      EmittedEvents(old(peers), u, e, dropped);
      Announce(e, dropped);
      assert sent[|old(sent)|..] == [e] + Departures(dropped);
      return true;
    }

    /** Stores the combined record and lets the conflict at its address decide. */
    method Enter(u: PeerInfo, keep: PeerInfo) returns (dropped: seq<PeerInfo>, lost: bool)
      requires Keyed(peers) && u.id != "" && Changes(peers, u) && keep == Combined(peers, u)
      modifies this`peers
      ensures Keyed(peers) && peers == Merge(old(peers), u)
      ensures lost <==> Fresher(old(peers), keep) != {}
      ensures if lost then dropped == [] else DropList(old(peers), dropped, keep)
    {
      SameRivals(peers, keep);
      MergeIs(peers, u);
      peers := peers[u.id := keep];
      dropped, lost := ResolveAddressConflict(keep);
      if lost {
        peers := peers - {keep.id};
      }
    }

    ghost method Announce(e: Event, dropped: seq<PeerInfo>)
      modifies this`sent
      ensures sent == old(sent) + ([e] + Departures(dropped))
      ensures Replay(origin, sent) == Without(Applied(Replay(origin, old(sent)), e), dropped)
    {
      Notify(e);
      NotifyLeft(dropped);
    }

    ghost method NotifyLeft(dropped: seq<PeerInfo>)
      modifies this`sent
      ensures sent == old(sent) + Departures(dropped)
      ensures Replay(origin, sent) == Without(Replay(origin, old(sent)), dropped)
    {
      var before := Replay(origin, sent);
      for i := 0 to |dropped|
        invariant sent == old(sent) + Departures(dropped)[..i]
        invariant Replay(origin, sent) == Without(before, dropped[..i])
      {
        Notify(Left(dropped[i]));
        assert dropped[..i + 1] == dropped[..i] + [dropped[i]];
      }
      assert dropped[..|dropped|] == dropped;
    }

    method Remove(id: string)
      requires Valid()
      modifies this
      ensures Valid() && origin == old(origin)
      ensures peers == old(peers) - {id}
      ensures sent == old(sent) + if id in old(peers) then [Left(old(peers)[id])] else []
    {
      if id == "" || id !in peers {
        return;
      }
      var existing := peers[id];
      peers := peers - {id};
      Notify(Left(existing));
    }
  }

  /** The events of one merge are the ones promised, and they replay to the merged table. */
  lemma EmittedEvents(peers: Peers, u: PeerInfo, e: Event, dropped: seq<PeerInfo>)
    requires Keyed(peers) && u.id != "" && Changes(peers, u)
    requires var keep := Combined(peers, u);
             if Fresher(peers, keep) != {} then u.id in peers && e == Left(keep) && dropped == []
             else e == (if u.id in peers then Updated(keep) else Joined(keep)) && DropList(peers, dropped, keep)
    ensures Emits(peers, u, [e] + Departures(dropped))
    ensures Without(Applied(peers, e), dropped) == Merge(peers, u)
  {
    var keep := Combined(peers, u);
    WithoutIs(Applied(peers, e), dropped);
    if Fresher(peers, keep) != {} {
      assert [e] + Departures(dropped) == [Left(keep)];
    } else {
      var gone := Staler(peers, keep);
      forall id | id in Applied(peers, e) ensures id in Without(Applied(peers, e), dropped) <==> id !in gone {
        if id in gone {
          assert peers[id] in dropped;
        }
      }
    }
  }

  lemma MergeIs(peers: Peers, u: PeerInfo)
    requires u.id != "" && Changes(peers, u)
    ensures var keep := Combined(peers, u);
            Merge(peers, u) ==
              if Fresher(peers, keep) != {} then peers[u.id := keep] - {u.id}
              else peers[u.id := keep] - Staler(peers, keep)
    ensures Fresher(peers, Combined(peers, u)) != {} && u.id !in peers ==> Merge(peers, u) == peers
  {
    assert peers[u.id := Combined(peers, u)] - {u.id} == peers - {u.id};
  }

  lemma SameRivals(peers: Peers, keep: PeerInfo)
    ensures Rivals(peers[keep.id := keep], keep) == Rivals(peers, keep)
    ensures Fresher(peers[keep.id := keep], keep) == Fresher(peers, keep)
    ensures Staler(peers[keep.id := keep], keep) == Staler(peers, keep)
    ensures forall dropped | DropList(peers[keep.id := keep], dropped, keep) :: DropList(peers, dropped, keep)
  {
    assert Staler(peers[keep.id := keep], keep) == Staler(peers, keep);
  }
}
