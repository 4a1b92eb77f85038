/**
 The periodic pass of peer discovery: refresh the peers that have a live
 session, expire the ones nobody has mentioned for too long, and dial the rest.
 */
module Refresh {
  import opened Common
  import opened Topology
  import Gossip

  /** Nanoseconds: thirty seconds and thirty minutes. */
  const REFRESH_INTERVAL: int := 30_000_000_000
  const PEER_TTL: int := 1_800_000_000_000

  /** An active session: the peer and the address of its connection. */
  datatype Link = Link(peerId: string, remote: string)

  predicate Fresh(p: PeerInfo, now: int) { now - p.lastSeen < REFRESH_INTERVAL }

  function RefreshOne(peers: Peers, id: string, now: int): Peers {
    if id in peers && Fresh(peers[id], now) then peers
    else Merge(peers, PeerInfo(id, if id in peers then peers[id].address else "", now))
  }

  function RefreshAll(peers: Peers, order: seq<string>, now: int): Peers {
    if order == [] then peers
    else RefreshOne(RefreshAll(peers, order[..|order| - 1], now), order[|order| - 1], now)
  }

  predicate Expires(p: PeerInfo, active: set<string>, localId: string, now: int) {
    p.id != localId && p.id !in active && now - p.lastSeen > PEER_TTL
  }

  function Sweep(peers: Peers, active: set<string>, localId: string, now: int): Peers {
    map id | id in peers && !Expires(peers[id], active, localId, now) :: peers[id]
  }

  /** The addresses worth a dial: known, not ours, without a session, not already connected. */
  function ToDial(peers: Peers, active: set<string>, busy: set<string>, localId: string): set<string> {
    set id | id in peers && id != localId && id !in active && peers[id].address !in busy && peers[id].address != "" ::
      peers[id].address
  }

  lemma DialsGrow(peers: Peers, p: PeerInfo, active: set<string>, busy: set<string>, localId: string)
    requires p.id !in peers
    ensures ToDial(peers[p.id := p], active, busy, localId) ==
            ToDial(peers, active, busy, localId) + ToDial(map[p.id := p], active, busy, localId)
  {
    var more := peers[p.id := p];
    forall id | id in peers ensures id in more && more[id] == peers[id] {}
    assert more[p.id] == p;
    forall id | id in more ensures id == p.id || (id in peers && peers[id] == more[id]) {}
  }

  function PeerIds(links: seq<Link>): seq<string> { seq(|links|, i requires 0 <= i < |links| => links[i].peerId) }

  function Remotes(links: seq<Link>): set<string> { set l | l in links :: l.remote }

  method RefreshPeers(store: Store, links: seq<Link>, localId: string, now: int) returns (dials: set<string>)
    requires store.Valid()
    modifies store
    ensures store.Valid() && store.origin == old(store.origin)
    ensures store.peers ==
            Sweep(RefreshAll(old(store.peers), PeerIds(links), now), Elements(PeerIds(links)), localId, now)
    ensures dials == ToDial(store.peers, Elements(PeerIds(links)), Remotes(links), localId)
    ensures Gossip.Grouped(old(store.peers)) && NoDuplicates(PeerIds(links)) && "" !in PeerIds(links) ==>
              PassEffect(old(store.peers), store.peers, Elements(PeerIds(links)), localId, now)
    ensures forall a :: a in dials <==> Dialled(store.peers, links, localId, a)
  {
    hide RefreshAll, Remotes, PeerIds, Merge, PassEffect, Dialled;
    var connected: set<string> := {};
    RefreshStarts(store.peers, links, now);
    for i := 0 to |links|
      invariant store.Valid() && store.origin == old(store.origin)
      invariant store.peers == RefreshAll(old(store.peers), PeerIds(links[..i]), now)
      invariant connected == Remotes(links[..i])
    {
      var s := links[i];
      RefreshNext(old(store.peers), links, i, now);
      connected := connected + {s.remote};
      if !(s.peerId in store.peers && now - store.peers[s.peerId].lastSeen < REFRESH_INTERVAL) {
        var addr := if s.peerId in store.peers then store.peers[s.peerId].address else "";
        var _ := store.InsertMerge(PeerInfo(s.peerId, addr, now));
      }
    }
    assert links[..|links|] == links;
    var active := set l | l in links :: l.peerId;
    ActiveIs(links);
    dials := SweepStore(store, active, connected, localId, now);
    if Gossip.Grouped(old(store.peers)) && NoDuplicates(PeerIds(links)) && "" !in PeerIds(links) {
      PassIsExact(old(store.peers), active, PeerIds(links), localId, now);
    }
    DialsAre(store.peers, links, localId);
  }

  /** The address is worth a dial: a known peer without a session has it, and no connection goes there already. */
  ghost predicate Dialled(peers: Peers, links: seq<Link>, localId: string, a: string) {
    && a != "" && (forall l | l in links :: l.remote != a)
    && exists id | id in peers :: id != localId && peers[id].address == a && forall l | l in links :: l.peerId != id
  }

  lemma DialsAre(peers: Peers, links: seq<Link>, localId: string)
    ensures forall a :: a in ToDial(peers, Elements(PeerIds(links)), Remotes(links), localId) <==>
                        Dialled(peers, links, localId, a)
  {
    ActiveIs(links);
    var active := set l | l in links :: l.peerId;
    assert forall l | l in links :: l.peerId in active && l.remote in Remotes(links);
    forall a ensures a in ToDial(peers, active, Remotes(links), localId) <==> Dialled(peers, links, localId, a) {
      if Dialled(peers, links, localId, a) {
        var id :| id in peers && id != localId && peers[id].address == a && forall l | l in links :: l.peerId != id;
        assert id !in active;
      }
    }
  }

  lemma ActiveIs(links: seq<Link>)
    ensures (set l | l in links :: l.peerId) == Elements(PeerIds(links))
  {
    forall l | l in links ensures l.peerId in PeerIds(links) {
      var i :| 0 <= i < |links| && links[i] == l;
      assert PeerIds(links)[i] == l.peerId;
    }
    forall id | id in PeerIds(links) ensures id in set l | l in links :: l.peerId {
      var i :| 0 <= i < |links| && PeerIds(links)[i] == id;
      assert links[i].peerId == id;
    }
  }

  lemma RefreshStarts(peers: Peers, links: seq<Link>, now: int)
    ensures RefreshAll(peers, PeerIds(links[..0]), now) == peers && Remotes(links[..0]) == {}
  {}

  lemma RefreshNext(peers: Peers, links: seq<Link>, i: nat, now: int)
    requires i < |links|
    ensures RefreshAll(peers, PeerIds(links[..i + 1]), now) ==
            RefreshOne(RefreshAll(peers, PeerIds(links[..i]), now), links[i].peerId, now)
    ensures Remotes(links[..i + 1]) == Remotes(links[..i]) + {links[i].remote}
  {
    var before, after := links[..i], links[..i + 1];
    assert after == before + [links[i]];
    assert PeerIds(after)[..i] == PeerIds(before) && PeerIds(after)[i] == links[i].peerId;
  }

  /** The second loop, over a listing of the table taken before it starts. */
  method SweepStore(store: Store, active: set<string>, connected: set<string>, localId: string, now: int)
    returns (dials: set<string>)
    requires store.Valid()
    modifies store
    ensures store.Valid() && store.origin == old(store.origin)
    ensures store.peers == Sweep(old(store.peers), active, localId, now)
    ensures dials == ToDial(store.peers, active, connected, localId)
  {
    var listing := store.peers;
    var todo := listing.Keys;
    dials := {};
    SweepStarts(listing, active, connected, localId, now);
    while todo != {}
      invariant store.Valid() && store.origin == old(store.origin)
      invariant todo <= listing.Keys && Keyed(listing)
      invariant store.peers == Sweeping(listing, todo, active, localId, now)
      invariant dials == ToDial(Sweeping(listing, todo, active, localId, now) - todo, active, connected, localId)
      decreases todo
    {
      hide Sweeping, ToDial;
      var id :| id in todo;
      var p := listing[id];
      SweepSteps(listing, todo, active, connected, localId, now, id);
      todo := todo - {id};
      if id != localId && id !in active {
        if now - p.lastSeen > PEER_TTL {
          store.Remove(id);
        } else if p.address !in connected && p.address != "" {
          dials := dials + {p.address};
        }
      }
    }
    SweepEnds(listing, active, localId, now);
  }

  /** The table when the records in `todo` are still to be judged. */
  function Sweeping(listing: Peers, todo: set<string>, active: set<string>, localId: string, now: int): Peers {
    map id | id in listing && (id in todo || !Expires(listing[id], active, localId, now)) :: listing[id]
  }

  lemma SweepStarts(listing: Peers, active: set<string>, connected: set<string>, localId: string, now: int)
    ensures Sweeping(listing, listing.Keys, active, localId, now) == listing
    ensures ToDial(listing - listing.Keys, active, connected, localId) == {}
  {
    assert listing - listing.Keys == map[];
  }

  lemma SweepEnds(listing: Peers, active: set<string>, localId: string, now: int)
    ensures Sweeping(listing, {}, active, localId, now) == Sweep(listing, active, localId, now)
    ensures Sweeping(listing, {}, active, localId, now) - {} == Sweep(listing, active, localId, now)
  {}

  lemma SweepSteps(listing: Peers, todo: set<string>, active: set<string>, connected: set<string>,
                   localId: string, now: int, id: string)
    requires Keyed(listing) && id in todo && todo <= listing.Keys
    ensures var p := listing[id];
            var before, after := Sweeping(listing, todo, active, localId, now),
                                 Sweeping(listing, todo - {id}, active, localId, now);
            && after == (if Expires(p, active, localId, now) then before - {id} else before)
            && ToDial(after - (todo - {id}), active, connected, localId) ==
               ToDial(before - todo, active, connected, localId) +
               if id != localId && id !in active && !Expires(p, active, localId, now)
                  && p.address !in connected && p.address != "" then {p.address} else {}
  {
    var p := listing[id];
    var before := Sweeping(listing, todo, active, localId, now);
    var after := Sweeping(listing, todo - {id}, active, localId, now);
    var settled := before - todo;
    assert after == if Expires(p, active, localId, now) then before - {id} else before;
    assert after - (todo - {id}) == if Expires(p, active, localId, now) then settled else settled[id := p];
    DialsGrow(settled, p, active, connected, localId);
    OneDial(p, active, connected, localId);
  }

  lemma OneDial(p: PeerInfo, active: set<string>, busy: set<string>, localId: string)
    ensures ToDial(map[p.id := p], active, busy, localId) ==
            if p.id != localId && p.id !in active && p.address !in busy && p.address != "" then {p.address} else {}
  {
    var one := map[p.id := p];
    assert p.id in one && one[p.id] == p;
  }

  // ----- who is alive after the pass -----

  ghost predicate Alive(peers: Peers, active: set<string>, now: int) {
    forall id | id in active :: id in peers && Fresh(peers[id], now)
  }

  ghost predicate Listing(order: seq<string>, active: set<string>) {
    Elements(order) == active && NoDuplicates(order)
  }

  /** A stale active peer shares its address with a record that its refresh would wrongly evict or lose to. */
  ghost predicate ClashOf(peers: Peers, active: set<string>, now: int, r: string, p: string) {
    && r in active && r in peers && !Fresh(peers[r], now)
    && p in Rivals(peers, peers[r])
    && (peers[p].lastSeen > now || (p in active && Fresh(peers[p], now) && peers[p].lastSeen != now))
  }

  ghost predicate Clash(peers: Peers, active: set<string>, now: int) {
    exists r, p :: ClashOf(peers, active, now, r, p)
  }

  /** In a table with one freshness per address no refresh clashes. */
  lemma GroupedNeverClashes(peers: Peers, active: set<string>, now: int)
    requires Keyed(peers) && Gossip.Grouped(peers)
    ensures !Clash(peers, active, now)
  {
    forall r, p ensures !ClashOf(peers, active, now, r, p) {
      if r in peers && p in Rivals(peers, peers[r]) {
        assert peers[r].lastSeen == peers[p].lastSeen;
      }
    }
  }

  /** Without a clash, refreshing `id` makes it fresh, evicts no fresh active peer and brings no clash about. */
  lemma RefreshOneKeeps(peers: Peers, active: set<string>, now: int, id: string)
    requires Keyed(peers) && !Clash(peers, active, now) && id in active && id != ""
    ensures var after := RefreshOne(peers, id, now);
            && Keyed(after) && !Clash(after, active, now)
            && id in after && Fresh(after[id], now)
            && forall q | q in active && q in peers && Fresh(peers[q], now) :: q in after && after[q] == peers[q]
  {
    var after := RefreshOne(peers, id, now);
    if id !in peers {
      assert Rivals(peers, PeerInfo(id, "", now)) == {};
      assert after == peers[id := PeerInfo(id, "", now)];
    } else if !Fresh(peers[id], now) {
      var keep := peers[id].(lastSeen := now);
      assert Rivals(peers, keep) == Rivals(peers, peers[id]);
      forall p | p in Rivals(peers, keep) ensures p !in Fresher(peers, keep) {
        assert !ClashOf(peers, active, now, id, p);
      }
      assert Fresher(peers, keep) == {};
      assert after == peers[id := keep] - Staler(peers, keep);
      forall q | q in active && q in peers && Fresh(peers[q], now) ensures q in after && after[q] == peers[q] {
        assert !ClashOf(peers, active, now, id, q);
      }
    }
    forall r, p ensures !ClashOf(after, active, now, r, p) {
      if ClashOf(after, active, now, r, p) {
        assert r != id && p != id;
        assert ClashOf(peers, active, now, r, p);
      }
    }
  }

  lemma {:induction false} RefreshAllKeeps(peers: Peers, active: set<string>, now: int, order: seq<string>)
    requires Keyed(peers) && !Clash(peers, active, now) && Elements(order) <= active && "" !in active
    ensures var after := RefreshAll(peers, order, now);
            Keyed(after) && !Clash(after, active, now) && Alive(after, Elements(order), now)
    decreases |order|
  {
    if order != [] {
      var init, id := order[..|order| - 1], order[|order| - 1];
      assert order == init + [id] && Elements(order) == Elements(init) + {id};
      RefreshAllKeeps(peers, active, now, init);
      RefreshOneKeeps(RefreshAll(peers, init, now), active, now, id);
    }
  }

  /** No other live peer shares this peer's address. */
  ghost predicate Alone(peers: Peers, active: set<string>, id: string) {
    id in peers && forall q | q in active && q in peers && q != id && peers[q].address != "" ::
      peers[q].address != peers[id].address
  }

  /** During the pass a record keeps its address or has lost it, and a live peer alone at its address keeps it. */
  ghost predicate AddressesKept(peers: Peers, cur: Peers, id: string) {
    && (forall q | q in cur :: cur[q].address == "" || (q in peers && cur[q].address == peers[q].address))
    && id in peers && id in cur && cur[id].address == peers[id].address
  }

  lemma RefreshOneKeepsAddress(peers: Peers, cur: Peers, active: set<string>, now: int, r: string, id: string)
    requires Keyed(cur) && !Clash(cur, active, now) && r in active && r != ""
    requires id in active && Alone(peers, active, id) && AddressesKept(peers, cur, id)
    ensures AddressesKept(peers, RefreshOne(cur, r, now), id)
  {
    if r in cur && !Fresh(cur[r], now) {
      var keep := cur[r].(lastSeen := now);
      assert Combined(cur, PeerInfo(r, cur[r].address, now)) == keep;
      forall p | p in Rivals(cur, keep) ensures p !in Fresher(cur, keep) {
        assert !ClashOf(cur, active, now, r, p);
      }
      assert Fresher(cur, keep) == {};
      assert id !in Staler(cur, keep);
    }
  }

  /** A live peer alone at its address still has that address after the pass. */
  lemma {:induction false} RefreshKeepsAddress(peers: Peers, active: set<string>, now: int, order: seq<string>,
                                               id: string)
    requires Keyed(peers) && !Clash(peers, active, now) && Elements(order) <= active && "" !in active
    requires id in active && Alone(peers, active, id)
    ensures AddressesKept(peers, RefreshAll(peers, order, now), id)
    decreases |order|
  {
    if order != [] {
      var init, r := order[..|order| - 1], order[|order| - 1];
      assert order == init + [r] && Elements(order) == Elements(init) + {r};
      RefreshKeepsAddress(peers, active, now, init, id);
      RefreshAllKeeps(peers, active, now, init);
      RefreshOneKeepsAddress(peers, RefreshAll(peers, init, now), active, now, r, id);
    }
  }

  /** A peer that is gone and has no turn left stays gone. */
  lemma {:induction false} AbsentStaysAbsent(peers: Peers, order: seq<string>, now: int, id: string)
    requires id !in peers && id !in order
    ensures id !in RefreshAll(peers, order, now)
    decreases |order|
  {
    if order != [] {
      AbsentStaysAbsent(peers, order[..|order| - 1], now, id);
    }
  }

  lemma {:induction false} RefreshConcat(peers: Peers, a: seq<string>, b: seq<string>, now: int)
    ensures RefreshAll(peers, a + b, now) == RefreshAll(RefreshAll(peers, a, now), b, now)
    decreases |b|
  {
    if b == [] {
      assert a + b == a;
    } else {
      assert (a + b)[..|a + b| - 1] == a + b[..|b| - 1];
      RefreshConcat(peers, a, b[..|b| - 1], now);
    }
  }

  lemma ListingConcat(a: seq<string>, ids: set<string>, b: seq<string>, more: set<string>)
    requires Listing(a, ids) && Listing(b, more) && ids !! more
    ensures Listing(a + b, ids + more)
  {
    forall i | 0 <= i < |a| ensures a[i] in ids { assert a[i] in Elements(a); }
    forall i | 0 <= i < |b| ensures b[i] in more { assert b[i] in Elements(b); }
    assert forall x :: x in a + b <==> x in a || x in b;
  }

  lemma {:induction false} ListingExists(ids: set<string>) returns (order: seq<string>)
    ensures Listing(order, ids)
    decreases |ids|
  {
    if ids == {} {
      order := [];
    } else {
      var id :| id in ids;
      var rest := ListingExists(ids - {id});
      assert Elements([id]) == {id};
      ListingConcat([id], {id}, rest, ids - {id});
      assert {id} + (ids - {id}) == ids;
      order := [id] + rest;
    }
  }

  /** With a clash, handling the clashing pair first loses an active peer for the rest of the pass. */
  lemma ClashLosesAPeer(peers: Peers, active: set<string>, now: int, r: string, p: string) returns (order: seq<string>)
    requires Keyed(peers) && ClashOf(peers, active, now, r, p)
    ensures Listing(order, active) && !Alive(RefreshAll(peers, order, now), active, now)
  {
    var first := if p in active && Fresh(peers[p], now) then [p, r] else [r];
    var rest := ListingExists(active - Elements(first));
    order := first + rest;
    PairFirst(active, first, rest, r, p);
    RefreshConcat(peers, first, rest, now);
    assert RefreshAll(peers, [r], now) == RefreshOne(RefreshAll(peers, [], now), r, now);
    if |first| == 2 {
      assert first[..1] == [p] && [p][..0] == [];
      assert RefreshAll(peers, [p], now) == RefreshOne(RefreshAll(peers, [], now), p, now) == peers;
    }
    var after := RefreshAll(peers, first, now);
    assert after == RefreshOne(peers, r, now);
    var keep := peers[r].(lastSeen := now);
    assert Combined(peers, PeerInfo(r, peers[r].address, now)) == keep;
    assert p in Rivals(peers, keep);
    var lost := if Fresher(peers, keep) != {} then r else p;
    assert p in Fresher(peers, keep) || p in Staler(peers, keep);
    assert lost !in after;
    assert lost in Elements(first) && lost !in Elements(rest);
    AbsentStaysAbsent(after, rest, now, lost);
  }

  lemma PairFirst(active: set<string>, first: seq<string>, rest: seq<string>, r: string, p: string)
    requires r in active && r != p && (first == [r] || (p in active && first == [p, r]))
    requires Listing(rest, active - Elements(first))
    ensures Listing(first + rest, active)
  {
    assert Elements(first) == if |first| == 1 then {r} else {p, r};
    ListingConcat(first, Elements(first), rest, active - Elements(first));
    assert Elements(first) + (active - Elements(first)) == active;
  }

  /** Whatever the order of the sessions, every active peer ends up present and fresh exactly when nothing clashes. */
  lemma RefreshKeepsTheLiving(peers: Peers, active: set<string>, now: int)
    requires Keyed(peers) && "" !in active
    ensures (forall order | Listing(order, active) :: Alive(RefreshAll(peers, order, now), active, now))
            <==> !Clash(peers, active, now)
  {
    if !Clash(peers, active, now) {
      forall order | Listing(order, active) ensures Alive(RefreshAll(peers, order, now), active, now) {
        RefreshAllKeeps(peers, active, now, order);
      }
    } else {
      var r, p :| ClashOf(peers, active, now, r, p);
      var order := ClashLosesAPeer(peers, active, now, r, p);
    }
  }

  // ----- the pass, exactly -----

  /** A live peer that has not been heard of for thirty seconds has the address of `id`. */
  ghost predicate Displaced(peers: Peers, active: set<string>, now: int, id: string) {
    exists q | q in active && q in peers ::
      && q != id && id in peers && peers[q].address == peers[id].address != ""
      && now - peers[q].lastSeen >= 30_000_000_000
  }

  /**
   What the pass does. A live peer is there, as recent as it was if that is under thirty seconds, else seen now.
   Any other stays as it was or goes: it goes exactly when it is not ours and was last seen over thirty minutes
   ago, or when a live peer refreshed at its address displaces it.
   */
  ghost predicate PassEffect(peers: Peers, after: Peers, active: set<string>, localId: string, now: int) {
    && (forall id | id in active ::
          && id in after && now - after[id].lastSeen < 30_000_000_000
          && after[id].lastSeen ==
             if id in peers && now - peers[id].lastSeen < 30_000_000_000 then peers[id].lastSeen else now)
    && (forall id | id !in active ::
          && (id in after ==> id in peers && after[id] == peers[id])
          && (id in after <==>
                && id in peers && !Displaced(peers, active, now, id)
                && (id == localId || now - peers[id].lastSeen <= 1_800_000_000_000)))
  }

  /** The first loop, when the peers in `done` have had their turn. */
  ghost predicate Refreshed(peers: Peers, cur: Peers, done: set<string>, now: int) {
    && (forall id | id in done ::
          && id in cur && Fresh(cur[id], now)
          && cur[id].lastSeen == if id in peers && Fresh(peers[id], now) then peers[id].lastSeen else now)
    && (forall id | id !in done ::
          && (id in cur ==> id in peers && cur[id] == peers[id])
          && (id in cur <==> id in peers && !Displaced(peers, done, now, id)))
  }

  lemma RefreshOneIsExact(peers: Peers, cur: Peers, active: set<string>, done: set<string>, now: int, r: string)
    requires Keyed(peers) && Gossip.Grouped(peers) && Keyed(cur) && !Clash(cur, active, now)
    requires done <= active && r in active && r !in done && r != "" && Refreshed(peers, cur, done, now)
    ensures Refreshed(peers, RefreshOne(cur, r, now), done + {r}, now)
  {
    var after := RefreshOne(cur, r, now);
    RefreshOneKeeps(cur, active, now, r);
    forall id ensures Displaced(peers, done + {r}, now, id) <==>
                      Displaced(peers, done, now, id) || Displaced(peers, {r}, now, id) {}
    if r in cur && !Fresh(cur[r], now) {
      TurnOf(cur, active, now, r);
    } else {
      forall id | id != r ensures id in after <==> id in cur {}
      if r !in cur && r in peers {
        SharedFate(peers, done, now, r);
      }
    }
  }

  /** What displaced a peer displaces the others at its address. */
  lemma SharedFate(peers: Peers, done: set<string>, now: int, r: string)
    requires Gossip.Grouped(peers) && r in peers && r !in done && Displaced(peers, done, now, r)
    ensures !Fresh(peers[r], now)
    ensures forall id | id !in done && Displaced(peers, {r}, now, id) :: Displaced(peers, done, now, id)
  {}

  /** The turn of a stale live peer: it is seen now, and the staler records at its address go. */
  lemma TurnOf(cur: Peers, active: set<string>, now: int, r: string)
    requires Keyed(cur) && !Clash(cur, active, now) && r in active && r != "" && r in cur && !Fresh(cur[r], now)
    ensures var after, keep := RefreshOne(cur, r, now), cur[r].(lastSeen := now);
            after == cur[r := keep] - Staler(cur, keep)
  {
    var keep := cur[r].(lastSeen := now);
    assert Combined(cur, PeerInfo(r, cur[r].address, now)) == keep;
    assert Rivals(cur, keep) == Rivals(cur, cur[r]);
    forall p | p in Rivals(cur, keep) ensures p !in Fresher(cur, keep) {
      assert !ClashOf(cur, active, now, r, p);
    }
    assert Fresher(cur, keep) == {};
  }

  lemma {:induction false} RefreshIsExact(peers: Peers, active: set<string>, order: seq<string>, now: int)
    requires Keyed(peers) && Gossip.Grouped(peers)
    requires "" !in active && Elements(order) <= active && NoDuplicates(order)
    ensures Refreshed(peers, RefreshAll(peers, order, now), Elements(order), now)
    decreases |order|
  {
    if order != [] {
      var init, r := order[..|order| - 1], order[|order| - 1];
      assert order == init + [r] && Elements(order) == Elements(init) + {r} && r !in init;
      RefreshIsExact(peers, active, init, now);
      GroupedNeverClashes(peers, active, now);
      RefreshAllKeeps(peers, active, now, init);
      RefreshOneIsExact(peers, RefreshAll(peers, init, now), active, Elements(init), now, r);
    }
  }

  lemma PassIsExact(peers: Peers, active: set<string>, order: seq<string>, localId: string, now: int)
    requires Keyed(peers) && Gossip.Grouped(peers) && "" !in active && Listing(order, active)
    ensures PassEffect(peers, Sweep(RefreshAll(peers, order, now), active, localId, now), active, localId, now)
  {
    RefreshIsExact(peers, active, order, now);
    GroupedNeverClashes(peers, active, now);
    RefreshAllKeeps(peers, active, now, order);
    hide RefreshAll, Displaced;
  }

  /**
   The whole pass over a table reached by any run from one with the address invariant, empty or loaded, for
   every order of the sessions.
   */
  lemma PassKeepsLivingDropsStale(start: Peers, ops: seq<Gossip.Op>, active: set<string>, order: seq<string>,
                                  localId: string, now: int)
    requires Keyed(start) && Gossip.Grouped(start) && "" !in active && Listing(order, active)
    ensures var peers := Gossip.Run(start, ops);
            PassEffect(peers, Sweep(RefreshAll(peers, order, now), active, localId, now), active, localId, now)
  {
    Gossip.ReachableIsGrouped(start, ops);
    PassIsExact(Gossip.Run(start, ops), active, order, localId, now);
  }

  /** A table that lost the address invariant, as a file edited by hand may have, can lose a live peer. */
  lemma UngroupedTableLosesALivePeer()
    ensures var peers := map["a" := PeerInfo("a", "x", -1), "b" := PeerInfo("b", "x", -REFRESH_INTERVAL)];
            Keyed(peers) && Clash(peers, {"a", "b"}, 0)
  {
    var peers := map["a" := PeerInfo("a", "x", -1), "b" := PeerInfo("b", "x", -REFRESH_INTERVAL)];
    assert ClashOf(peers, {"a", "b"}, 0, "b", "a");
  }
}
