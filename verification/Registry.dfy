/**
 The registry of live mesh sessions: at most one session per peer, duplicates
 settled by a tie-break inside a collision window, and the connection of every
 session that is not current closed.
 */
module Registry {
  import opened Common
  import Topology

  /** Nanoseconds: ten seconds. */
  const COLLISION_WINDOW: int := 10_000_000_000

  /** `id` stands for the session object and the one connection it wraps. */
  datatype Session = Session(id: nat, peerId: string, initiator: bool, addedAt: int)

  datatype AddError = InvalidSession | SelfConnection | RegistryClosed | TieBreak | DuplicateOutbound

  /** `dead` holds the connections whose context is done on this node. */
  datatype State = State(localId: string, sessions: map<string, Session>, closed: bool, dead: set<nat>)

  function Empty(localId: string): State { State(localId, map[], false, {}) }

  predicate Current(st: State, s: Session) {
    s.peerId in st.sessions && st.sessions[s.peerId].id == s.id
  }

  /** A live session for the same peer that `s` would have to displace. */
  predicate LiveRival(st: State, s: Session) {
    s.peerId in st.sessions && st.sessions[s.peerId].id !in st.dead
  }

  /** Why a new session is refused; `None` when it is admitted. A missing session is a nil argument. */
  function Verdict(st: State, s: Option<Session>, now: int): Option<AddError> {
    if s.None? || s.value.peerId == "" then Some(InvalidSession)
    else if s.value.peerId == st.localId then Some(SelfConnection)
    else if st.closed then Some(RegistryClosed)
    else if !LiveRival(st, s.value) then None
    else
      var rival := st.sessions[s.value.peerId];
      if now - rival.addedAt < COLLISION_WINDOW then
        var keepOutbound := Less(s.value.peerId, st.localId);
        if rival.initiator == keepOutbound || s.value.initiator != keepOutbound then Some(TieBreak) else None
      else if s.value.initiator then Some(DuplicateOutbound)
      else None
  }

  /** The state after admitting `s`: it becomes current and whatever it displaced is closed. */
  function Admitted(st: State, s: Session, now: int): State {
    st.(sessions := st.sessions[s.peerId := s.(addedAt := now)],
        dead := if s.peerId in st.sessions then st.dead + {st.sessions[s.peerId].id} else st.dead)
  }

  /** A connection given to the engine: registered, or closed when no client can be made or it is refused. */
  function Connected(st: State, s: Session, now: int, client: bool): State {
    if client && Verdict(st, Some(s), now).None? then Admitted(st, s, now) else st.(dead := st.dead + {s.id})
  }

  function Removed(st: State, s: Session): State {
    if Current(st, s) then st.(sessions := st.sessions - {s.peerId}, dead := st.dead + {s.id}) else st
  }

  function CurrentIds(sessions: map<string, Session>): set<nat> {
    set p | p in sessions :: sessions[p].id
  }

  lemma IdsWithout(sessions: map<string, Session>, p: string)
    requires p in sessions
    ensures CurrentIds(sessions) == CurrentIds(sessions - {p}) + {sessions[p].id}
  {
    forall q | q in sessions ensures sessions[q].id in CurrentIds(sessions - {p}) + {sessions[p].id} {
      if q != p {
        assert q in sessions - {p} && (sessions - {p})[q] == sessions[q];
      }
    }
  }

  function Closed(st: State): State {
    if st.closed then st
    else st.(closed := true, sessions := map[], dead := st.dead + CurrentIds(st.sessions))
  }

  // ----- the subscribers to new sessions -----

  /** Room in a new channel beyond the sessions that exist already. */
  const SPARE: nat := 100

  datatype Channel = Channel(capacity: nat, sessions: seq<Session>)

  type Subscribers = map<nat, Channel>

  /** A send that does not wait: a full channel misses the session. */
  function Offered(ch: Channel, s: Session): Channel {
    if |ch.sessions| < ch.capacity then ch.(sessions := ch.sessions + [s]) else ch
  }

  function Told(subs: Subscribers, s: Session): Subscribers { map c | c in subs :: Offered(subs[c], s) }

  /** Sessions told to a channel one after another. */
  function ToldAll(ch: Channel, ss: seq<Session>): Channel {
    if ss == [] then ch else Offered(ToldAll(ch, ss[..|ss| - 1]), ss[|ss| - 1])
  }

  /** A channel keeps the first sessions it has room for, in order, and misses the rest. */
  lemma {:induction false} ChannelKeepsFirst(ch: Channel, ss: seq<Session>)
    requires |ch.sessions| <= ch.capacity
    ensures var room := ch.capacity - |ch.sessions|;
            ToldAll(ch, ss) == ch.(sessions := ch.sessions + ss[..if |ss| < room then |ss| else room])
    decreases |ss|
  {
    var room := ch.capacity - |ch.sessions|;
    if ss != [] {
      var init, last := ss[..|ss| - 1], ss[|ss| - 1];
      ChannelKeepsFirst(ch, init);
      if |ss| <= room {
        assert ch.sessions + ss[..|ss|] == ch.sessions + init[..|init|] + [last];
      } else {
        assert ss[..room] == init[..room];
      }
    }
  }

  /** What the engine reports about a connection: the address only if we dialled it. */
  function Sighting(s: Session, remote: string, now: int): Topology.PeerInfo {
    Topology.PeerInfo(s.peerId, if s.initiator then remote else "", now)
  }

  /** A connection we dialled sets the address its peer is known by; one that came in leaves it as it was. */
  lemma SightingSetsAddress(peers: Topology.Peers, s: Session, remote: string, now: int)
    requires s.peerId in Topology.Merge(peers, Sighting(s, remote, now)) && s.peerId != ""
    ensures var p := Topology.Merge(peers, Sighting(s, remote, now))[s.peerId];
            && (s.initiator && remote != "" ==> p.address == remote)
            && (!s.initiator ==> p.address == if s.peerId in peers then peers[s.peerId].address else "")
            && p.lastSeen >= now
  {}

  /** The contexts of the connections, shared by everyone who can close one. */
  class Connections {
    var dead: set<nat>

    constructor ()
      ensures dead == {}
    {
      dead := {};
    }

    method CloseSession(s: Session)
      modifies this
      ensures dead == old(dead) + {s.id}
    {
      dead := dead + {s.id};
    }
  }

  class SessionRegistry {
    const localId: string
    const conns: Connections
    var sessions: map<string, Session>
    var closed: bool
    var subs: Subscribers
    var nextSub: nat

    ghost predicate Valid()
      reads this
    {
      && (closed ==> sessions == map[] && subs == map[])
      && (forall c | c in subs :: c < nextSub)
    }

    function View(): State
      reads this, conns
    {
      State(localId, sessions, closed, conns.dead)
    }

    constructor (localId: string, conns: Connections)
      ensures View() == Empty(localId).(dead := conns.dead)
      ensures Valid() && this.conns == conns && subs == map[]
    {
      this.localId := localId;
      this.conns := conns;
      sessions, subs, nextSub := map[], map[], 0;
      closed := false;
    }

    method Add(s: Option<Session>, now: int) returns (err: Option<AddError>)
      requires Valid()
      modifies this, conns
      ensures Valid() && err == Verdict(old(View()), s, now)
      ensures View() == if err.None? then Admitted(old(View()), s.value, now) else old(View())
      ensures subs == if err.None? then Told(old(subs), s.value.(addedAt := now)) else old(subs)
    {
      if s.None? || s.value.peerId == "" {
        return Some(InvalidSession);
      }
      if s.value.peerId == localId {
        return Some(SelfConnection);
      }
      if closed {
        return Some(RegistryClosed);
      }
      var displaced: Option<Session> := None;
      if s.value.peerId in sessions {
        var rival := sessions[s.value.peerId];
        displaced := Some(rival);
        if rival.id !in conns.dead {
          if now - rival.addedAt < COLLISION_WINDOW {
            var keepOutbound := Less(s.value.peerId, localId);
            if rival.initiator == keepOutbound || s.value.initiator != keepOutbound {
              return Some(TieBreak);
            }
          } else if s.value.initiator {
            return Some(DuplicateOutbound);
          }
        }
      }
      sessions := sessions[s.value.peerId := s.value.(addedAt := now)];
      TellSubscribers(s.value.(addedAt := now));
      if displaced.Some? {
        conns.CloseSession(displaced.value);
      }
      return None;
    }

    method TellSubscribers(s: Session)
      modifies this`subs
      ensures subs == Told(old(subs), s)
    {
      var todo := subs.Keys;
      while todo != {}
        invariant todo <= subs.Keys == old(subs).Keys
        invariant forall c | c in subs :: subs[c] == if c in todo then old(subs)[c] else Offered(old(subs)[c], s)
        decreases todo
      {
        var c :| c in todo;
        todo := todo - {c};
        if |subs[c].sessions| < subs[c].capacity {
          subs := subs[c := subs[c].(sessions := subs[c].sessions + [s])];
        }
      }
    }

    /** A new subscriber finds every current session in its channel; after shutdown it gets a closed one. */
    method SubscribeNewSessions() returns (c: Option<nat>)
      requires Valid()
      modifies this`subs, this`nextSub
      ensures Valid() && (c.None? <==> closed) && (c.None? ==> subs == old(subs))
      ensures c.Some? ==> c.value !in old(subs) && c.value in subs && subs - {c.value} == old(subs)
      ensures c.Some? ==> var ch := subs[c.value];
                          && ch.capacity == |sessions| + 100
                          && |ch.sessions| == |sessions|
                          && (forall p | p in sessions :: sessions[p] in ch.sessions)
                          && (forall s | s in ch.sessions :: s in sessions.Values)
    {
      if closed {
        return None;
      }
      var queue: seq<Session> := [];
      var todo := sessions.Keys;
      while todo != {}
        invariant todo <= sessions.Keys && |queue| + |todo| == |sessions|
        invariant forall p | p in sessions && p !in todo :: sessions[p] in queue
        invariant forall s | s in queue :: s in sessions.Values
        decreases todo
      {
        var p :| p in todo;
        todo := todo - {p};
        queue := queue + [sessions[p]];
      }
      c := Some(nextSub);
      subs := subs[nextSub := Channel(|sessions| + SPARE, queue)];
      nextSub := nextSub + 1;
    }

    /** The subscriber's context ends. */
    method Unsubscribe(c: nat)
      requires Valid()
      modifies this`subs
      ensures Valid() && subs == old(subs) - {c}
    {
      subs := subs - {c};
    }

    method Remove(s: Option<Session>)
      requires Valid()
      modifies this, conns
      ensures Valid() && subs == old(subs)
      ensures View() == if s.Some? && s.value.peerId != "" then Removed(old(View()), s.value) else old(View())
    {
      if s.None? || s.value.peerId == "" {
        return;
      }
      if s.value.peerId !in sessions || sessions[s.value.peerId].id != s.value.id {
        return;
      }
      sessions := sessions - {s.value.peerId};
      conns.CloseSession(s.value);
    }

    method Close()
      requires Valid()
      modifies this, conns
      ensures Valid() && subs == map[]
      ensures View() == Closed(old(View()))
    {
      if closed {
        return;
      }
      closed := true;
      var pending := sessions;
      sessions, subs := map[], map[];
      while pending != map[]
        invariant pending.Keys <= old(sessions).Keys
        invariant forall p | p in pending :: pending[p] == old(sessions)[p]
        invariant conns.dead + CurrentIds(pending) == old(conns.dead) + CurrentIds(old(sessions))
        invariant closed && sessions == map[] && subs == map[]
        decreases |pending.Keys|
      {
        var p :| p in pending;
        conns.CloseSession(pending[p]);
        ghost var rest := pending;
        pending := pending - {p};
        IdsWithout(rest, p);
      }
    }

    /**
     The engine's entry point: note the peer in the store, then register the connection or close it. `client`
     says whether a client over the connection could be made.
     */
    method HandleConnection(s: Session, remote: string, now: int, client: bool, store: Topology.Store)
      returns (running: bool)
      requires Valid() && store.Valid()
      modifies this, conns, store
      ensures Valid() && store.Valid() && store.peers == Topology.Merge(old(store.peers), Sighting(s, remote, now))
      ensures View() == Connected(old(View()), s, now, client)
      ensures running <==> client && Verdict(old(View()), Some(s), now).None?
    {
      var _ := store.InsertMerge(Sighting(s, remote, now));
      if !client {
        conns.CloseSession(s);
        return false;
      }
      var err := Add(Some(s), now);
      if err.Some? {
        conns.CloseSession(s);
        return false;
      }
      return true;
    }
  }

  // ----- whole runs of one node -----

  datatype Step =
    | Connect(s: Session, now: int, client: bool)   // a dialled or accepted connection reaches the engine
    | EndSession(s: Session)                        // runSession of an accepted connection returns
    | ConnectionDown(id: nat)                       // the remote side or the idle timeout ends a connection
    | Shutdown

  /** `given` remembers every connection the engine was handed, with its peer. */
  datatype Node = Node(st: State, given: map<nat, string>)

  predicate Enabled(n: Node, step: Step) {
    match step
    case Connect(s, _, _) => s.id !in n.given
    case EndSession(s) => s.id in n.given && n.given[s.id] == s.peerId
    case ConnectionDown(_) => true
    case Shutdown => true
  }

  function Next(n: Node, step: Step): Node {
    match step
    case Connect(s, now, client) => Node(Connected(n.st, s, now, client), n.given[s.id := s.peerId])
    case EndSession(s) => n.(st := if s.peerId != "" then Removed(n.st, s) else n.st)
    case ConnectionDown(id) => n.(st := n.st.(dead := n.st.dead + {id}))
    case Shutdown => n.(st := Closed(n.st))
  }

  predicate Legal(n: Node, run: seq<Step>)
    decreases |run|
  {
    run == [] || (Enabled(n, run[0]) && Legal(Next(n, run[0]), run[1..]))
  }

  function After(n: Node, run: seq<Step>): Node
    decreases |run|
  {
    if run == [] then n else After(Next(n, run[0]), run[1..])
  }

  /** Nothing is leaked: a connection handed over is current or closed, and the table is sound. */
  ghost predicate Sound(n: Node) {
    && (forall id | id in n.given ::
          id in n.st.dead || (n.given[id] in n.st.sessions && n.st.sessions[n.given[id]].id == id))
    && (forall p | p in n.st.sessions ::
          var s := n.st.sessions[p]; s.peerId == p && s.id in n.given && n.given[s.id] == p)
    && n.st.localId !in n.st.sessions
    && "" !in n.st.sessions
    && (n.st.closed ==> n.st.sessions == map[])
  }

  lemma StepKeepsSound(n: Node, step: Step)
    requires Sound(n) && Enabled(n, step)
    ensures Sound(Next(n, step))
    ensures Next(n, step).st.localId == n.st.localId
    ensures n.st.closed ==> Next(n, step).st.closed
    ensures n.st.dead <= Next(n, step).st.dead
  {
  }

  /**
   In every run, each connection given to the engine is the current session of its peer or closed;
   the local node is never a peer, closed connections stay closed, and a shut registry stays empty.
   */
  lemma {:induction false} NoConnectionLeaks(n: Node, run: seq<Step>)
    requires Sound(n) && Legal(n, run)
    ensures Sound(After(n, run))
    ensures After(n, run).st.localId == n.st.localId
    ensures n.st.dead <= After(n, run).st.dead
    ensures n.st.closed ==> After(n, run).st.closed && After(n, run).st.sessions == map[]
    decreases |run|
  {
    if run != [] {
      StepKeepsSound(n, run[0]);
      NoConnectionLeaks(Next(n, run[0]), run[1..]);
    }
  }

  /** In particular from a node that has just started. */
  lemma FreshNodeNeverLeaks(localId: string, run: seq<Step>)
    requires Legal(Node(Empty(localId), map[]), run)
    ensures var end := After(Node(Empty(localId), map[]), run);
            && Sound(end) && localId !in end.st.sessions
            && forall id | id in end.given && id !in end.st.dead :: end.st.sessions[end.given[id]].id == id
  {
    NoConnectionLeaks(Node(Empty(localId), map[]), run);
  }

  /** A current session leaves the table for three reasons only; the late end of a displaced one is not among them. */
  lemma EvictionCauses(n: Node, step: Step, peer: string)
    requires Sound(n) && Enabled(n, step) && peer in n.st.sessions
    requires var st' := Next(n, step).st; peer !in st'.sessions || st'.sessions[peer].id != n.st.sessions[peer].id
    ensures || (step.EndSession? && step.s.id == n.st.sessions[peer].id)
            || (step.Connect? && step.client && step.s.peerId == peer && Verdict(n.st, Some(step.s), step.now).None?)
            || step.Shutdown?
    ensures n.st.sessions[peer].id in Next(n, step).st.dead
  {
  }

  /** A session that ends leaves the table closed if it is current; the late end of a displaced one changes nothing. */
  lemma EndedSessionLeaves(n: Node, s: Session)
    requires Sound(n) && Enabled(n, EndSession(s))
    ensures var n' := Next(n, EndSession(s));
            && !Current(n'.st, s) && s.id in n'.st.dead
            && (!Current(n.st, s) ==> n' == n)
            && forall p | p != s.peerId :: p in n'.st.sessions <==> p in n.st.sessions
  {}

  /** A valid connection of a peer without a live session is admitted, whichever side dialled and whenever. */
  lemma NewPeerIsAdmitted(n: Node, s: Session, now: int)
    requires s.peerId != "" && s.peerId != n.st.localId && !n.st.closed
    requires s.peerId in n.st.sessions ==> n.st.sessions[s.peerId].id in n.st.dead
    ensures var n' := Next(n, Connect(s, now, true)); Current(n'.st, s) && n'.st.sessions[s.peerId].addedAt == now
  {}

  /** After a shutdown every connection ever handed over is closed, whatever still comes. */
  lemma ShutdownIsFinal(n: Node, run: seq<Step>)
    requires Sound(n) && Legal(Next(n, Shutdown), run)
    ensures var end := After(Next(n, Shutdown), run);
            end.st.sessions == map[] && forall id | id in end.given :: id in end.st.dead
  {
    StepKeepsSound(n, Shutdown);
    NoConnectionLeaks(Next(n, Shutdown), run);
  }

  /** The side with the higher identifier dialled this connection. */
  predicate HigherDialled(st: State, s: Session) { s.initiator <==> Less(s.peerId, st.localId) }

  /**
   A second connection while the first is alive. Within ten seconds only a connection the higher side dialled is
   admitted, and only in place of one it did not; later only a connection that comes in.
   */
  lemma CollisionDecides(st: State, s: Session, now: int)
    requires s.peerId != "" && s.peerId != st.localId && !st.closed && LiveRival(st, s)
    requires st.sessions[s.peerId].peerId == s.peerId
    ensures var rival := st.sessions[s.peerId];
            if now - rival.addedAt < 10_000_000_000 then
              Verdict(st, Some(s), now) ==
                if HigherDialled(st, s) && !HigherDialled(st, rival) then None else Some(TieBreak)
            else Verdict(st, Some(s), now) == if s.initiator then Some(DuplicateOutbound) else None
  {}

  /** The other refusals. */
  lemma RefusalReasons(st: State, s: Option<Session>, now: int)
    ensures Verdict(st, s, now) == Some(InvalidSession) <==> s.None? || s.value.peerId == ""
    ensures Verdict(st, s, now) == Some(SelfConnection) <==>
            s.Some? && s.value.peerId == st.localId && s.value.peerId != ""
    ensures Verdict(st, s, now) == Some(RegistryClosed) <==>
            s.Some? && s.value.peerId !in {"", st.localId} && st.closed
  {}
}
