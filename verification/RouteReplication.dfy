/**
 Replication of a node's clients to a subscriber's routing table. The stream is
 that of the rules, but a table has one route per address, whoever's it is: an
 announcement is refused while someone else holds the address, and a withdrawal
 is obeyed whoever does. So everything is stated address by address.
 */
module RouteReplication {
  import opened Common
  import opened Reconcile
  import opened Events

  datatype Setting = Setting(owner: string, subscriber: string)

  datatype Msg = Sync(dump: seq<ClientInfo>) | Added(c: ClientInfo) | Removed(c: ClientInfo)

  /** `queue` is the subscriber's channel at the owner, `stream` what has been sent and not received. */
  datatype World = World(owner: Routes, subscribed: bool, queue: seq<Msg>, stream: seq<Msg>, copy: Routes)

  datatype Step =
    | OwnerAdds(ip: u32)
    | OwnerRemoves(ip: u32)
    | OwnerLearns(ip: u32, node: Option<string>)   // the owner's table changes by what other nodes report
    | CopyLearns(ip: u32, node: Option<string>)    // the subscriber's table changes otherwise
    | Subscribe
    | SendDump(dump: seq<ClientInfo>)
    | Forward
    | Deliver
    | Disconnect

  // ----- the steps -----

  ghost predicate IsDump(dump: seq<ClientInfo>, routes: Routes) {
    && (forall c | c in dump :: c.ip in routes && routes[c.ip] == c.node)
    && (forall ip | ip in routes :: ClientInfo(ip, routes[ip]) in dump)
  }

  function Put(routes: Routes, ip: u32, node: Option<string>): Routes {
    match node
    case None => routes - {ip}
    case Some(n) => routes[ip := n]
  }

  function Notify(w: World, m: Msg): World {
    if w.subscribed then w.(queue := Offered(w.queue, m)) else w
  }

  /** What one message does to the subscriber's route to an address. */
  function Arrival(st: Setting, route: Option<string>, m: Msg, ip: u32): Option<string> {
    match m
    case Sync(dump) => SettledRoute(st.subscriber, st.owner, route, dump, ip)
    case Added(c) => if c.ip == ip && c.node != st.subscriber && route.None? then Some(c.node) else route
    case Removed(c) => if c.ip == ip then None else route
  }

  function Mentioned(m: Msg): set<u32> {
    match m
    case Sync(dump) => set c | c in dump :: c.ip
    case Added(c) => {c.ip}
    case Removed(c) => {c.ip}
  }

  ghost function Received(st: Setting, copy: Routes, m: Msg): (r: Routes)
    ensures forall ip :: RouteOf(r, ip) == Arrival(st, RouteOf(copy, ip), m, ip)
  {
    forall ip | ip !in copy && ip !in Mentioned(m) ensures Arrival(st, None, m, ip).None? {
      if m.Sync? {
        LastIsReported(m.dump, ip);
      }
    }
    map ip | ip in copy.Keys + Mentioned(m) && Arrival(st, RouteOf(copy, ip), m, ip).Some?
      :: Arrival(st, RouteOf(copy, ip), m, ip).value
  }

  ghost predicate Enabled(w: World, step: Step) {
    match step
    case Subscribe => !w.subscribed
    case SendDump(dump) => w.subscribed && IsDump(dump, w.owner)
    case Forward => w.queue != []
    case Deliver => w.stream != []
    case Disconnect => w.subscribed
    case _ => true
  }

  ghost function Next(st: Setting, w: World, step: Step): World
    requires Enabled(w, step)
  {
    match step
    case OwnerAdds(ip) =>
      if ip in w.owner then w
      else Notify(w.(owner := w.owner[ip := st.owner]), Added(ClientInfo(ip, st.owner)))
    case OwnerRemoves(ip) =>
      if ip !in w.owner then w
      else Notify(w.(owner := w.owner - {ip}), Removed(ClientInfo(ip, w.owner[ip])))
    case OwnerLearns(ip, node) => w.(owner := Put(w.owner, ip, node))
    case CopyLearns(ip, node) => w.(copy := Put(w.copy, ip, node))
    case Subscribe => w.(subscribed := true, queue := [], stream := [])
    case SendDump(dump) => w.(stream := w.stream + [Sync(dump)])
    case Forward => w.(queue := w.queue[1..], stream := w.stream + [w.queue[0]])
    case Deliver => w.(stream := w.stream[1..], copy := Received(st, w.copy, w.stream[0]))
    case Disconnect => w.(subscribed := false, queue := [], stream := [])
  }

  /** The step loses information about the address. */
  predicate LosesAt(w: World, step: Step, ip: u32) {
    || step.Disconnect?
    || (step.OwnerAdds? && step.ip == ip && ip !in w.owner && !(w.subscribed && |w.queue| < CHANNEL))
    || (step.OwnerRemoves? && step.ip == ip && ip in w.owner && !(w.subscribed && |w.queue| < CHANNEL))
  }

  /** The step is somebody else's claim to the address, or the end of one. */
  predicate Disturbs(step: Step, ip: u32) { (step.OwnerLearns? || step.CopyLearns?) && step.ip == ip }

  // ----- the two sides -----

  /** The owner's routing table and the event channel of every subscriber. */
  class RouteSource {
    const node: string
    var routes: Routes
    var channels: map<nat, seq<Msg>>

    ghost function View(ch: nat, stream: seq<Msg>, copy: Routes): World
      requires ch in channels
      reads this
    {
      World(routes, true, channels[ch], stream, copy)
    }

    constructor (node: string, routes: Routes)
      ensures this.node == node && this.routes == routes && channels == map[]
    {
      this.node, this.routes, channels := node, routes, map[];
    }

    /** A client comes: refused when the address is taken, announced otherwise; one step to every subscriber. */
    method AddRoutingObject(ip: u32, st: Setting) returns (ok: bool)
      requires st.owner == node
      modifies this
      ensures (ok <==> ip !in old(routes)) && channels.Keys == old(channels).Keys
      ensures routes == if ok then old(routes)[ip := node] else old(routes)
      ensures forall ch, stream, copy | ch in channels ::
                View(ch, stream, copy) == Next(st, old(View(ch, stream, copy)), OwnerAdds(ip))
    {
      if ip in routes {
        return false;
      }
      routes := routes[ip := node];
      channels := OfferAll(channels, Added(ClientInfo(ip, node)));
      return true;
    }

    /** A client goes: whatever route is there is deleted and withdrawn in the name of its node. */
    method DeleteRoutingObject(ip: u32, st: Setting)
      requires st.owner == node
      modifies this
      ensures routes == old(routes) - {ip} && channels.Keys == old(channels).Keys
      ensures forall ch, stream, copy | ch in channels ::
                View(ch, stream, copy) == Next(st, old(View(ch, stream, copy)), OwnerRemoves(ip))
    {
      if ip !in routes {
        return;
      }
      var holder := routes[ip];
      routes := routes - {ip};
      channels := OfferAll(channels, Removed(ClientInfo(ip, holder)));
    }

    method BuildSync() returns (dump: seq<ClientInfo>)
      ensures IsDump(dump, routes)
    {
      dump := [];
      var todo := routes.Keys;
      while todo != {}
        invariant todo <= routes.Keys
        invariant forall c | c in dump :: c.ip in routes && routes[c.ip] == c.node
        invariant forall ip | ip in routes && ip !in todo :: ClientInfo(ip, routes[ip]) in dump
        decreases todo
      {
        var ip :| ip in todo;
        todo := todo - {ip};
        dump := dump + [ClientInfo(ip, routes[ip])];
      }
    }
  }

  /** The dispatch of one message off the stream is the protocol's delivery. */
  method Dispatch(st: Setting, syncer: Syncer, m: Msg)
    requires syncer.localId == st.subscriber && st.owner != st.subscriber
    modifies syncer`routes
    ensures syncer.routes == Received(st, old(syncer.routes), m)
  {
    match m {
      case Sync(dump) => syncer.SyncClients(st.owner, dump);
      case Added(c) => syncer.AddRemoteRoute(c);
      case Removed(c) => syncer.DeleteRemoteRoute(c);
    }
    SameRoutes(syncer.routes, Received(st, old(syncer.routes), m));
  }

  lemma SameRoutes(a: Routes, b: Routes)
    requires forall ip :: RouteOf(a, ip) == RouteOf(b, ip)
    ensures a == b
  {
    forall ip | ip in a || ip in b ensures ip in a && ip in b && a[ip] == b[ip] {
      assert RouteOf(a, ip) == RouteOf(b, ip);
    }
  }

  // ----- one address -----

  /** The subscriber's route once all these messages have arrived. */
  function Arrivals(st: Setting, route: Option<string>, ms: seq<Msg>, ip: u32): Option<string> {
    if ms == [] then route else Arrival(st, Arrivals(st, route, ms[..|ms| - 1], ip), ms[|ms| - 1], ip)
  }

  /** Someone other than the owner holds the address. */
  predicate Foreign(st: Setting, route: Option<string>) { route.Some? && route != Some(st.owner) }

  /** What the last event about the address says: that the owner's client is there, or gone. */
  function LastEvent(ms: seq<Msg>, ip: u32): Option<bool> {
    if ms == [] then None
    else
      var last := ms[|ms| - 1];
      if !last.Sync? && last.c.ip == ip then Some(last.Added?) else LastEvent(ms[..|ms| - 1], ip)
  }

  ghost predicate Withdraws(ms: seq<Msg>, ip: u32) { exists m :: m in ms && m.Removed? && m.c.ip == ip }

  ghost predicate WellFormed(st: Setting, w: World) {
    && st.owner != st.subscriber
    && (forall m | m in w.queue :: !m.Sync? && (m.Added? ==> m.c.node == st.owner))
    && (!w.subscribed ==> w.queue == [] && w.stream == [])
  }

  /** What is under way leads the subscriber's route to the owner's. */
  ghost predicate Converging(st: Setting, w: World, ip: u32) {
    Arrivals(st, RouteOf(w.copy, ip), w.stream + w.queue, ip) == RouteOf(w.owner, ip)
  }

  ghost predicate QueueAgrees(w: World, ip: u32) {
    LastEvent(w.queue, ip) in {None, Some(ip in w.owner)}
  }

  /** A dump leaves the address with somebody else: a local client, or a third node the owner does not contradict. */
  ghost predicate Shadowed(st: Setting, w: World, ip: u32) {
    var route := Arrivals(st, RouteOf(w.copy, ip), w.stream, ip);
    route == Some(st.subscriber) || (Foreign(st, route) && ip !in w.owner)
  }

  lemma {:induction false} ArrivalsConcat(st: Setting, route: Option<string>, a: seq<Msg>, b: seq<Msg>, ip: u32)
    ensures Arrivals(st, route, a + b, ip) == Arrivals(st, Arrivals(st, route, a, ip), b, ip)
    decreases |b|
  {
    if b == [] {
      assert a + b == a;
    } else {
      assert (a + b)[..|a + b| - 1] == a + b[..|b| - 1];
      ArrivalsConcat(st, route, a, b[..|b| - 1], ip);
    }
  }

  /** The last event decides, unless someone else holds the address and nothing is withdrawn. */
  lemma {:induction false} EventsDecide(st: Setting, route: Option<string>, ms: seq<Msg>, ip: u32)
    requires st.owner != st.subscriber
    requires forall m | m in ms :: !m.Sync? && (m.Added? ==> m.c.node == st.owner)
    ensures Arrivals(st, route, ms, ip) ==
            if Foreign(st, route) && !Withdraws(ms, ip) then route
            else match LastEvent(ms, ip)
                 case None => route
                 case Some(there) => if there then Some(st.owner) else None
    decreases |ms|
  {
    if ms != [] {
      var init, last := ms[..|ms| - 1], ms[|ms| - 1];
      assert ms == init + [last];
      EventsDecide(st, route, init, ip);
      WithdrawalIsEvent(init, ip);
      assert Withdraws(ms, ip) <==> Withdraws(init, ip) || (last.Removed? && last.c.ip == ip) by {
        assert forall m :: m in ms <==> m in init || m == last;
      }
    }
  }

  lemma DumpTells(dump: seq<ClientInfo>, routes: Routes, ip: u32)
    requires IsDump(dump, routes)
    ensures LastFor(dump, ip) == RouteOf(routes, ip)
  {
    LastIsReported(dump, ip);
    if ip in routes {
      assert Reports(dump, routes[ip], ip);
    }
  }

  /**
   A dump puts the subscriber's route on its way to the owner's exactly when the waiting events agree with the
   table and, if somebody else keeps the address through the dump, one of them withdraws it.
   */
  lemma DumpRestoresIff(st: Setting, w: World, dump: seq<ClientInfo>, ip: u32)
    requires WellFormed(st, w) && Enabled(w, SendDump(dump)) && !Foreign(st, RouteOf(w.owner, ip))
    ensures Converging(st, Next(st, w, SendDump(dump)), ip) <==>
            QueueAgrees(w, ip) && (Shadowed(st, w, ip) ==> Withdraws(w.queue, ip))
  {
    var w' := Next(st, w, SendDump(dump));
    var route := Arrivals(st, RouteOf(w.copy, ip), w.stream, ip);
    var settled := Arrival(st, route, Sync(dump), ip);
    DumpTells(dump, w.owner, ip);
    assert w'.stream[..|w.stream|] == w.stream;
    ArrivalsConcat(st, RouteOf(w.copy, ip), w'.stream, w.queue, ip);
    EventsDecide(st, settled, w.queue, ip);
    WithdrawalIsEvent(w.queue, ip);
  }

  lemma {:induction false} WithdrawalIsEvent(ms: seq<Msg>, ip: u32)
    ensures Withdraws(ms, ip) ==> LastEvent(ms, ip).Some?
    decreases |ms|
  {
    if ms != [] {
      WithdrawalIsEvent(ms[..|ms| - 1], ip);
      assert forall m | m in ms :: m in ms[..|ms| - 1] || m == ms[|ms| - 1];
    }
  }

  // ----- steps that lose and disturb nothing -----

  lemma OneMoreEvent(st: Setting, w: World, m: Msg, ip: u32)
    requires w.subscribed && |w.queue| < CHANNEL
    ensures var w' := Notify(w, m);
            && Arrivals(st, RouteOf(w.copy, ip), w'.stream + w'.queue, ip) ==
               Arrival(st, Arrivals(st, RouteOf(w.copy, ip), w.stream + w.queue, ip), m, ip)
            && LastEvent(w'.queue, ip) == if !m.Sync? && m.c.ip == ip then Some(m.Added?) else LastEvent(w.queue, ip)
  {
    assert (w.queue + [m])[..|w.queue|] == w.queue;
    assert w.stream + (w.queue + [m]) == (w.stream + w.queue) + [m];
    assert ((w.stream + w.queue) + [m])[..|w.stream + w.queue|] == w.stream + w.queue;
  }

  lemma ForwardKeeps(w: World, st: Setting, ip: u32)
    requires w.queue != []
    ensures var w' := Next(st, w, Forward);
            w'.stream + w'.queue == w.stream + w.queue && LastEvent(w'.queue, ip) in {None, LastEvent(w.queue, ip)}
  {
    assert w.queue == [w.queue[0]] + w.queue[1..];
    LastEventOfTail(w.queue, ip);
  }

  lemma {:induction false} LastEventOfTail(ms: seq<Msg>, ip: u32)
    requires ms != []
    ensures LastEvent(ms[1..], ip) in {None, LastEvent(ms, ip)}
    decreases |ms|
  {
    if |ms| > 1 {
      LastEventOfTail(ms[..|ms| - 1], ip);
      assert ms[1..][..|ms| - 2] == ms[..|ms| - 1][1..];
    }
  }

  lemma DeliverKeeps(st: Setting, w: World, ip: u32)
    requires w.stream != []
    ensures Converging(st, Next(st, w, Deliver), ip) <==> Converging(st, w, ip)
  {
    var w' := Next(st, w, Deliver);
    var m := w.stream[0];
    assert w.stream + w.queue == [m] + (w'.stream + w'.queue);
    ArrivalsConcat(st, RouteOf(w.copy, ip), [m], w'.stream + w'.queue, ip);
    assert [m][..0] == [];
    assert RouteOf(w'.copy, ip) == Arrival(st, RouteOf(w.copy, ip), m, ip);
  }

  /** A change of the owner's about another address moves nothing here. */
  lemma ElsewhereKeeps(st: Setting, w: World, step: Step, ip: u32)
    requires (step.OwnerAdds? || step.OwnerRemoves?) && step.ip != ip
    ensures var w' := Next(st, w, step);
            && RouteOf(w'.owner, ip) == RouteOf(w.owner, ip) && w'.copy == w.copy
            && LastEvent(w'.queue, ip) == LastEvent(w.queue, ip)
            && (Converging(st, w', ip) <==> Converging(st, w, ip))
  {
    var w' := Next(st, w, step);
    if w'.queue != w.queue {
      OneMoreEvent(st, w.(owner := w'.owner), w'.queue[|w.queue|], ip);
    }
  }

  lemma OwnChangeKeeps(st: Setting, w: World, step: Step, ip: u32)
    requires WellFormed(st, w) && !Foreign(st, RouteOf(w.owner, ip)) && !LosesAt(w, step, ip)
    requires (step.OwnerAdds? || step.OwnerRemoves?) && step.ip == ip
    ensures var w' := Next(st, w, step);
            && !Foreign(st, RouteOf(w'.owner, ip))
            && (QueueAgrees(w, ip) ==> QueueAgrees(w', ip))
            && (Converging(st, w, ip) ==> Converging(st, w', ip))
  {
    var w' := Next(st, w, step);
    if w'.owner != w.owner {
      var m := if step.OwnerAdds? then Added(ClientInfo(ip, st.owner)) else Removed(ClientInfo(ip, w.owner[ip]));
      OneMoreEvent(st, w.(owner := w'.owner), m, ip);
    }
  }

  /** A step that loses nothing about an address and is no claim of others to it keeps it on its way. */
  lemma StepKeeps(st: Setting, w: World, step: Step, ip: u32)
    requires WellFormed(st, w) && Enabled(w, step) && !LosesAt(w, step, ip) && !Disturbs(step, ip)
    requires !Foreign(st, RouteOf(w.owner, ip)) && QueueAgrees(w, ip)
    ensures var w' := Next(st, w, step);
            && !Foreign(st, RouteOf(w'.owner, ip)) && QueueAgrees(w', ip)
            && (Converging(st, w, ip) ==> Converging(st, w', ip))
  {
    match step
    case OwnerAdds(a) =>
      if a == ip {
        OwnChangeKeeps(st, w, step, ip);
      } else {
        ElsewhereKeeps(st, w, step, ip);
      }
    case OwnerRemoves(a) =>
      if a == ip {
        OwnChangeKeeps(st, w, step, ip);
      } else {
        ElsewhereKeeps(st, w, step, ip);
      }
    case SendDump(dump) =>
      DumpRestoresIff(st, w, dump, ip);
      ArrivalsConcat(st, RouteOf(w.copy, ip), w.stream, w.queue, ip);
      EventsDecide(st, Arrivals(st, RouteOf(w.copy, ip), w.stream, ip), w.queue, ip);
    case Forward => ForwardKeeps(w, st, ip);
    case Deliver => DeliverKeeps(st, w, ip);
    case _ =>
  }

  lemma StepKeepsForm(st: Setting, w: World, step: Step)
    requires WellFormed(st, w) && Enabled(w, step)
    ensures WellFormed(st, Next(st, w, step))
  {}

  // ----- an address nobody else claims -----

  /** Nothing the subscriber holds or will receive gives the address to anybody but the owner. */
  ghost predicate Clear(st: Setting, w: World, ip: u32) {
    && !Foreign(st, RouteOf(w.copy, ip)) && !Foreign(st, RouteOf(w.owner, ip))
    && (forall m | m in w.stream && m.Sync? :: !Foreign(st, LastFor(m.dump, ip)))
    && (forall m | m in w.stream && m.Added? && m.c.ip == ip :: m.c.node == st.owner)
  }

  lemma {:induction false} ClearArrives(st: Setting, route: Option<string>, ms: seq<Msg>, ip: u32)
    requires !Foreign(st, route)
    requires forall m | m in ms && m.Sync? :: !Foreign(st, LastFor(m.dump, ip))
    requires forall m | m in ms && m.Added? && m.c.ip == ip :: m.c.node == st.owner
    ensures !Foreign(st, Arrivals(st, route, ms, ip))
    decreases |ms|
  {
    if ms != [] {
      ClearArrives(st, route, ms[..|ms| - 1], ip);
      assert ms[|ms| - 1] in ms;
    }
  }

  lemma StepKeepsClear(st: Setting, w: World, step: Step, ip: u32)
    requires WellFormed(st, w) && Enabled(w, step) && !Disturbs(step, ip) && Clear(st, w, ip)
    ensures Clear(st, Next(st, w, step), ip)
  {
    var w' := Next(st, w, step);
    match step
    case SendDump(dump) => DumpTells(dump, w.owner, ip);
    case Deliver =>
      ClearArrives(st, RouteOf(w.copy, ip), [w.stream[0]], ip);
      assert [w.stream[0]][..0] == [];
      assert RouteOf(w'.copy, ip) == Arrival(st, RouteOf(w.copy, ip), w.stream[0], ip);
    case _ =>
  }

  // ----- whole runs -----

  ghost predicate Legal(st: Setting, w: World, run: seq<Step>)
    decreases |run|
  {
    run == [] || (Enabled(w, run[0]) && Legal(st, Next(st, w, run[0]), run[1..]))
  }

  ghost function After(st: Setting, w: World, run: seq<Step>): World
    requires Legal(st, w, run)
    decreases |run|
  {
    if run == [] then w else After(st, Next(st, w, run[0]), run[1..])
  }

  /** Nothing about the address is lost, and nobody else claims it on either side. */
  ghost predicate Quiet(st: Setting, w: World, run: seq<Step>, ip: u32)
    requires Legal(st, w, run)
    decreases |run|
  {
    run == [] ||
    (!LosesAt(w, run[0], ip) && !Disturbs(run[0], ip) && Quiet(st, Next(st, w, run[0]), run[1..], ip))
  }

  predicate HasDump(run: seq<Step>) { exists s :: s in run && s.SendDump? }

  /** Once on its way, an address stays on its way through every quiet run. */
  lemma {:induction false} RunKeeps(st: Setting, w: World, run: seq<Step>, ip: u32)
    requires WellFormed(st, w) && Legal(st, w, run) && Quiet(st, w, run, ip)
    requires !Foreign(st, RouteOf(w.owner, ip)) && QueueAgrees(w, ip)
    requires Converging(st, w, ip) || (Clear(st, w, ip) && HasDump(run))
    ensures Converging(st, After(st, w, run), ip)
    decreases |run|
  {
    if run != [] {
      var w' := Next(st, w, run[0]);
      StepKeeps(st, w, run[0], ip);
      StepKeepsForm(st, w, run[0]);
      if !Converging(st, w, ip) {
        StepKeepsClear(st, w, run[0], ip);
        if run[0].SendDump? {
          ClearArrives(st, RouteOf(w.copy, ip), w.stream, ip);
          DumpRestoresIff(st, w, run[0].dump, ip);
        } else {
          var s :| s in run && s.SendDump?;
          assert s in run[1..];
        }
      }
      RunKeeps(st, w', run[1..], ip);
    }
  }

  /**
   A subscriber that has received everything routes an address as the owner does, after any past, if from here
   on nothing about the address is lost and nobody else claims it: from an address on its way, such as a dump
   leaves it, or from one that nobody else has claimed yet, with a dump to come.
   */
  lemma SubscriberRoutes(st: Setting, w: World, run: seq<Step>, ip: u32)
    requires WellFormed(st, w) && Legal(st, w, run) && Quiet(st, w, run, ip)
    requires !Foreign(st, RouteOf(w.owner, ip)) && QueueAgrees(w, ip)
    requires Converging(st, w, ip) || (Clear(st, w, ip) && HasDump(run))
    ensures var end := After(st, w, run);
            end.queue == [] && end.stream == [] ==> RouteOf(end.copy, ip) == RouteOf(end.owner, ip)
  {
    RunKeeps(st, w, run, ip);
  }

  /**
   An address that another node holds at the subscriber when the owner's client arrives there stays with that
   node, and the next dump gives it to the owner unless it is the subscriber's own.
   */
  lemma HeldAddressWaitsForDump(st: Setting, w: World, ip: u32, dump: seq<ClientInfo>)
    requires WellFormed(st, w) && w.subscribed && w.queue == [] && w.stream == [] && ip !in w.owner
    requires Foreign(st, RouteOf(w.copy, ip)) && IsDump(dump, w.owner[ip := st.owner])
    ensures var refused := Next(st, Next(st, Next(st, w, OwnerAdds(ip)), Forward), Deliver);
            var dumped := Next(st, Next(st, refused, SendDump(dump)), Deliver);
            && RouteOf(refused.copy, ip) == RouteOf(w.copy, ip)
            && RouteOf(dumped.copy, ip) ==
               if RouteOf(w.copy, ip) == Some(st.subscriber) then Some(st.subscriber) else Some(st.owner)
  {
    var sent := Next(st, Next(st, w, OwnerAdds(ip)), Forward);
    var refused := Next(st, sent, Deliver);
    assert RouteOf(refused.copy, ip) == Arrival(st, RouteOf(w.copy, ip), sent.stream[0], ip);
    var dumped := Next(st, Next(st, refused, SendDump(dump)), Deliver);
    DumpTells(dump, refused.owner, ip);
    assert RouteOf(dumped.copy, ip) == Arrival(st, RouteOf(refused.copy, ip), Sync(dump), ip);
  }

  /** A local client keeps its route through any messages, dumps included, exactly when none withdraws its address. */
  lemma {:induction false} LocalRouteSurvivesIff(st: Setting, ms: seq<Msg>, ip: u32)
    requires st.owner != st.subscriber
    ensures Arrivals(st, Some(st.subscriber), ms, ip) == Some(st.subscriber) <==> !Withdraws(ms, ip)
    decreases |ms|
  {
    if ms != [] {
      var init, last := ms[..|ms| - 1], ms[|ms| - 1];
      LocalRouteSurvivesIff(st, init, ip);
      assert forall m :: m in ms <==> m in init || m == last;
      assert Withdraws(ms, ip) <==> Withdraws(init, ip) || (last.Removed? && last.c.ip == ip);
    }
  }
}
