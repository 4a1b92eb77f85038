/**
 Replication of a node's own firewall rules to a subscriber: events go through a
 bounded channel that drops when full, full dumps are sent now and then, and
 both travel in order over one stream.
 */
module Replication {
  import opened Common
  import opened Firewall
  import opened Slots
  import opened Reconcile
  import opened Events

  /** Who owns the rules, who subscribes, and the one rule each number ever stands for. */
  datatype Setting = Setting(owner: string, subscriber: string, content: u64 -> Rule)

  datatype Msg = Sync(dump: seq<WireRule>) | Added(w: WireRule) | Removed(i: Index)

  /** `queue` is the subscriber's channel at the owner, `stream` what has been sent and not received. */
  datatype World = World(owner: Rules, subscribed: bool, queue: seq<Msg>, stream: seq<Msg>, copy: Rules)

  datatype Step =
    | OwnerAdds(id: u64)
    | OwnerRemoves(id: u64)
    | OwnerLearns(i: Index, rule: Option<Rule>)    // the owner's entries of other nodes change
    | CopyLearns(i: Index, rule: Option<Rule>)     // the subscriber's entries of other nodes change
    | Subscribe
    | SendDump(dump: seq<WireRule>)                // the snapshot, and every tick after it
    | Forward                                      // the server loop takes one event off the channel
    | Deliver
    | Disconnect

  // ----- the steps -----

  /** A dump lists every rule of the table, in some order. */
  ghost predicate IsDump(dump: seq<WireRule>, rules: Rules) {
    && (forall w | w in dump :: w.index in rules && w == ToWire(w.index, rules[w.index]))
    && (forall i | i in rules :: ToWire(i, rules[i]) in dump)
  }

  function Put(rules: Rules, i: Index, rule: Option<Rule>): Rules {
    match rule
    case None => rules - {i}
    case Some(r) => rules[i := r]
  }

  /** A non-blocking send: dropped when the channel is full. */
  function Notify(w: World, m: Msg): World {
    if w.subscribed && |w.queue| < CHANNEL then w.(queue := w.queue + [m]) else w
  }

  ghost function Synced(st: Setting, rules: Rules, dump: seq<WireRule>): (r: Rules)
    ensures forall i :: RuleOf(r, i) == Settled(st.subscriber, st.owner, rules, dump, i)
  {
    forall i | i !in rules && i !in (set x | x in dump :: x.index)
      ensures Settled(st.subscriber, st.owner, rules, dump, i).None?
    {
      FirstInSlotIs(dump, i);
    }
    map i | i in rules.Keys + (set x | x in dump :: x.index) && Settled(st.subscriber, st.owner, rules, dump, i).Some?
      :: Settled(st.subscriber, st.owner, rules, dump, i).value
  }

  ghost function Received(st: Setting, copy: Rules, m: Msg): Rules {
    match m
    case Sync(dump) => Synced(st, copy, dump)
    case Added(w) => if w.index.node == st.subscriber then copy else Filled(copy, w.index, FromWire(w))
    case Removed(i) => Vacated(copy, i)
  }

  ghost predicate Enabled(st: Setting, w: World, step: Step) {
    match step
    case OwnerAdds(id) => id < RULE_IDS
    case OwnerRemoves(_) => true
    case OwnerLearns(i, _) => i.node != st.owner
    case CopyLearns(i, _) => i.node != st.owner
    case Subscribe => !w.subscribed
    case SendDump(dump) => w.subscribed && IsDump(dump, w.owner)
    case Forward => w.queue != []
    case Deliver => w.stream != []
    case Disconnect => w.subscribed
  }

  ghost function Next(st: Setting, w: World, step: Step): World
    requires Enabled(st, w, step)
  {
    match step
    case OwnerAdds(id) =>
      var i := Index(st.owner, id);
      if Occupied(w.owner, i) then w
      else Notify(w.(owner := w.owner[i := st.content(id)]), Added(ToWire(i, st.content(id))))
    case OwnerRemoves(id) =>
      var i := Index(st.owner, id);
      if !Occupied(w.owner, i) then w else Notify(w.(owner := Vacated(w.owner, i)), Removed(i))
    case OwnerLearns(i, rule) => w.(owner := Put(w.owner, i, rule))
    case CopyLearns(i, rule) => w.(copy := Put(w.copy, i, rule))
    case Subscribe => w.(subscribed := true, queue := [], stream := [])
    case SendDump(dump) => w.(stream := w.stream + [Sync(dump)])
    case Forward => w.(queue := w.queue[1..], stream := w.stream + [w.queue[0]])
    case Deliver => w.(stream := w.stream[1..], copy := Received(st, w.copy, w.stream[0]))
    case Disconnect => w.(subscribed := false, queue := [], stream := [])
  }

  /** The steps that lose information: an event that found the channel full or missing, and a broken stream. */
  predicate Loses(st: Setting, w: World, step: Step) {
    || step.Disconnect?
    || (step.OwnerAdds? && !Occupied(w.owner, Index(st.owner, step.id)) && !(w.subscribed && |w.queue| < CHANNEL))
    || (step.OwnerRemoves? && Occupied(w.owner, Index(st.owner, step.id)) && !(w.subscribed && |w.queue| < CHANNEL))
  }

  // ----- the owner's side, with any number of subscribers -----

  /** The owner's rules and the event channel of every subscriber. */
  class RuleSource {
    var rules: Rules
    var channels: map<nat, seq<Msg>>
    var nextChannel: nat

    ghost predicate Valid()
      reads this
    {
      forall ch | ch in channels :: ch < nextChannel
    }

    /** The protocol state one subscriber is in, given its stream and copy. */
    ghost function View(ch: nat, stream: seq<Msg>, copy: Rules): World
      requires ch in channels
      reads this
    {
      World(rules, true, channels[ch], stream, copy)
    }

    constructor (rules: Rules)
      ensures Valid() && this.rules == rules && channels == map[]
    {
      this.rules := rules;
      channels, nextChannel := map[], 0;
    }

    method Open() returns (ch: nat)
      requires Valid()
      modifies this`channels, this`nextChannel
      ensures Valid() && ch !in old(channels) && channels == old(channels)[ch := []]
    {
      ch := nextChannel;
      nextChannel := nextChannel + 1;
      channels := channels[ch := []];
    }

    method Cancel(ch: nat)
      requires Valid()
      modifies this`channels
      ensures Valid() && channels == old(channels) - {ch}
    {
      channels := channels - {ch};
    }

    /** Offers an event to every channel without waiting; a full one misses it. */
    method NotifyAll(m: Msg)
      modifies this`channels
      ensures channels.Keys == old(channels).Keys
      ensures forall ch | ch in channels :: channels[ch] == Offered(old(channels)[ch], m)
    {
      channels := OfferAll(channels, m);
    }

    /** A local addition tells the subscribers, and only if it happened. */
    method AddRule(i: Index, rule: Rule) returns (ok: bool)
      requires Valid()
      modifies this`rules, this`channels
      ensures Valid() && (ok <==> i.node != "" && !Occupied(old(rules), i))
      ensures rules == Filled(old(rules), i, rule)
      ensures channels.Keys == old(channels).Keys
      ensures forall ch | ch in channels ::
                channels[ch] == if ok then Offered(old(channels)[ch], Added(ToWire(i, rule))) else old(channels)[ch]
    {
      if i.node == "" || Occupied(rules, i) {
        return false;
      }
      rules := rules[i := rule];
      NotifyAll(Added(ToWire(i, rule)));
      return true;
    }

    method RemoveRule(i: Index) returns (ok: bool)
      requires Valid()
      modifies this`rules, this`channels
      ensures Valid() && (ok <==> Occupied(old(rules), i)) && rules == Vacated(old(rules), i)
      ensures channels.Keys == old(channels).Keys
      ensures forall ch | ch in channels ::
                channels[ch] == if ok then Offered(old(channels)[ch], Removed(i)) else old(channels)[ch]
    {
      if !Occupied(rules, i) {
        return false;
      }
      rules := Vacated(rules, i);
      NotifyAll(Removed(i));
      return true;
    }

    /** To each subscriber the owner's own change is one step of the protocol. */
    method ChangeOwn(st: Setting, id: u64, add: bool)
      requires Valid() && st.owner != "" && (add ==> id < RULE_IDS)
      modifies this`rules, this`channels
      ensures Valid() && channels.Keys == old(channels).Keys
      ensures forall ch, stream, copy | ch in channels ::
                View(ch, stream, copy) ==
                Next(st, old(View(ch, stream, copy)), if add then OwnerAdds(id) else OwnerRemoves(id))
    {
      if add {
        var _ := AddRule(Index(st.owner, id), st.content(id));
      } else {
        var _ := RemoveRule(Index(st.owner, id));
      }
    }

    /** Changes learned from other nodes are silent. */
    method AddRemoteRule(i: Index, rule: Rule) returns (ok: bool)
      modifies this`rules
      ensures ok <==> i.node != "" && !Occupied(old(rules), i)
      ensures rules == Filled(old(rules), i, rule)
    {
      ok := i.node != "" && !Occupied(rules, i);
      if ok {
        rules := rules[i := rule];
      }
    }

    method BuildSync() returns (dump: seq<WireRule>)
      ensures IsDump(dump, rules)
    {
      dump := [];
      var todo := rules.Keys;
      while todo != {}
        invariant todo <= rules.Keys
        invariant forall w | w in dump :: w.index in rules && w == ToWire(w.index, rules[w.index])
        invariant forall i | i in rules && i !in todo :: ToWire(i, rules[i]) in dump
        decreases todo
      {
        var i :| i in todo;
        todo := todo - {i};
        dump := dump + [ToWire(i, rules[i])];
      }
    }
  }

  // ----- the subscriber's side -----

  lemma SameRules(a: Rules, b: Rules)
    requires forall i :: RuleOf(a, i) == RuleOf(b, i)
    ensures a == b
  {
    forall i | i in a || i in b ensures i in a && i in b && a[i] == b[i] {
      assert RuleOf(a, i) == RuleOf(b, i);
    }
  }

  /** The dispatch of one message off the stream is the protocol's delivery. */
  method Dispatch(st: Setting, syncer: Syncer, m: Msg)
    requires syncer.localId == st.subscriber && st.owner != st.subscriber && OnePerSlot(syncer.rules)
    modifies syncer`rules
    ensures OnePerSlot(syncer.rules) && syncer.rules == Received(st, old(syncer.rules), m)
  {
    match m
    case Sync(dump) =>
      syncer.SyncRules(st.owner, dump);
      SameRules(syncer.rules, Synced(st, old(syncer.rules), dump));
    case Added(w) => syncer.AddRemoteRule(w);
    case Removed(i) => syncer.DeleteRemoteRule(i);
  }

  // ----- what is under way -----

  predicate Concerns(m: Msg, i: Index) {
    match m
    case Sync(_) => true
    case Added(w) => w.index == i
    case Removed(j) => SameSlot(j, i)
  }

  /** Whether a message leaves the rule present. */
  predicate Leaves(m: Msg, i: Index) {
    match m
    case Sync(dump) => FirstFor(dump, i).Some?
    case Added(_) => true
    case Removed(_) => false
  }

  /** Whether the rule is present once all these messages have arrived: the last one about it decides. */
  predicate Ends(present: bool, ms: seq<Msg>, i: Index) {
    if ms == [] then present
    else
      var last := ms[|ms| - 1];
      if Concerns(last, i) then Leaves(last, i) else Ends(present, ms[..|ms| - 1], i)
  }

  function Pipeline(w: World): seq<Msg> { w.stream + w.queue }

  /** What is under way leads the copy to the owner's rules. */
  ghost predicate Converging(st: Setting, w: World) {
    forall id: u64 ::
      Ends(Index(st.owner, id) in w.copy, Pipeline(w), Index(st.owner, id)) <==> Index(st.owner, id) in w.owner
  }

  /** The events still in the channel agree with the owner's rules: the last one about a rule says where it stands. */
  ghost predicate QueueAgrees(st: Setting, w: World) {
    forall id: u64 ::
      Ends(Index(st.owner, id) in w.owner, w.queue, Index(st.owner, id)) <==> Index(st.owner, id) in w.owner
  }

  /** The owner's numbers in a message fit 48 bits. */
  ghost predicate NarrowMsg(st: Setting, m: Msg) {
    match m
    case Sync(dump) => forall x | x in dump && x.index.node == st.owner :: x.index.rule < RULE_IDS
    case Added(x) => x.index.node == st.owner ==> x.index.rule < RULE_IDS
    case Removed(_) => true
  }

  /** Only events travel in the channel, and the owner's rules have numbers of at most 48 bits everywhere. */
  ghost predicate WellFormed(st: Setting, w: World) {
    && st.owner != st.subscriber && st.owner != ""
    && Narrow(w.owner, st.owner) && Narrow(w.copy, st.owner)
    && (forall m | m in Pipeline(w) :: NarrowMsg(st, m))
    && (forall m | m in w.queue :: !m.Sync?)
    && (!w.subscribed ==> w.queue == [] && w.stream == [])
  }

  /** Each of the owner's rules has the content of its number, wherever it is. */
  ghost predicate Faithful(st: Setting, w: World) {
    && (forall id: u64 | Index(st.owner, id) in w.owner :: w.owner[Index(st.owner, id)] == st.content(id))
    && (forall id: u64 | Index(st.owner, id) in w.copy :: w.copy[Index(st.owner, id)] == st.content(id))
    && (forall m, id: u64 | m in Pipeline(w) && m.Added? && m.w.index == Index(st.owner, id) ::
          FromWire(m.w) == st.content(id))
    && (forall m, id: u64 | m in Pipeline(w) && m.Sync? && FirstFor(m.dump, Index(st.owner, id)).Some? ::
          FirstFor(m.dump, Index(st.owner, id)).value == st.content(id))
  }

  lemma {:induction false} EndsConcat(present: bool, a: seq<Msg>, b: seq<Msg>, i: Index)
    ensures Ends(present, a + b, i) == Ends(Ends(present, a, i), b, i)
    decreases |b|
  {
    if b == [] {
      assert a + b == a;
    } else {
      assert (a + b)[..|a + b| - 1] == a + b[..|b| - 1];
      EndsConcat(present, a, b[..|b| - 1], i);
    }
  }

  lemma DumpTells(dump: seq<WireRule>, rules: Rules, i: Index)
    requires IsDump(dump, rules)
    ensures FirstFor(dump, i).Some? <==> i in rules
    ensures i in rules ==> FirstFor(dump, i) == Some(rules[i])
  {
    FirstForMentions(dump, i);
    if i in rules {
      WireRoundTrip(i, rules[i]);
      assert ToWire(i, rules[i]) in dump && ToWire(i, rules[i]).index == i;
      var w :| w in dump && w.index == i && FromWire(w) == FirstFor(dump, i).value;
    }
  }

  /** A dump puts the copy on the way to agreement exactly when the channel agrees with the table it was built from. */
  lemma DumpRestoresIff(st: Setting, w: World, dump: seq<WireRule>)
    requires WellFormed(st, w) && Enabled(st, w, SendDump(dump))
    ensures Converging(st, Next(st, w, SendDump(dump))) <==> QueueAgrees(st, w)
  {
    var w' := Next(st, w, SendDump(dump));
    forall id: u64 ensures Ends(Index(st.owner, id) in w'.copy, Pipeline(w'), Index(st.owner, id))
                        == Ends(Index(st.owner, id) in w.owner, w.queue, Index(st.owner, id))
    {
      var i := Index(st.owner, id);
      DumpTells(dump, w.owner, i);
      EndsConcat(i in w'.copy, w'.stream, w.queue, i);
      assert w'.stream[..|w.stream|] == w.stream;
    }
  }

  lemma EmptyChannelAgrees(st: Setting, w: World)
    requires w.queue == []
    ensures QueueAgrees(st, w)
  {}

  lemma ReceivedPresence(st: Setting, copy: Rules, m: Msg, id: u64)
    requires st.owner != st.subscriber && st.owner != "" && Narrow(copy, st.owner) && NarrowMsg(st, m)
    ensures var i := Index(st.owner, id); i in Received(st, copy, m) <==> Ends(i in copy, [m], i)
  {
    var i := Index(st.owner, id);
    assert [m][..0] == [];
    match m
    case Sync(dump) =>
      assert RuleOf(Synced(st, copy, dump), i) == Settled(st.subscriber, st.owner, copy, dump, i);
      FirstForMentions(dump, i);
      NarrowDumpDecides(st.owner, copy, dump);
    case Added(w) =>
      if w.index.node == st.owner {
        NarrowSlots(copy, w.index);
      }
    case Removed(_) =>
  }

  /** One more event at the end of a sequence of messages. */
  lemma EndsAppend(present: bool, ms: seq<Msg>, m: Msg, i: Index)
    ensures Ends(present, ms + [m], i) == if Concerns(m, i) then Leaves(m, i) else Ends(present, ms, i)
  {
    assert (ms + [m])[..|ms|] == ms;
  }

  /** Messages about a rule decide alone; without one nothing changes. */
  lemma {:induction false} EndsDecided(ms: seq<Msg>, i: Index)
    ensures Ends(true, ms, i) == Ends(false, ms, i) || (Ends(true, ms, i) && !Ends(false, ms, i))
    decreases |ms|
  {
    if ms != [] {
      EndsDecided(ms[..|ms| - 1], i);
    }
  }

  lemma NotifyKeeps(st: Setting, w: World, w': World, m: Msg, id: u64)
    requires w' == Notify(w.(owner := w'.owner), m) && w.subscribed && |w.queue| < CHANNEL
    requires m.Added? || m.Removed?
    requires Index(st.owner, id) == if m.Added? then m.w.index else m.i
    requires w'.owner.Keys ==
             if m.Added? then w.owner.Keys + {Index(st.owner, id)} else Vacated(w.owner, Index(st.owner, id)).Keys
    ensures Converging(st, w) ==> Converging(st, w')
    ensures QueueAgrees(st, w) ==> QueueAgrees(st, w')
  {
    assert Pipeline(w') == Pipeline(w) + [m];
    forall k: u64
      ensures var i := Index(st.owner, k);
              && Ends(i in w.copy, Pipeline(w'), i)
                 == (if Concerns(m, i) then m.Added? else Ends(i in w.copy, Pipeline(w), i))
              && Ends(i in w'.owner, w'.queue, i)
                 == (if Concerns(m, i) then m.Added? else Ends(i in w.owner, w.queue, i))
              && (i in w'.owner <==> if Concerns(m, i) then m.Added? else i in w.owner)
    {
      EndsAppend(Index(st.owner, k) in w.copy, Pipeline(w), m, Index(st.owner, k));
      EndsAppend(Index(st.owner, k) in w'.owner, w.queue, m, Index(st.owner, k));
    }
  }

  lemma ForwardKeeps(st: Setting, w: World)
    requires w.queue != []
    ensures Converging(st, w) <==> Converging(st, Next(st, w, Forward))
    ensures QueueAgrees(st, w) ==> QueueAgrees(st, Next(st, w, Forward))
  {
    var w' := Next(st, w, Forward);
    assert Pipeline(w') == Pipeline(w);
    assert w.queue == [w.queue[0]] + w.queue[1..];
    forall id: u64
      ensures var i := Index(st.owner, id);
              Ends(i in w.owner, w.queue, i) == (i in w.owner) ==> Ends(i in w.owner, w.queue[1..], i) == (i in w.owner)
    {
      var i := Index(st.owner, id);
      EndsConcat(i in w.owner, [w.queue[0]], w.queue[1..], i);
      EndsDecided(w.queue[1..], i);
    }
  }

  lemma DeliverKeeps(st: Setting, w: World)
    requires WellFormed(st, w) && w.stream != []
    ensures Converging(st, w) <==> Converging(st, Next(st, w, Deliver))
  {
    var w' := Next(st, w, Deliver);
    assert Pipeline(w) == [w.stream[0]] + Pipeline(w');
    forall id: u64
      ensures var i := Index(st.owner, id); Ends(i in w'.copy, Pipeline(w'), i) == Ends(i in w.copy, Pipeline(w), i)
    {
      EndsConcat(Index(st.owner, id) in w.copy, [w.stream[0]], Pipeline(w'), Index(st.owner, id));
      ReceivedPresence(st, w.copy, w.stream[0], id);
    }
  }

  /** Changes of other nodes' rules, and a new subscription, leave the way of the owner's rules alone. */
  lemma SidesKeep(st: Setting, w: World, step: Step)
    requires WellFormed(st, w) && Enabled(st, w, step)
    requires step.OwnerLearns? || step.CopyLearns? || step.Subscribe?
    ensures Converging(st, w) ==> Converging(st, Next(st, w, step))
    ensures QueueAgrees(st, w) ==> QueueAgrees(st, Next(st, w, step))
  {}

  /** A step that loses nothing keeps the copy on its way and the channel in agreement. */
  lemma StepKeeps(st: Setting, w: World, step: Step)
    requires WellFormed(st, w) && Enabled(st, w, step) && !Loses(st, w, step)
    ensures Converging(st, w) && QueueAgrees(st, w) ==> Converging(st, Next(st, w, step))
    ensures QueueAgrees(st, w) ==> QueueAgrees(st, Next(st, w, step))
  {
    hide Converging, NarrowMsg;
    var w' := Next(st, w, step);
    match step
    case OwnerAdds(id) =>
      var i := Index(st.owner, id);
      if !Occupied(w.owner, i) {
        NotifyKeeps(st, w, w', Added(ToWire(i, st.content(id))), id);
      }
    case OwnerRemoves(id) =>
      if Occupied(w.owner, Index(st.owner, id)) {
        NotifyKeeps(st, w, w', Removed(Index(st.owner, id)), id);
      }
    case SendDump(dump) => DumpRestoresIff(st, w, dump);
    case Forward => ForwardKeeps(st, w);
    case Deliver => DeliverKeeps(st, w);
    case _ => SidesKeep(st, w, step);
  }

  lemma StepKeepsForm(st: Setting, w: World, step: Step)
    requires WellFormed(st, w) && Enabled(st, w, step)
    ensures WellFormed(st, Next(st, w, step))
  {
    var w' := Next(st, w, step);
    forall m | m in Pipeline(w') ensures NarrowMsg(st, m) {
      NewMessages(st, w, step, m);
    }
    if step.Deliver? {
      assert w.stream[0] in Pipeline(w);
      ReceivedIsNarrow(st, w.copy, w.stream[0]);
    }
  }

  lemma ReceivedIsNarrow(st: Setting, copy: Rules, m: Msg)
    requires Narrow(copy, st.owner) && NarrowMsg(st, m)
    ensures Narrow(Received(st, copy, m), st.owner)
  {
    if m.Sync? {
      forall i | i in Synced(st, copy, m.dump) && i.node == st.owner ensures i.rule < RULE_IDS {
        assert RuleOf(Synced(st, copy, m.dump), i) == Settled(st.subscriber, st.owner, copy, m.dump, i);
        FirstInSlotIs(m.dump, i);
      }
    }
  }

  lemma ReceivedIsFaithful(st: Setting, copy: Rules, m: Msg, id: u64)
    requires st.owner != st.subscriber && st.owner != ""
    requires Index(st.owner, id) in copy ==> copy[Index(st.owner, id)] == st.content(id)
    requires m.Added? && m.w.index == Index(st.owner, id) ==> FromWire(m.w) == st.content(id)
    requires m.Sync? && FirstFor(m.dump, Index(st.owner, id)).Some? ==>
               FirstFor(m.dump, Index(st.owner, id)).value == st.content(id)
    ensures Index(st.owner, id) in Received(st, copy, m) ==>
              Received(st, copy, m)[Index(st.owner, id)] == st.content(id)
  {
    if m.Sync? {
      var i := Index(st.owner, id);
      assert RuleOf(Synced(st, copy, m.dump), i) == Settled(st.subscriber, st.owner, copy, m.dump, i);
      FirstInSlotIs(m.dump, i);
    }
  }

  /** Where a message of the next state's pipeline comes from. */
  lemma NewMessages(st: Setting, w: World, step: Step, m: Msg)
    requires Enabled(st, w, step) && m in Pipeline(Next(st, w, step))
    ensures m in Pipeline(w)
            || (step.SendDump? && m == Sync(step.dump))
            || (step.OwnerAdds? && m == Added(ToWire(Index(st.owner, step.id), st.content(step.id))))
            || (step.OwnerRemoves? && m == Removed(Index(st.owner, step.id)))
  {
    var w' := Next(st, w, step);
    assert m in w'.stream || m in w'.queue;
  }

  lemma StepKeepsFaithful(st: Setting, w: World, step: Step)
    requires WellFormed(st, w) && Faithful(st, w) && Enabled(st, w, step)
    ensures Faithful(st, Next(st, w, step))
  {
    var w' := Next(st, w, step);
    forall m, id: u64 | m in Pipeline(w') && m.Added? && m.w.index == Index(st.owner, id)
      ensures FromWire(m.w) == st.content(id)
    {
      NewMessages(st, w, step, m);
      WireRoundTrip(Index(st.owner, id), st.content(id));
    }
    forall m, id: u64 | m in Pipeline(w') && m.Sync? && FirstFor(m.dump, Index(st.owner, id)).Some?
      ensures FirstFor(m.dump, Index(st.owner, id)).value == st.content(id)
    {
      NewMessages(st, w, step, m);
      if step.SendDump? && m == Sync(step.dump) {
        DumpTells(step.dump, w.owner, Index(st.owner, id));
      }
    }
    forall id: u64 | Index(st.owner, id) in w'.copy ensures w'.copy[Index(st.owner, id)] == st.content(id) {
      if step.Deliver? {
        assert w.stream[0] in Pipeline(w);
        ReceivedIsFaithful(st, w.copy, w.stream[0], id);
      }
    }
  }

  // ----- whole runs -----

  ghost predicate Legal(st: Setting, w: World, run: seq<Step>)
    decreases |run|
  {
    run == [] || (Enabled(st, w, run[0]) && Legal(st, Next(st, w, run[0]), run[1..]))
  }

  ghost function After(st: Setting, w: World, run: seq<Step>): World
    requires Legal(st, w, run)
    decreases |run|
  {
    if run == [] then w else After(st, Next(st, w, run[0]), run[1..])
  }

  ghost predicate Lossless(st: Setting, w: World, run: seq<Step>)
    requires Legal(st, w, run)
    decreases |run|
  {
    run == [] || (!Loses(st, w, run[0]) && Lossless(st, Next(st, w, run[0]), run[1..]))
  }

  predicate HasDump(run: seq<Step>) { exists s | s in run :: s.SendDump? }

  lemma {:induction false} RunKeepsForm(st: Setting, w: World, run: seq<Step>)
    requires WellFormed(st, w) && Faithful(st, w) && Legal(st, w, run)
    ensures WellFormed(st, After(st, w, run)) && Faithful(st, After(st, w, run))
    decreases |run|
  {
    if run != [] {
      StepKeepsForm(st, w, run[0]);
      StepKeepsFaithful(st, w, run[0]);
      RunKeepsForm(st, Next(st, w, run[0]), run[1..]);
    }
  }

  lemma {:induction false} RunKeeps(st: Setting, w: World, run: seq<Step>)
    requires WellFormed(st, w) && Legal(st, w, run) && Lossless(st, w, run) && QueueAgrees(st, w)
    ensures Converging(st, w) || HasDump(run) ==> Converging(st, After(st, w, run))
    ensures QueueAgrees(st, After(st, w, run))
    decreases |run|
  {
    if run != [] {
      StepKeeps(st, w, run[0]);
      StepKeepsForm(st, w, run[0]);
      if run[0].SendDump? {
        DumpRestoresIff(st, w, run[0].dump);
      } else if HasDump(run) {
        var s :| s in run && s.SendDump?;
        assert s in run[1..];
      }
      RunKeeps(st, Next(st, w, run[0]), run[1..]);
    }
  }

  ghost predicate Drained(w: World) { w.queue == [] && w.stream == [] }

  ghost predicate Agree(st: Setting, w: World) {
    forall id: u64 :: RuleOf(w.copy, Index(st.owner, id)) == RuleOf(w.owner, Index(st.owner, id))
  }

  lemma DrainedMeansAgreed(st: Setting, w: World)
    requires Faithful(st, w) && Drained(w)
    ensures Converging(st, w) <==> Agree(st, w)
  {
    forall id: u64
      ensures var i := Index(st.owner, id); Ends(i in w.copy, Pipeline(w), i) == (i in w.copy)
    {}
    if Agree(st, w) {
      forall id: u64 ensures Index(st.owner, id) in w.copy <==> Index(st.owner, id) in w.owner {
        assert RuleOf(w.copy, Index(st.owner, id)) == RuleOf(w.owner, Index(st.owner, id));
      }
    }
  }

  /**
   After any past whatsoever, from a state whose channel agrees with the table: if nothing is lost from
   here on and a dump is sent, a subscriber that has received everything holds exactly the owner's rules.
   */
  lemma SubscriberAgrees(st: Setting, w: World, run: seq<Step>)
    requires WellFormed(st, w) && Faithful(st, w) && QueueAgrees(st, w)
    requires Legal(st, w, run) && Lossless(st, w, run) && HasDump(run)
    ensures Drained(After(st, w, run)) ==> Agree(st, After(st, w, run))
  {
    RunKeeps(st, w, run);
    RunKeepsForm(st, w, run);
    if Drained(After(st, w, run)) {
      DrainedMeansAgreed(st, After(st, w, run));
    }
  }

  /** In particular from a fresh subscription, whatever the copy held, changes before the snapshot included. */
  lemma FreshSubscriptionAgrees(st: Setting, w: World, run: seq<Step>)
    requires WellFormed(st, w) && Faithful(st, w) && !w.subscribed
    requires Legal(st, w, [Subscribe] + run) && Lossless(st, w, [Subscribe] + run) && HasDump(run)
    ensures var end := After(st, w, [Subscribe] + run); Drained(end) ==> Agree(st, end)
  {
    assert ([Subscribe] + run)[1..] == run;
    var w' := Next(st, w, Subscribe);
    StepKeepsForm(st, w, Subscribe);
    StepKeepsFaithful(st, w, Subscribe);
    EmptyChannelAgrees(st, w');
    SubscriberAgrees(st, w', run);
  }

  /** The last event in the channel announces the rule, which is gone: its removal found no room. */
  ghost predicate Stale(st: Setting, w: World, id: u64) {
    && w.subscribed && Index(st.owner, id) !in w.owner
    && w.queue != [] && w.queue[|w.queue| - 1] == Added(ToWire(Index(st.owner, id), st.content(id)))
  }

  /** A dump sent past a stale event does not restore agreement. */
  lemma StaleEventOutlivesDump(st: Setting, w: World, id: u64, dump: seq<WireRule>)
    requires WellFormed(st, w) && Stale(st, w, id) && Enabled(st, w, SendDump(dump))
    ensures !Converging(st, Next(st, w, SendDump(dump)))
  {
    DumpRestoresIff(st, w, dump);
    assert Ends(Index(st.owner, id) in w.owner, w.queue, Index(st.owner, id));
  }

  /** The owner removes and adds a rule again and again, and in the end removes it. */
  function Toggles(id: u64, n: nat): seq<Step> {
    if n == 0 then [OwnerRemoves(id)] else [OwnerRemoves(id), OwnerAdds(id)] + Toggles(id, n - 1)
  }

  lemma {:induction false} TogglesGoStale(st: Setting, w: World, id: u64, n: nat)
    requires WellFormed(st, w) && w.subscribed && w.owner.Keys == {Index(st.owner, id)} && id < RULE_IDS
    requires |w.queue| + 2 * n == CHANNEL
    requires n == 0 ==> w.queue[|w.queue| - 1] == Added(ToWire(Index(st.owner, id), st.content(id)))
    ensures Legal(st, w, Toggles(id, n))
    ensures var end := After(st, w, Toggles(id, n)); WellFormed(st, end) && Stale(st, end, id) && end.owner == map[]
    decreases n
  {
    var run := Toggles(id, n);
    var once := Next(st, w, OwnerRemoves(id));
    StepKeepsForm(st, w, OwnerRemoves(id));
    assert once.owner == map[];
    if n == 0 {
      assert run[1..] == [];
    } else {
      var twice := Next(st, once, OwnerAdds(id));
      StepKeepsForm(st, once, OwnerAdds(id));
      TogglesGoStale(st, twice, id, n - 1);
      assert run[1..][1..] == Toggles(id, n - 1);
    }
  }

  // ----- draining after a dump -----

  /** The subscriber receives everything: forward what waits, then deliver what is sent. */
  ghost function Drain(st: Setting, w: World): (run: seq<Step>)
    ensures Legal(st, w, run) && Drained(After(st, w, run)) && Drains(run)
    decreases 2 * |w.queue| + |w.stream|
  {
    if w.queue != [] then [Forward] + Drain(st, Next(st, w, Forward))
    else if w.stream != [] then [Deliver] + Drain(st, Next(st, w, Deliver))
    else []
  }

  ghost predicate Drains(run: seq<Step>) { forall k | 0 <= k < |run| :: run[k].Forward? || run[k].Deliver? }

  lemma {:induction false} DrainKeeps(st: Setting, w: World, run: seq<Step>)
    requires WellFormed(st, w) && Legal(st, w, run) && Drains(run)
    ensures Converging(st, After(st, w, run)) <==> Converging(st, w)
    decreases |run|
  {
    if run != [] {
      if run[0].Forward? {
        ForwardKeeps(st, w);
      } else {
        DeliverKeeps(st, w);
      }
      StepKeepsForm(st, w, run[0]);
      DrainKeeps(st, Next(st, w, run[0]), run[1..]);
    }
  }

  /** When everything has arrived after a dump, the tables agree exactly if the channel agreed when it was sent. */
  lemma DrainedAgreesIff(st: Setting, w: World, dump: seq<WireRule>, run: seq<Step>)
    requires WellFormed(st, w) && Faithful(st, w) && Enabled(st, w, SendDump(dump))
    requires var sent := Next(st, w, SendDump(dump)); Legal(st, sent, run) && Drained(After(st, sent, run))
    requires Drains(run)
    ensures Agree(st, After(st, Next(st, w, SendDump(dump)), run)) <==> QueueAgrees(st, w)
  {
    var sent := Next(st, w, SendDump(dump));
    StepKeepsForm(st, w, SendDump(dump));
    StepKeepsFaithful(st, w, SendDump(dump));
    RunKeepsForm(st, sent, run);
    DumpRestoresIff(st, w, dump);
    DrainKeeps(st, sent, run);
    DrainedMeansAgreed(st, After(st, sent, run));
  }

  /** Stale events do come about: a run from nothing in which a dump sent after the loss ends in disagreement. */
  lemma LossOutlivesDump(st: Setting, id: u64)
    requires st.owner != st.subscriber && st.owner != "" && id < RULE_IDS
    ensures var start := World(map[], false, [], [], map[]);
            var run := [OwnerAdds(id), Subscribe] + Toggles(id, CHANNEL / 2);
            && Legal(st, start, run) && Enabled(st, After(st, start, run), SendDump([]))
            && var sent := Next(st, After(st, start, run), SendDump([]));
               var end := After(st, sent, Drain(st, sent));
               Drained(end) && !Agree(st, end)
  {
    var start := World(map[], false, [], [], map[]);
    var run := [OwnerAdds(id), Subscribe] + Toggles(id, CHANNEL / 2);
    var added := Next(st, start, OwnerAdds(id));
    var subscribed := Next(st, added, Subscribe);
    assert run[1..][1..] == Toggles(id, CHANNEL / 2);
    TogglesGoStale(st, subscribed, id, CHANNEL / 2);
    assert Legal(st, added, run[1..]) && After(st, added, run[1..]) == After(st, subscribed, run[1..][1..]);
    var lost := After(st, start, run);
    RunKeepsForm(st, start, run);
    StaleEventOutlivesDump(st, lost, id, []);
    DumpRestoresIff(st, lost, []);
    DrainedAgreesIff(st, lost, [], Drain(st, Next(st, lost, SendDump([]))));
  }

  /** A reused number keeps the old rule at the subscriber: a dump adds what is missing and compares nothing. */
  lemma ReusedNumberKeepsOldRule(st: Setting, copy: Rules, dump: seq<WireRule>, i: Index)
    requires i in copy && i.node == st.owner && FirstFor(dump, i).Some?
    ensures RuleOf(Received(st, copy, Sync(dump)), i) == Some(copy[i])
  {
    assert RuleOf(Synced(st, copy, dump), i) == Settled(st.subscriber, st.owner, copy, dump, i);
  }
}
