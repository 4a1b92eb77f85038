/**
 The compressed rule index refines a plain map from (node, rule number) to rule,
 under every sequence of operations, as long as the key has room: no more nodes
 than short identifiers and rule numbers of at most 48 bits.
 */
module RuleIndex {
  import opened Common
  import opened Firewall
  import opened Slots

  datatype Op = Add(i: Index, rule: Rule) | Remove(i: Index)

  // ----- the plain map -----

  function PlainResult(rules: Rules, op: Op): bool {
    match op
    case Add(i, _) => i.node != "" && i !in rules
    case Remove(i) => i in rules
  }

  function Plain(rules: Rules, op: Op): Rules {
    match op
    case Add(i, rule) => if PlainResult(rules, op) then rules[i := rule] else rules
    case Remove(i) => rules - {i}
  }

  function PlainRun(ops: seq<Op>): Rules {
    if ops == [] then map[] else Plain(PlainRun(ops[..|ops| - 1]), ops[|ops| - 1])
  }

  // ----- the map by slots -----

  function SlotResult(rules: Rules, op: Op): bool {
    match op
    case Add(i, _) => i.node != "" && !Occupied(rules, i)
    case Remove(i) => Occupied(rules, i)
  }

  function BySlot(rules: Rules, op: Op): Rules {
    match op
    case Add(i, rule) => Filled(rules, i, rule)
    case Remove(i) => Vacated(rules, i)
  }

  function SlotRun(ops: seq<Op>): Rules {
    if ops == [] then map[] else BySlot(SlotRun(ops[..|ops| - 1]), ops[|ops| - 1])
  }

  // ----- the engine's table -----

  ghost function Result(t: Table, op: Op): bool {
    match op
    case Add(i, _) => Adds(t, i)
    case Remove(i) => Taken(t, i)
  }

  ghost function Step(t: Table, op: Op): Table {
    match op
    case Add(i, rule) => Added(t, i, rule)
    case Remove(i) => Removed(t, i)
  }

  ghost function Run(ops: seq<Op>): Table {
    if ops == [] then Table(map[], 0, map[]) else Step(Run(ops[..|ops| - 1]), ops[|ops| - 1])
  }

  /** The order a short identifier was handed out in: zero is the last one before the counter repeats. */
  function Ordinal(short: nat): nat { if short == 0 then SHORT_IDS else short }

  ghost predicate IdsSound(t: Table) {
    && "" !in t.ids && |t.ids| <= SHORT_IDS && Numbered(t.ids, |t.ids|)
    && t.next == if |t.ids| == SHORT_IDS then 0 else |t.ids|
  }

  ghost predicate Numbered(ids: ShortIds, bound: nat) {
    && (forall n | n in ids :: ids[n] < SHORT_IDS && Ordinal(ids[n]) <= bound)
    && (forall m, n | m in ids && n in ids && ids[m] == ids[n] :: m == n)
  }

  lemma NumberNext(ids: ShortIds, bound: nat, node: string, short: nat)
    requires Numbered(ids, bound) && node !in ids && short < SHORT_IDS && Ordinal(short) == bound + 1
    ensures Numbered(ids[node := short], bound + 1)
  {}

  /** The short identifiers are distinct and every rule's node has one. */
  ghost predicate Filed(t: Table) { IdsSound(t) && forall i | i in t.rules :: i.node in t.ids }

  ghost predicate Sound(t: Table) { Filed(t) && forall i | i in t.rules :: i.rule < RULE_IDS }

  lemma FreshShort(n: nat)
    requires n < SHORT_IDS
    ensures var short := (n + 1) % SHORT_IDS;
            short < SHORT_IDS && Ordinal(short) == n + 1 && short == if n + 1 == SHORT_IDS then 0 else n + 1
  {}

  lemma SizeGrows(ids: ShortIds, node: string, short: nat)
    requires node !in ids
    ensures |ids[node := short]| == |ids| + 1 == |ids.Keys + {node}|
  {
    assert ids[node := short].Keys == ids.Keys + {node};
  }

  lemma RegisterKeepsIds(t: Table, node: string)
    requires IdsSound(t) && node != "" && (node in t.ids || |t.ids| < SHORT_IDS)
    ensures IdsSound(Registered(t, node))
  {
    if node !in t.ids {
      var u := Registered(t, node);
      assert |u.ids| == |t.ids| + 1 && u.next == (if |u.ids| == SHORT_IDS then 0 else |u.ids|) by {
        CounterSteps(t, node);
      }
      assert Numbered(u.ids, |u.ids|) by {
        CounterSteps(t, node);
        NumberNext(t.ids, |t.ids|, node, u.next);
      }
    }
  }

  lemma CounterSteps(t: Table, node: string)
    requires t.next == |t.ids| < SHORT_IDS && node !in t.ids
    ensures var u := Registered(t, node);
            && u.ids == t.ids[node := u.next] && u.next < SHORT_IDS && Ordinal(u.next) == |t.ids| + 1
            && |u.ids| == |t.ids| + 1 && u.next == if |u.ids| == SHORT_IDS then 0 else |u.ids|
  {
    SizeGrows(t.ids, node, (t.next + 1) % SHORT_IDS);
    FreshShort(t.next);
  }

  /** With distinct short identifiers, packed keys are equal exactly when the slots are. */
  lemma KeyIsSlot(t: Table, i: Index, j: Index)
    requires IdsSound(t) && i.node in t.ids && j.node in t.ids
    ensures Slot(t.ids, j) == Slot(t.ids, i) <==> SameSlot(j, i)
  {
    GlobalKeyReadsBack(t.ids[j.node], j.rule, t.ids[i.node], i.rule);
  }

  /** So a rule is taken, added and removed by its slot. */
  lemma TableBySlot(t: Table, i: Index)
    requires Filed(t)
    ensures Taken(t, i) <==> Occupied(t.rules, i)
    ensures Removed(t, i).rules == Vacated(t.rules, i)
  {
    hide IdsSound, Slot;
    if i.node in t.ids {
      forall j | j in t.rules ensures Slot(t.ids, j) == Slot(t.ids, i) <==> SameSlot(j, i) {
        KeyIsSlot(t, i, j);
      }
    }
  }

  /** The nodes of the operations are at most as many as there are short identifiers. */
  ghost predicate Roomy(t: Table, nodes: set<string>) { t.ids.Keys <= nodes && |nodes| <= SHORT_IDS }

  ghost predicate Names(op: Op, nodes: set<string>) { op.i.node != "" ==> op.i.node in nodes }

  ghost predicate Fits(op: Op, nodes: set<string>) { op.i.rule < RULE_IDS && Names(op, nodes) }

  lemma RegisterFits(t: Table, node: string, nodes: set<string>)
    requires Filed(t) && Roomy(t, nodes) && node in nodes && node != ""
    ensures Filed(Registered(t, node)) && Roomy(Registered(t, node), nodes)
  {
    SubsetSize(t.ids.Keys + {node}, nodes);
    if node !in t.ids {
      SizeGrows(t.ids, node, 0);
    }
    RegisterKeepsIds(t, node);
    hide IdsSound;
  }

  /** The rules of a table do not touch its short identifiers. */
  lemma RefiledIsFiled(t: Table, rules: Rules)
    requires Filed(t) && forall i | i in rules :: i.node in t.ids
    ensures Filed(t.(rules := rules))
  {}

  lemma AddBySlot(t: Table, i: Index, rule: Rule, nodes: set<string>)
    requires Filed(t) && Roomy(t, nodes) && (i.node != "" ==> i.node in nodes)
    ensures Adds(t, i) <==> i.node != "" && !Occupied(t.rules, i)
    ensures Added(t, i, rule).rules == Filled(t.rules, i, rule)
    ensures Filed(Added(t, i, rule)) && Roomy(Added(t, i, rule), nodes)
  {
    if i.node != "" {
      var u := Registered(t, i.node);
      RegisterFits(t, i.node, nodes);
      TableBySlot(u, i);
      hide Taken, Occupied, IdsSound;
      RefiledIsFiled(u, Added(t, i, rule).rules);
    }
  }

  lemma RemoveBySlot(t: Table, i: Index)
    requires Filed(t)
    ensures Filed(Removed(t, i))
  {
    RefiledIsFiled(t, Removed(t, i).rules);
  }

  /** With at most 65536 nodes the engine acts by slots, whatever the numbers of the rules. */
  lemma StepBySlot(t: Table, op: Op, nodes: set<string>)
    requires Filed(t) && Roomy(t, nodes) && Names(op, nodes)
    ensures Result(t, op) == SlotResult(t.rules, op)
    ensures Step(t, op).rules == BySlot(t.rules, op)
    ensures Filed(Step(t, op)) && Roomy(Step(t, op), nodes)
  {
    hide Filed, Adds, Added, Taken, Occupied, Vacated, Filled;
    match op
    case Add(i, rule) => AddBySlot(t, i, rule, nodes);
    case Remove(i) =>
      TableBySlot(t, i);
      RemoveBySlot(t, i);
  }

  lemma StepRefines(t: Table, op: Op, nodes: set<string>)
    requires Sound(t) && Fits(op, nodes) && Roomy(t, nodes)
    ensures Result(t, op) == PlainResult(t.rules, op)
    ensures Step(t, op).rules == Plain(t.rules, op)
    ensures Sound(Step(t, op)) && Roomy(Step(t, op), nodes)
  {
    StepBySlot(t, op, nodes);
    NarrowSlots(t.rules, op.i);
  }

  lemma NothingFiled()
    ensures Filed(Table(map[], 0, map[])) && OnePerSlot(map[])
  {}

  lemma OneIsKept(rules: Rules, op: Op)
    requires OnePerSlot(rules)
    ensures OnePerSlot(BySlot(rules, op))
  {}

  /** Under every sequence of additions and removals by at most 65536 nodes the index is the map by slots. */
  lemma {:induction false} IndexRefinesSlots(ops: seq<Op>, nodes: set<string>)
    requires |nodes| <= SHORT_IDS && forall op | op in ops :: Names(op, nodes)
    ensures Filed(Run(ops)) && Roomy(Run(ops), nodes)
    ensures Run(ops).rules == SlotRun(ops) && OnePerSlot(SlotRun(ops))
    ensures forall op | Names(op, nodes) :: Result(Run(ops), op) == SlotResult(SlotRun(ops), op)
    decreases |ops|
  {
    hide Filed, BySlot, Step, Result, SlotResult, OnePerSlot;
    assert Filed(Run([])) && OnePerSlot(SlotRun([])) by {
      NothingFiled();
    }
    if ops != [] {
      var init, last := ops[..|ops| - 1], ops[|ops| - 1];
      IndexRefinesSlots(init, nodes);
      StepBySlot(Run(init), last, nodes);
      OneIsKept(SlotRun(init), last);
    }
    forall op | Names(op, nodes) ensures Result(Run(ops), op) == SlotResult(SlotRun(ops), op) {
      StepBySlot(Run(ops), op, nodes);
    }
  }

  /** Under every sequence of additions and removals the index is the plain map, result for result. */
  lemma {:induction false} IndexRefinesPlainMap(ops: seq<Op>, nodes: set<string>)
    requires |nodes| <= SHORT_IDS && forall op | op in ops :: Fits(op, nodes)
    ensures Sound(Run(ops)) && Roomy(Run(ops), nodes)
    ensures Run(ops).rules == PlainRun(ops)
    ensures forall op | Fits(op, nodes) :: Result(Run(ops), op) == PlainResult(PlainRun(ops), op)
    decreases |ops|
  {
    if ops != [] {
      var init, last := ops[..|ops| - 1], ops[|ops| - 1];
      IndexRefinesPlainMap(init, nodes);
      StepRefines(Run(init), last, nodes);
    }
    forall op | Fits(op, nodes) ensures Result(Run(ops), op) == PlainResult(PlainRun(ops), op) {
      StepRefines(Run(ops), op, nodes);
    }
  }

  // ----- and no further -----

  function RegisterAll(nodes: seq<string>): Table {
    if nodes == [] then Table(map[], 0, map[]) else Registered(RegisterAll(nodes[..|nodes| - 1]), nodes[|nodes| - 1])
  }

  lemma {:induction false} CounterCounts(nodes: seq<string>)
    requires NoDuplicates(nodes)
    ensures RegisterAll(nodes).next == |nodes| % SHORT_IDS
    ensures forall n | n in RegisterAll(nodes).ids :: n in nodes
    decreases |nodes|
  {
    if nodes != [] {
      var init, last := nodes[..|nodes| - 1], nodes[|nodes| - 1];
      CounterCounts(init);
      WrapIncrement(|init|);
      assert last !in init && nodes == init + [last];
    }
  }

  lemma {:induction false} ShortIdOf(nodes: seq<string>, k: nat)
    requires NoDuplicates(nodes) && k < |nodes|
    ensures nodes[k] in RegisterAll(nodes).ids && RegisterAll(nodes).ids[nodes[k]] == (k + 1) % SHORT_IDS
    decreases |nodes|
  {
    var init, last := nodes[..|nodes| - 1], nodes[|nodes| - 1];
    CounterCounts(init);
    assert last !in init;
    if k == |init| {
      WrapIncrement(k);
    } else {
      ShortIdOf(init, k);
      assert nodes[k] == init[k];
    }
  }

  lemma WrapIncrement(n: nat)
    ensures (n % SHORT_IDS + 1) % SHORT_IDS == (n + 1) % SHORT_IDS
  {}

  lemma NoWrapNoRepeat(i: nat, j: nat)
    requires i < j < SHORT_IDS
    ensures (i + 1) % SHORT_IDS != (j + 1) % SHORT_IDS
  {}

  /** Nodes that registered one after another have different short identifiers exactly when there are at most 65536. */
  lemma ShortIdsDifferIff(nodes: seq<string>)
    requires NoDuplicates(nodes)
    ensures (forall i, j | 0 <= i < j < |nodes| ::
               nodes[i] in RegisterAll(nodes).ids && nodes[j] in RegisterAll(nodes).ids
               && RegisterAll(nodes).ids[nodes[i]] != RegisterAll(nodes).ids[nodes[j]])
            <==> |nodes| <= 65536
  {
    var ids := RegisterAll(nodes).ids;
    if |nodes| <= SHORT_IDS {
      forall i, j | 0 <= i < j < |nodes| ensures nodes[i] in ids && nodes[j] in ids && ids[nodes[i]] != ids[nodes[j]] {
        ShortIdOf(nodes, i);
        ShortIdOf(nodes, j);
        NoWrapNoRepeat(i, j);
      }
    } else {
      ShortIdOf(nodes, 0);
      ShortIdOf(nodes, SHORT_IDS);
      assert ids[nodes[0]] == ids[nodes[SHORT_IDS]];
    }
  }
}
