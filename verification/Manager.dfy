/**
 The service that keeps a node's own firewall rules in the database and in the
 engine at once: which query failures leave the two apart, and that a restart,
 which reloads the engine from the database, changes nothing otherwise.
 */
module Manager {
  import opened Common
  import opened Firewall
  import opened Slots
  import opened Reconcile

  /** The database numbers its rows below this; past them an insert fails. */
  const ROWS: nat := 0x8000_0000_0000_0000

  /** A row of the rules table. */
  datatype Row = Row(peer: nat, target: Option<u32>, protocol: string, portStart: u16, portEnd: Option<u16>)

  /** `peers` maps a peer to its virtual address; foreign keys are not enforced; row numbers are never reused. */
  datatype Db = Db(peers: map<nat, u32>, rows: map<u64, Row>, nextRow: nat)

  ghost predicate Numbered(db: Db) { db.nextRow <= ROWS && forall id | id in db.rows :: id < db.nextRow }

  function RuleFor(ip: u32, row: Row): Rule { Rule(ip, row.target, row.protocol, row.portStart, row.portEnd) }

  /** The join of rules with their peers, as loaded at start-up. */
  function Joined(db: Db, id: u64): Option<Rule> {
    if id in db.rows && db.rows[id].peer in db.peers
    then Some(RuleFor(db.peers[db.rows[id].peer], db.rows[id]))
    else None
  }

  /** The engine's rules of this node are the join. */
  ghost predicate Agree(node: string, db: Db, rules: Rules) {
    forall id: u64 :: RuleOf(rules, Index(node, id)) == Joined(db, id)
  }

  function RowsOf(db: Db, peer: nat): set<u64> { set id | id in db.rows && db.rows[id].peer == peer }

  /** A rule in force whose slot in the engine another number has too. */
  predicate Shares(db: Db, k: u64, id: u64) { Joined(db, k).Some? && k != id && k % RULE_IDS == id % RULE_IDS }

  // ----- the operations, with the outcome of each query as an input -----

  function Adding(node: string, db: Db, rules: Rules, row: Row, inserted: bool, found: bool): (Db, Rules)
    requires inserted ==> db.nextRow < ROWS
  {
    if !inserted then (db, rules)
    else
      var db' := db.(rows := db.rows[db.nextRow := row], nextRow := db.nextRow + 1);
      if !found || row.peer !in db.peers then (db', rules)
      else (db', Filled(rules, Index(node, db.nextRow), RuleFor(db.peers[row.peer], row)))
  }

  function Removing(node: string, db: Db, rules: Rules, id: u64, deleted: bool): (Db, Rules) {
    if !deleted then (db, rules) else (db.(rows := db.rows - {id}), Vacated(rules, Index(node, id)))
  }

  /** The engine without the slots of these numbers. */
  function Cleared(node: string, rules: Rules, ids: set<u64>): Rules {
    map j | j in rules && !exists id | id in ids :: SameSlot(j, Index(node, id)) :: rules[j]
  }

  function Clearing(node: string, db: Db, rules: Rules, peer: nat, loaded: bool, deleted: bool): (Db, Rules) {
    if !loaded then (db, rules)
    else (if deleted then db.(rows := db.rows - RowsOf(db, peer)) else db, Cleared(node, rules, RowsOf(db, peer)))
  }

  lemma ClearOne(node: string, rules: Rules, ids: set<u64>, id: u64)
    ensures Vacated(Cleared(node, rules, ids), Index(node, id)) == Cleared(node, rules, ids + {id})
  {}

  class RuleManager {
    const node: string
    var db: Db
    var rules: Rules

    constructor (node: string, db: Db, rules: Rules)
      ensures this.node == node && this.db == db && this.rules == rules
    {
      this.node, this.db, this.rules := node, db, rules;
    }

    method AddToEngine(i: Index, rule: Rule)
      modifies this`rules
      ensures rules == Filled(old(rules), i, rule)
    {
      if i.node != "" && !Occupied(rules, i) {
        rules := rules[i := rule];
      }
    }

    /** Start-up: load the join and add it to the engine, row by row, in any order. */
    method Run()
      requires node != "" && OnePerSlot(rules)
      modifies this`rules
      ensures OnePerSlot(rules) && forall i | i in old(rules) :: i in rules && rules[i] == old(rules)[i]
      ensures forall i | i in rules && i !in old(rules) :: i.node == node && Joined(db, i.rule) == Some(rules[i])
      ensures forall id: u64 | Joined(db, id).Some? :: Occupied(rules, Index(node, id))
    {
      var todo := db.rows.Keys;
      while todo != {}
        invariant todo <= db.rows.Keys && OnePerSlot(rules)
        invariant forall i | i in old(rules) :: i in rules && rules[i] == old(rules)[i]
        invariant forall i | i in rules && i !in old(rules) :: i.node == node && Joined(db, i.rule) == Some(rules[i])
        invariant forall id: u64 | Joined(db, id).Some? && id !in todo :: Occupied(rules, Index(node, id))
        decreases todo
      {
        var id :| id in todo;
        todo := todo - {id};
        if db.rows[id].peer in db.peers {
          ghost var before := rules;
          AddToEngine(Index(node, id), RuleFor(db.peers[db.rows[id].peer], db.rows[id]));
          StaysOccupied(before, Index(node, id), RuleFor(db.peers[db.rows[id].peer], db.rows[id]));
        }
      }
    }

    method AddRule(row: Row, inserted: bool, found: bool) returns (ok: bool)
      requires inserted ==> db.nextRow < ROWS
      modifies this
      ensures (db, rules) == Adding(node, old(db), old(rules), row, inserted, found)
      ensures ok <==> inserted && found && row.peer in old(db.peers)
    {
      if !inserted {
        return false;
      }
      var id := db.nextRow;
      db := db.(rows := db.rows[id := row], nextRow := id + 1);
      if !found || row.peer !in db.peers {
        return false;
      }
      AddToEngine(Index(node, id), RuleFor(db.peers[row.peer], row));
      return true;
    }

    method RemoveRule(id: u64, deleted: bool) returns (ok: bool)
      modifies this
      ensures (db, rules) == Removing(node, old(db), old(rules), id, deleted) && ok == deleted
    {
      if !deleted {
        return false;
      }
      db := db.(rows := db.rows - {id});
      rules := Vacated(rules, Index(node, id));
      return true;
    }

    method RemoveAllPeerRules(peer: nat, loaded: bool, deleted: bool) returns (ok: bool)
      modifies this
      ensures (db, rules) == Clearing(node, old(db), old(rules), peer, loaded, deleted)
      ensures ok <==> loaded && deleted
    {
      if !loaded {
        return false;
      }
      var listed := RowsOf(db, peer);
      var todo := listed;
      assert Cleared(node, rules, {}) == rules;
      while todo != {}
        invariant todo <= listed && db == old(db) && rules == Cleared(node, old(rules), listed - todo)
        decreases todo
      {
        var id :| id in todo;
        ClearOne(node, old(rules), listed - todo, id);
        assert listed - todo + {id} == listed - (todo - {id});
        todo := todo - {id};
        rules := Vacated(rules, Index(node, id));
      }
      assert listed - todo == listed;
      if !deleted {
        return false;
      }
      db := db.(rows := db.rows - listed);
      return true;
    }
  }

  /** Adding a rule keeps every slot occupied that was, and occupies its own. */
  lemma StaysOccupied(rules: Rules, i: Index, rule: Rule)
    requires i.node != ""
    ensures Occupied(Filled(rules, i, rule), i)
    ensures forall j | Occupied(rules, j) :: Occupied(Filled(rules, i, rule), j)
  {
    var after := Filled(rules, i, rule);
    assert !Occupied(rules, i) ==> i in after && SameSlot(i, i);
    forall j | Occupied(rules, j) ensures Occupied(after, j) {
      var k :| k in rules && SameSlot(k, j);
      assert k in after;
    }
  }

  // ----- agreement -----

  /** In agreement, a slot is occupied exactly by a rule in force. */
  lemma OccupiedByJoin(node: string, db: Db, rules: Rules, id: u64)
    requires Agree(node, db, rules)
    ensures Occupied(rules, Index(node, id)) <==>
            exists k: u64 :: k in db.rows && Joined(db, k).Some? && k % RULE_IDS == id % RULE_IDS
  {
    if j :| j in rules && SameSlot(j, Index(node, id)) {
      assert RuleOf(rules, Index(node, j.rule)) == Joined(db, j.rule);
    }
    if k: u64 :| k in db.rows && Joined(db, k).Some? && k % RULE_IDS == id % RULE_IDS {
      assert RuleOf(rules, Index(node, k)) == Joined(db, k);
      assert Index(node, k) in rules && SameSlot(Index(node, k), Index(node, id));
    }
  }

  /** The row went in but the rule did not: the look-up of its peer failed, or its slot in the engine is taken. */
  predicate AddSplits(db: Db, row: Row, inserted: bool, found: bool) {
    && inserted && row.peer in db.peers
    && (!found || exists k | k in db.rows :: Joined(db, k).Some? && k % RULE_IDS == db.nextRow % RULE_IDS)
  }

  lemma AddKeepsAgreementIff(node: string, db: Db, rules: Rules, row: Row, inserted: bool, found: bool)
    requires node != "" && Agree(node, db, rules) && Numbered(db) && (inserted ==> db.nextRow < ROWS)
    ensures var (db', rules') := Adding(node, db, rules, row, inserted, found);
            (Agree(node, db', rules') <==> !AddSplits(db, row, inserted, found)) && Numbered(db')
  {
    var (db', rules') := Adding(node, db, rules, row, inserted, found);
    if inserted {
      var id: u64 := db.nextRow;
      OccupiedByJoin(node, db, rules, id);
      assert RuleOf(rules, Index(node, id)) == Joined(db, id) == None;
      forall k: u64 | k != id ensures RuleOf(rules', Index(node, k)) == Joined(db', k) {
        assert RuleOf(rules, Index(node, k)) == Joined(db, k);
      }
      assert RuleOf(rules', Index(node, id)) == Joined(db', id) <==> !AddSplits(db, row, inserted, found);
    }
  }

  /** Removing a number keeps agreement exactly when no other rule in force has its slot. */
  lemma RemoveKeepsAgreementIff(node: string, db: Db, rules: Rules, id: u64, deleted: bool)
    requires Agree(node, db, rules) && Numbered(db)
    ensures var (db', rules') := Removing(node, db, rules, id, deleted);
            (Agree(node, db', rules') <==> !(deleted && exists k | k in db.rows :: Shares(db, k, id))) && Numbered(db')
  {
    var (db', rules') := Removing(node, db, rules, id, deleted);
    forall k: u64
      ensures RuleOf(rules', Index(node, k)) == Joined(db', k) <==> !(deleted && Shares(db, k, id))
    {
      assert RuleOf(rules, Index(node, k)) == Joined(db, k);
    }
    if deleted && exists k | k in db.rows :: Shares(db, k, id) {
      var k :| k in db.rows && Shares(db, k, id);
      assert RuleOf(rules', Index(node, k)) != Joined(db', k);
    }
  }

  /** The engine was cleared and the rows stayed, or another peer's rule had the slot of one of them. */
  predicate ClearSplits(db: Db, peer: nat, loaded: bool, deleted: bool) {
    && loaded
    && (|| (!deleted && peer in db.peers && RowsOf(db, peer) != {})
        || exists k | k in db.rows :: OverClears(db, peer, k))
  }

  predicate OverClears(db: Db, peer: nat, k: u64) {
    k !in RowsOf(db, peer) && exists id | id in RowsOf(db, peer) :: Shares(db, k, id)
  }

  lemma ClearKeepsAgreementIff(node: string, db: Db, rules: Rules, peer: nat, loaded: bool, deleted: bool)
    requires Agree(node, db, rules) && Numbered(db)
    ensures var (db', rules') := Clearing(node, db, rules, peer, loaded, deleted);
            (Agree(node, db', rules') <==> !ClearSplits(db, peer, loaded, deleted)) && Numbered(db')
  {
    var (db', rules') := Clearing(node, db, rules, peer, loaded, deleted);
    var mine := RowsOf(db, peer);
    if loaded {
      forall k: u64
        ensures k in mine ==>
                  (RuleOf(rules', Index(node, k)) == Joined(db', k) <==> deleted || peer !in db.peers)
        ensures k !in mine ==> (RuleOf(rules', Index(node, k)) == Joined(db', k) <==> !OverClears(db, peer, k))
      {
        assert RuleOf(rules, Index(node, k)) == Joined(db, k);
        ClearedAt(node, rules, mine, k);
      }
      if k :| k in db.rows && OverClears(db, peer, k) {
        assert RuleOf(rules', Index(node, k)) != Joined(db', k);
      }
      if k :| k in mine && !deleted && peer in db.peers {
        assert RuleOf(rules', Index(node, k)) != Joined(db', k);
      }
    }
  }

  lemma ClearedAt(node: string, rules: Rules, ids: set<u64>, k: u64)
    ensures RuleOf(Cleared(node, rules, ids), Index(node, k)) ==
            if k in ids || exists id | id in ids :: id != k && k % RULE_IDS == id % RULE_IDS then None
            else RuleOf(rules, Index(node, k))
  {
    assert k in ids ==> SameSlot(Index(node, k), Index(node, k));
    if id :| id in ids && id != k && k % RULE_IDS == id % RULE_IDS {
      assert SameSlot(Index(node, k), Index(node, id));
    }
  }

  /** A new peer keeps agreement exactly when no row already refers to its number. */
  lemma CreateKeepsAgreementIff(node: string, db: Db, rules: Rules, peer: nat, ip: u32)
    requires Agree(node, db, rules) && peer !in db.peers
    ensures Agree(node, db.(peers := db.peers[peer := ip]), rules) <==> RowsOf(db, peer) == {}
  {
    var db' := db.(peers := db.peers[peer := ip]);
    if RowsOf(db, peer) == {} {
      forall k: u64 ensures RuleOf(rules, Index(node, k)) == Joined(db', k) {
        assert RuleOf(rules, Index(node, k)) == Joined(db, k);
        assert k in db.rows ==> k !in RowsOf(db, peer);
      }
    } else {
      var k :| k in RowsOf(db, peer);
      assert RuleOf(rules, Index(node, k)) == Joined(db, k) == None != Joined(db', k);
    }
  }

  /** Deleting a peer keeps agreement exactly when its rules were cleared first. */
  lemma DropKeepsAgreementIff(node: string, db: Db, rules: Rules, peer: nat)
    requires Agree(node, db, rules)
    ensures Agree(node, db.(peers := db.peers - {peer}), rules) <==> !(peer in db.peers && RowsOf(db, peer) != {})
  {
    var db' := db.(peers := db.peers - {peer});
    forall k: u64 ensures RuleOf(rules, Index(node, k)) == Joined(db, k) {}
    if peer in db.peers && RowsOf(db, peer) != {} {
      var k :| k in RowsOf(db, peer);
      assert Joined(db, k).Some? && Joined(db', k).None?;
      assert RuleOf(rules, Index(node, k)) != Joined(db', k);
    } else {
      forall k: u64 ensures Joined(db', k) == Joined(db, k) {
        assert k in db.rows ==> k !in RowsOf(db, peer) || peer !in db.peers;
      }
    }
  }

  // ----- runs -----

  datatype Op =
    | AddOne(row: Row, inserted: bool, found: bool)
    | RemoveOne(id: u64, deleted: bool)
    | RemoveAll(peer: nat, loaded: bool, deleted: bool)
    | CreatePeer(peer: nat, ip: u32)
    | DropPeer(peer: nat)

  datatype State = State(db: Db, rules: Rules)

  predicate Enabled(st: State, op: Op) {
    match op
    case AddOne(_, inserted, _) => inserted ==> st.db.nextRow < ROWS
    case CreatePeer(peer, _) => peer !in st.db.peers
    case _ => true
  }

  function Step(node: string, st: State, op: Op): State
    requires Enabled(st, op)
  {
    match op
    case AddOne(row, inserted, found) =>
      var (db, rules) := Adding(node, st.db, st.rules, row, inserted, found); State(db, rules)
    case RemoveOne(id, deleted) =>
      var (db, rules) := Removing(node, st.db, st.rules, id, deleted); State(db, rules)
    case RemoveAll(peer, loaded, deleted) =>
      var (db, rules) := Clearing(node, st.db, st.rules, peer, loaded, deleted); State(db, rules)
    case CreatePeer(peer, ip) => st.(db := st.db.(peers := st.db.peers[peer := ip]))
    case DropPeer(peer) => st.(db := st.db.(peers := st.db.peers - {peer}))
  }

  /** The events that pull the database and the engine apart. */
  predicate Splits(st: State, op: Op) {
    match op
    case AddOne(row, inserted, found) => AddSplits(st.db, row, inserted, found)
    case RemoveOne(id, deleted) => deleted && exists k | k in st.db.rows :: Shares(st.db, k, id)
    case RemoveAll(peer, loaded, deleted) => ClearSplits(st.db, peer, loaded, deleted)
    case CreatePeer(peer, _) => RowsOf(st.db, peer) != {}
    case DropPeer(peer) => peer in st.db.peers && RowsOf(st.db, peer) != {}
  }

  predicate Legal(node: string, st: State, run: seq<Op>)
    decreases |run|
  {
    run == [] || (Enabled(st, run[0]) && Legal(node, Step(node, st, run[0]), run[1..]))
  }

  function After(node: string, st: State, run: seq<Op>): State
    requires Legal(node, st, run)
    decreases |run|
  {
    if run == [] then st else After(node, Step(node, st, run[0]), run[1..])
  }

  predicate NeverSplits(node: string, st: State, run: seq<Op>)
    requires Legal(node, st, run)
    decreases |run|
  {
    run == [] || (!Splits(st, run[0]) && NeverSplits(node, Step(node, st, run[0]), run[1..]))
  }

  /** What every state keeps: each slot of the engine has one rule, and rows are numbered in order. */
  ghost predicate Tidy(st: State) { Numbered(st.db) && OnePerSlot(st.rules) }

  lemma StepAgreesIff(node: string, st: State, op: Op)
    requires node != "" && Agree(node, st.db, st.rules) && Tidy(st) && Enabled(st, op)
    ensures var st' := Step(node, st, op);
            (Agree(node, st'.db, st'.rules) <==> !Splits(st, op)) && Tidy(st')
  {
    match op
    case AddOne(row, inserted, found) => AddKeepsAgreementIff(node, st.db, st.rules, row, inserted, found);
    case RemoveOne(id, deleted) => RemoveKeepsAgreementIff(node, st.db, st.rules, id, deleted);
    case RemoveAll(peer, loaded, deleted) => ClearKeepsAgreementIff(node, st.db, st.rules, peer, loaded, deleted);
    case CreatePeer(peer, ip) => CreateKeepsAgreementIff(node, st.db, st.rules, peer, ip);
    case DropPeer(peer) => DropKeepsAgreementIff(node, st.db, st.rules, peer);
  }

  /** In every run without one of these events the engine's own rules are the database's. */
  lemma {:induction false} EngineAgreesWithDatabase(node: string, st: State, run: seq<Op>)
    requires node != "" && Agree(node, st.db, st.rules) && Tidy(st)
    requires Legal(node, st, run) && NeverSplits(node, st, run)
    ensures var end := After(node, st, run); Agree(node, end.db, end.rules) && Tidy(end)
    decreases |run|
  {
    if run != [] {
      StepAgreesIff(node, st, run[0]);
      EngineAgreesWithDatabase(node, Step(node, st, run[0]), run[1..]);
    }
  }

  /** The handler of a removal accepts any number but zero, and so the removal of one rule can take another away. */
  lemma SharedSlotSplits(node: string, row: Row, ip: u32)
    requires node != ""
    ensures var db := Db(map[row.peer := ip], map[5 := row], 6);
            var rules := map[Index(node, 5) := RuleFor(ip, row)];
            var (db', rules') := Removing(node, db, rules, RULE_IDS + 5, true);
            Agree(node, db, rules) && !Agree(node, db', rules')
  {
    var db := Db(map[row.peer := ip], map[5 := row], 6);
    var rules := map[Index(node, 5) := RuleFor(ip, row)];
    RemoveKeepsAgreementIff(node, db, rules, RULE_IDS + 5, true);
    assert 5 in db.rows && Shares(db, 5, RULE_IDS + 5);
  }

  /** Numbers below 2^48 share no slot, so then none of these events is due to one. */
  lemma NarrowRowsShareNothing(db: Db, id: u64)
    requires Numbered(db) && db.nextRow <= RULE_IDS && id < RULE_IDS
    ensures forall k | k in db.rows :: !Shares(db, k, id)
  {}

  /**
   A restart is invisible: after any run without such an event, start-up over the database, in an engine that
   holds rules of other nodes only, rebuilds the very rules of this node.
   */
  method Restart(node: string, db: Db, others: Rules, ghost st: State, ghost run: seq<Op>) returns (reloaded: Rules)
    requires node != "" && Agree(node, st.db, st.rules) && Tidy(st)
    requires Legal(node, st, run) && NeverSplits(node, st, run) && db == After(node, st, run).db
    requires OnePerSlot(others) && forall i | i in others :: i.node != node
    ensures forall id: u64 :: RuleOf(reloaded, Index(node, id)) == RuleOf(After(node, st, run).rules, Index(node, id))
    ensures forall i: Index | i.node != node :: RuleOf(reloaded, i) == RuleOf(others, i)
  {
    var manager := new RuleManager(node, db, others);
    manager.Run();
    EngineAgreesWithDatabase(node, st, run);
    reloaded := manager.rules;
    forall id: u64 ensures RuleOf(reloaded, Index(node, id)) == Joined(db, id) {
      Reloaded(node, db, After(node, st, run).rules, reloaded, id);
    }
  }

  /** Where the engine agreed, the join has one rule per slot, so start-up finds room for each of them. */
  lemma Reloaded(node: string, db: Db, rules: Rules, reloaded: Rules, id: u64)
    requires Agree(node, db, rules) && OnePerSlot(rules)
    requires forall i | i in reloaded && i.node == node :: Joined(db, i.rule) == Some(reloaded[i])
    requires Joined(db, id).Some? ==> Occupied(reloaded, Index(node, id))
    ensures RuleOf(reloaded, Index(node, id)) == Joined(db, id)
  {
    if Joined(db, id).Some? {
      var j :| j in reloaded && SameSlot(j, Index(node, id));
      assert RuleOf(rules, Index(node, j.rule)) == Joined(db, j.rule);
      assert RuleOf(rules, Index(node, id)) == Joined(db, id);
      assert j == Index(node, j.rule) && j in rules && Index(node, id) in rules;
    }
  }

  // ----- the single calls -----

  /** A row and its peer's address can be read back from the rule it becomes: nothing is dropped on the way. */
  lemma RuleKeepsTheRow(ip: u32, row: Row, ip': u32, row': Row)
    ensures RuleFor(ip, row) == RuleFor(ip', row') <==> ip == ip' && row.(peer := 0) == row'.(peer := 0)
    ensures RuleFor(ip, row).address == ip && RuleFor(ip, row).portStart == row.portStart
  {}

  /** An addition that succeeds, with its slot free, is in force at once and will be after a restart. */
  lemma AddedRuleIsInForce(node: string, db: Db, rules: Rules, row: Row)
    requires node != "" && db.nextRow < ROWS && row.peer in db.peers && !Occupied(rules, Index(node, db.nextRow))
    ensures var (db', rules') := Adding(node, db, rules, row, true, true);
            && RuleOf(rules', Index(node, db.nextRow)) == Some(RuleFor(db.peers[row.peer], row))
            && Joined(db', db.nextRow) == Some(RuleFor(db.peers[row.peer], row))
            && db'.nextRow == db.nextRow + 1
            && forall id: u64 | id != db.nextRow :: (id in db'.rows <==> id in db.rows)
  {}

  /** A removal takes the row and the rule, and no other row. */
  lemma RemovedRuleIsGone(node: string, db: Db, rules: Rules, id: u64)
    ensures var (db', rules') := Removing(node, db, rules, id, true);
            && Index(node, id) !in rules' && id !in db'.rows && db'.peers == db.peers
            && forall k: u64 | k != id :: (k in db'.rows <==> k in db.rows)
  {}

  /** Clearing a peer takes all its rows and rules, and no row of another peer. */
  lemma ClearedPeerIsGone(node: string, db: Db, rules: Rules, peer: nat)
    ensures var (db', rules') := Clearing(node, db, rules, peer, true, true);
            && (forall id: u64 | id in db.rows && db.rows[id].peer == peer ::
                  id !in db'.rows && Index(node, id) !in rules')
            && (forall id: u64 | id in db.rows && db.rows[id].peer != peer ::
                  id in db'.rows && db'.rows[id] == db.rows[id])
  {
    forall id: u64 | id in db.rows && db.rows[id].peer == peer
      ensures Index(node, id) !in Cleared(node, rules, RowsOf(db, peer))
    {
      assert id in RowsOf(db, peer) && SameSlot(Index(node, id), Index(node, id));
    }
  }
}
