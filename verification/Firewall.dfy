/**
 The firewall engine: rules filed under compressed 64-bit keys with an index by
 destination address, and time-limited holes that let the packets of an admitted
 flow through in both directions.
 */
module Firewall {
  import opened Common
  import opened FlowKey

  const SHORT_IDS: nat := 0x1_0000
  const RULE_IDS: nat := 0x1_0000_0000_0000

  datatype Index = Index(node: string, rule: u64)

  datatype Rule = Rule(address: u32, target: Option<u32>, protocol: string, portStart: u16, portEnd: Option<u16>)

  /** A rule together with the index it was added under. */
  datatype Stored = Stored(index: Index, rule: Rule)

  datatype Hole = Hole(expire: int, info: HoleInfo)

  type Rules = map<Index, Rule>
  type Holes = map<string, Hole>

  predicate Matches(rule: Rule, hi: HoleInfo) {
    && rule.address == hi.dstIp
    && (rule.target.None? || rule.target.value == hi.srcIp)
    && (hi.protocol == "icmp" ||
        ((rule.protocol == "both" || rule.protocol == hi.protocol) &&
         match rule.portEnd
         case None => rule.portStart == hi.dstPort
         case Some(end) => rule.portStart <= hi.dstPort <= end))
  }

  ghost predicate RulesAllow(rules: Rules, hi: HoleInfo) {
    exists i | i in rules :: Matches(rules[i], hi)
  }

  predicate Open(holes: Holes, hi: HoleInfo, now: int) {
    MakeFlowKey(hi) in holes && now < holes[MakeFlowKey(hi)].expire
  }

  /** An expired hole is removed by the check that finds it. */
  function Checked(holes: Holes, hi: HoleInfo, now: int): Holes {
    if Open(holes, hi, now) then holes else holes - {MakeFlowKey(hi)}
  }

  function Punched(holes: Holes, hi: HoleInfo, expire: int): Holes { holes[MakeFlowKey(hi) := Hole(expire, hi)] }

  /** The holes whose remembered direction some rule still allows. */
  ghost function Authorized(rules: Rules, holes: Holes): Holes {
    map k | k in holes && RulesAllow(rules, holes[k].info) :: holes[k]
  }

  ghost predicate HolesKeyed(holes: Holes) {
    forall k | k in holes :: MakeFlowKey(holes[k].info) == k
  }

  // ----- compressed keys -----

  /** The short identifier in the upper 16 bits and the rule number in the lower 48. */
  function GlobalKey(short: nat, rule: nat): nat { short * RULE_IDS + rule % RULE_IDS }

  lemma GlobalKeyReadsBack(s: nat, r: nat, t: nat, q: nat)
    ensures GlobalKey(s, r) == GlobalKey(t, q) <==>
            s == t && r % 0x1_0000_0000_0000 == q % 0x1_0000_0000_0000
    ensures s < 0x1_0000 ==> GlobalKey(s, r) < 0x1_0000_0000_0000_0000
  {}

  type ShortIds = map<string, nat>

  function Slot(ids: ShortIds, i: Index): nat
    requires i.node in ids
  {
    GlobalKey(ids[i.node], i.rule)
  }

  // ----- the rule table, as the compressed keys see it -----

  /** The short identifiers handed out, the sixteen-bit counter they come from, and the rules. */
  datatype Table = Table(ids: ShortIds, next: nat, rules: Rules)

  /** The counter is incremented before it is handed out, and wraps. */
  function Registered(t: Table, node: string): Table {
    if node in t.ids then t
    else var short := (t.next + 1) % SHORT_IDS; t.(ids := t.ids[node := short], next := short)
  }

  /** Some stored rule occupies the slot of `i`. */
  ghost predicate Taken(t: Table, i: Index) {
    i.node in t.ids && exists j | j in t.rules :: j.node in t.ids && Slot(t.ids, j) == Slot(t.ids, i)
  }

  ghost predicate Adds(t: Table, i: Index) {
    i.node != "" && !Taken(Registered(t, i.node), i)
  }

  ghost function Added(t: Table, i: Index, rule: Rule): Table {
    if i.node == "" then t
    else Registered(t, i.node).(rules := if Adds(t, i) then t.rules[i := rule] else t.rules)
  }

  ghost function Removed(t: Table, i: Index): Table {
    if i.node !in t.ids then t
    else t.(rules := map j | j in t.rules && !(j.node in t.ids && Slot(t.ids, j) == Slot(t.ids, i)) :: t.rules[j])
  }

  // ----- what ties the engine's maps to the table -----

  type ById = map<nat, Stored>
  type ByAddr = map<u32, seq<nat>>

  ghost predicate RulesOk(byId: ById, t: Table) {
    && (forall i | i in t.rules ::
          i.node in t.ids && Slot(t.ids, i) in byId && byId[Slot(t.ids, i)] == Stored(i, t.rules[i]))
    && (forall k | k in byId ::
          byId[k].index in t.rules && t.rules[byId[k].index] == byId[k].rule && Slot(t.ids, byId[k].index) == k)
  }

  ghost predicate AddrOk(byAddr: ByAddr, byId: ById) {
    && (forall a | a in byAddr :: byAddr[a] != [] && NoDuplicates(byAddr[a]))
    && (forall a, k | a in byAddr && k in byAddr[a] :: k in byId && byId[k].rule.address == a)
    && (forall k | k in byId :: byId[k].rule.address in byAddr && k in byAddr[byId[k].rule.address])
  }

  lemma RulesRename(byId: ById, t: Table, node: string)
    requires RulesOk(byId, t)
    ensures RulesOk(byId, Registered(t, node))
  {}

  lemma TakenIff(byId: ById, t: Table, i: Index)
    requires RulesOk(byId, t) && i.node in t.ids
    ensures Taken(t, i) <==> Slot(t.ids, i) in byId
  {
    if Slot(t.ids, i) in byId {
      var j := byId[Slot(t.ids, i)].index;
      assert j in t.rules && j.node in t.ids && Slot(t.ids, j) == Slot(t.ids, i);
    }
  }

  lemma RulesInsert(byId: ById, t: Table, i: Index, rule: Rule)
    requires RulesOk(byId, t) && i.node in t.ids && Slot(t.ids, i) !in byId
    ensures RulesOk(byId[Slot(t.ids, i) := Stored(i, rule)], t.(rules := t.rules[i := rule]))
  {}

  lemma RulesDelete(byId: ById, t: Table, i: Index)
    requires RulesOk(byId, t) && i.node in t.ids && Slot(t.ids, i) in byId
    ensures RulesOk(byId - {Slot(t.ids, i)}, Removed(t, i))
    ensures Removed(t, i).rules == t.rules - {byId[Slot(t.ids, i)].index}
  {
    var k := Slot(t.ids, i);
    var j := byId[k].index;
    forall x | x in t.rules && x != j ensures Slot(t.ids, x) != k {
      assert byId[Slot(t.ids, x)].index == x;
    }
    assert Removed(t, i).rules == t.rules - {j};
  }

  lemma AddrInsert(byAddr: ByAddr, byId: ById, k: nat, s: Stored)
    requires AddrOk(byAddr, byId) && k !in byId
    ensures var a := s.rule.address;
            AddrOk(byAddr[a := (if a in byAddr then byAddr[a] else []) + [k]], byId[k := s])
  {
    var a := s.rule.address;
    var ids := if a in byAddr then byAddr[a] else [];
    assert forall x | x in ids :: x in byId;
    assert (ids + [k])[|ids|] == k;
    assert forall x :: x in ids + [k] <==> x in ids || x == k;
  }

  /** The list without the key at `pos`; an emptied list leaves the index. */
  function AddrWithout(byAddr: ByAddr, a: u32, pos: nat): ByAddr
    requires a in byAddr && pos < |byAddr[a]|
  {
    var ids := byAddr[a][..pos] + byAddr[a][pos + 1..];
    if ids == [] then byAddr - {a} else byAddr[a := ids]
  }

  lemma AddrDelete(byAddr: ByAddr, byId: ById, k: nat, pos: nat)
    requires AddrOk(byAddr, byId) && k in byId
    requires var a := byId[k].rule.address; pos < |byAddr[a]| && byAddr[a][pos] == k
    ensures AddrOk(AddrWithout(byAddr, byId[k].rule.address, pos), byId - {k})
  {
    var a := byId[k].rule.address;
    var whole, ids := byAddr[a], byAddr[a][..pos] + byAddr[a][pos + 1..];
    forall x ensures x in ids <==> x in whole && x != k {
      if x in whole && x != k {
        var p :| 0 <= p < |whole| && whole[p] == x;
        assert x == if p < pos then ids[p] else ids[p - 1];
      }
    }
  }

  lemma AllowIff(byAddr: ByAddr, byId: ById, t: Table, hi: HoleInfo)
    requires RulesOk(byId, t) && AddrOk(byAddr, byId)
    ensures RulesAllow(t.rules, hi) <==>
            hi.dstIp in byAddr && exists k | k in byAddr[hi.dstIp] :: Matches(byId[k].rule, hi)
  {
    if i :| i in t.rules && Matches(t.rules[i], hi) {
      var k := Slot(t.ids, i);
      assert k in byAddr[hi.dstIp] && Matches(byId[k].rule, hi);
    }
    if hi.dstIp in byAddr {
      forall k | k in byAddr[hi.dstIp] && Matches(byId[k].rule, hi) ensures RulesAllow(t.rules, hi) {
        assert byId[k].index in t.rules && Matches(t.rules[byId[k].index], hi);
      }
    }
  }

  /** The sweep has judged every hole but those in `todo`. */
  ghost predicate Swept(rules: Rules, all: Holes, holes: Holes, todo: set<string>) {
    && holes.Keys <= all.Keys
    && (forall k | k in holes :: holes[k] == all[k])
    && (forall k | k in all && k !in todo :: k in holes <==> RulesAllow(rules, all[k].info))
  }

  lemma SweptAll(rules: Rules, all: Holes, holes: Holes)
    requires Swept(rules, all, holes, {})
    ensures holes == Authorized(rules, all)
  {}

  /** A dump holds every rule once, in some order. */
  ghost predicate Dumps(dump: seq<Stored>, rules: Rules) {
    && (forall s | s in dump :: s.index in rules && rules[s.index] == s.rule)
    && (forall i | i in rules :: Stored(i, rules[i]) in dump)
    && (forall x, y | 0 <= x < y < |dump| :: dump[x].index != dump[y].index)
  }

  method DumpAll(byId: ById, ghost t: Table) returns (dump: seq<Stored>)
    requires RulesOk(byId, t)
    ensures Dumps(dump, t.rules)
  {
    dump := [];
    var todo := byId.Keys;
    while todo != {}
      invariant todo <= byId.Keys
      invariant forall s | s in dump ::
                  s.index in t.rules && t.rules[s.index] == s.rule && Slot(t.ids, s.index) !in todo
      invariant forall k | k in byId && k !in todo :: byId[k] in dump
      invariant forall x, y | 0 <= x < y < |dump| :: dump[x].index != dump[y].index
      decreases todo
    {
      var k :| k in todo;
      todo := todo - {k};
      dump := dump + [byId[k]];
    }
  }

  method Find(ids: seq<nat>, key: nat) returns (pos: nat)
    requires key in ids
    ensures pos < |ids| && ids[pos] == key && key !in ids[..pos]
  {
    pos := 0;
    while ids[pos] != key
      invariant pos < |ids| && key !in ids[..pos]
      decreases |ids| - pos
    {
      assert ids == ids[..pos] + [ids[pos]] + ids[pos + 1..];
      pos := pos + 1;
    }
  }

  class Engine {
    var rulesByAddr: ByAddr
    var rulesById: ById
    var shortIds: ShortIds
    var nextShort: nat
    var holes: Holes
    ghost var table: Table

    ghost predicate Valid()
      reads this
    {
      && table.ids == shortIds && table.next == nextShort && "" !in shortIds
      && RulesOk(rulesById, table)
      && AddrOk(rulesByAddr, rulesById)
      && HolesKeyed(holes)
    }

    constructor ()
      ensures Valid() && table == Table(map[], 0, map[]) && holes == map[]
    {
      rulesByAddr, rulesById, shortIds, nextShort, holes := map[], map[], map[], 0, map[];
      table := Table(map[], 0, map[]);
    }

    method GetOrCreateShortId(node: string) returns (short: nat)
      requires Valid() && node != ""
      modifies this`shortIds, this`nextShort, this`table
      ensures Valid() && table == Registered(old(table), node)
      ensures node in table.ids && short == table.ids[node]
    {
      if node in shortIds {
        return shortIds[node];
      }
      RulesRename(rulesById, table, node);
      nextShort := (nextShort + 1) % SHORT_IDS;
      shortIds := shortIds[node := nextShort];
      table := Registered(table, node);
      return nextShort;
    }

    method AddRule(index: Index, rule: Rule) returns (ok: bool)
      requires Valid()
      modifies this
      ensures Valid() && holes == old(holes)
      ensures ok <==> Adds(old(table), index)
      ensures table == Added(old(table), index, rule)
    {
      if |index.node| == 0 {
        return false;
      }
      var short := GetOrCreateShortId(index.node);
      var key := GlobalKey(short, index.rule);
      TakenIff(rulesById, table, index);
      if key in rulesById {
        return false;
      }
      RulesInsert(rulesById, table, index, rule);
      File(key, Stored(index, rule));
      table := table.(rules := table.rules[index := rule]);
      return true;
    }

    /** Puts a key into both maps. */
    method File(key: nat, s: Stored)
      requires AddrOk(rulesByAddr, rulesById) && key !in rulesById
      modifies this`rulesById, this`rulesByAddr
      ensures AddrOk(rulesByAddr, rulesById) && rulesById == old(rulesById)[key := s]
    {
      AddrInsert(rulesByAddr, rulesById, key, s);
      rulesById := rulesById[key := s];
      var ids := if s.rule.address in rulesByAddr then rulesByAddr[s.rule.address] else [];
      rulesByAddr := rulesByAddr[s.rule.address := ids + [key]];
    }

    method ExistsRule(index: Index) returns (ex: bool)
      requires Valid()
      ensures ex <==> Taken(table, index)
    {
      if index.node !in shortIds {
        return false;
      }
      TakenIff(rulesById, table, index);
      return GlobalKey(shortIds[index.node], index.rule) in rulesById;
    }

    method DumpRules() returns (dump: seq<Stored>)
      requires Valid()
      ensures Dumps(dump, table.rules)
    {
      dump := DumpAll(rulesById, table);
    }

    method RemoveRule(index: Index) returns (ok: bool)
      requires Valid()
      modifies this
      ensures Valid()
      ensures ok <==> Taken(old(table), index)
      ensures table == Removed(old(table), index)
      ensures holes == if ok then Authorized(table.rules, old(holes)) else old(holes)
    {
      if index.node !in shortIds {
        return false;
      }
      var key := GlobalKey(shortIds[index.node], index.rule);
      TakenIff(rulesById, table, index);
      if key !in rulesById {
        assert Removed(table, index).rules == table.rules;
        return false;
      }
      RulesDelete(rulesById, table, index);
      Unfile(key);
      table := Removed(table, index);
      DropUnauthorizedHoles();
      return true;
    }

    /** Takes a key out of both maps. */
    method Unfile(key: nat)
      requires AddrOk(rulesByAddr, rulesById) && key in rulesById
      modifies this`rulesById, this`rulesByAddr
      ensures AddrOk(rulesByAddr, rulesById) && rulesById == old(rulesById) - {key}
    {
      var a := rulesById[key].rule.address;
      var ids := rulesByAddr[a];
      var pos := Find(ids, key);
      AddrDelete(rulesByAddr, rulesById, key, pos);
      ghost var without := AddrWithout(rulesByAddr, a, pos);
      rulesById := rulesById - {key};
      rulesByAddr := rulesByAddr[a := ids[..pos] + ids[pos + 1..]];
      if |rulesByAddr[a]| == 0 {
        rulesByAddr := rulesByAddr - {a};
      }
      assert rulesByAddr == without;
    }

    method DropUnauthorizedHoles()
      requires Valid()
      modifies this`holes
      ensures Valid() && holes == Authorized(table.rules, old(holes))
    {
      hide MakeFlowKey;
      var todo := holes.Keys;
      ghost var all := holes;
      while todo != {}
        invariant HolesKeyed(holes) && todo <= holes.Keys
        invariant Swept(table.rules, all, holes, todo)
        decreases todo
      {
        var k :| k in todo;
        var allowed := CheckRules(holes[k].info);
        todo := todo - {k};
        if !allowed {
          holes := holes - {k};
        }
      }
      SweptAll(table.rules, all, holes);
    }

    /** The rules alone, without the holes. */
    method CheckRules(hi: HoleInfo) returns (allowed: bool)
      requires RulesOk(rulesById, table) && AddrOk(rulesByAddr, rulesById)
      ensures allowed <==> RulesAllow(table.rules, hi)
    {
      AllowIff(rulesByAddr, rulesById, table, hi);
      if hi.dstIp !in rulesByAddr {
        return false;
      }
      var ids := rulesByAddr[hi.dstIp];
      if hi.protocol == "icmp" {
        for n := 0 to |ids|
          invariant forall m | 0 <= m < n :: !Matches(rulesById[ids[m]].rule, hi)
        {
          var rule := rulesById[ids[n]].rule;
          if rule.target.None? || rule.target.value == hi.srcIp {
            return true;
          }
        }
        return false;
      }
      for n := 0 to |ids|
        invariant forall m | 0 <= m < n :: !Matches(rulesById[ids[m]].rule, hi)
      {
        var rule := rulesById[ids[n]].rule;
        if rule.target.Some? && rule.target.value != hi.srcIp {
          continue;
        }
        if rule.protocol != "both" && rule.protocol != hi.protocol {
          continue;
        }
        if rule.portEnd.None? {
          if rule.portStart == hi.dstPort {
            return true;
          }
        } else {
          if rule.portStart <= hi.dstPort && hi.dstPort <= rule.portEnd.value {
            return true;
          }
        }
      }
      return false;
    }

    method RuleCheck(hi: HoleInfo, now: int) returns (allowed: bool)
      requires Valid()
      modifies this`holes
      ensures Valid() && holes == Checked(old(holes), hi, now)
      ensures allowed <==> Open(old(holes), hi, now) || RulesAllow(table.rules, hi)
    {
      var key := MakeFlowKey(hi);
      if key in holes {
        if now < holes[key].expire {
          return true;
        }
        holes := holes - {key};
      }
      assert holes == Checked(old(holes), hi, now);
      allowed := CheckRules(hi);
    }

    method Holepunch(hi: HoleInfo, now: int, duration: int)
      requires Valid()
      modifies this`holes
      ensures Valid() && holes == Punched(old(holes), hi, now + duration)
    {
      holes := holes[MakeFlowKey(hi) := Hole(now + duration, hi)];
    }
  }
}
