/**
 The engine as its callers see it. A rule is filed under its node and the low 48
 bits of its number, so rules of one node whose numbers agree there share a slot:
 the second is refused, and removing either removes the one that is stored.
 */
module Slots {
  import opened Common
  import opened Firewall

  predicate SameSlot(i: Index, j: Index) { i.node == j.node && i.rule % RULE_IDS == j.rule % RULE_IDS }

  predicate Occupied(rules: Rules, i: Index) { exists j | j in rules :: SameSlot(j, i) }

  function Filled(rules: Rules, i: Index, rule: Rule): Rules {
    if i.node == "" || Occupied(rules, i) then rules else rules[i := rule]
  }

  function Vacated(rules: Rules, i: Index): Rules { map j | j in rules && !SameSlot(j, i) :: rules[j] }

  ghost predicate OnePerSlot(rules: Rules) { forall i, j | i in rules && j in rules && SameSlot(i, j) :: i == j }

  /** All numbers of this node fit 48 bits. */
  ghost predicate Narrow(rules: Rules, node: string) { forall i | i in rules && i.node == node :: i.rule < RULE_IDS }

  lemma VacateStored(rules: Rules, i: Index)
    requires OnePerSlot(rules) && i in rules
    ensures Vacated(rules, i) == rules - {i}
  {}

  /** Two rules share a slot exactly when they are one node's and their numbers have the low 48 bits in common. */
  lemma SlotIsLowBits(node: string, a: u64, b: u64)
    requires a < 0x1_0000_0000_0000
    ensures SameSlot(Index(node, a), Index(node, b)) <==> exists k: nat :: b == a + k * 0x1_0000_0000_0000
  {
    if SameSlot(Index(node, a), Index(node, b)) {
      assert b == a + b / 0x1_0000_0000_0000 * 0x1_0000_0000_0000;
    }
    forall k: nat | b == a + k * 0x1_0000_0000_0000 ensures SameSlot(Index(node, a), Index(node, b)) {
      Wraps(a, k);
    }
  }

  lemma {:induction false} Wraps(a: nat, k: nat)
    requires a < RULE_IDS
    ensures (a + k * 0x1_0000_0000_0000) % RULE_IDS == a
    decreases k
  {
    if k > 0 {
      Wraps(a, k - 1);
      assert a + k * 0x1_0000_0000_0000 == (a + (k - 1) * 0x1_0000_0000_0000) + RULE_IDS;
    }
  }

  lemma VacateFree(rules: Rules, i: Index)
    ensures !Occupied(rules, i) ==> Vacated(rules, i) == rules
  {}

  /** Numbers that fit have slots of their own. */
  lemma NarrowSlots(rules: Rules, i: Index)
    requires Narrow(rules, i.node) && i.rule < RULE_IDS
    ensures Occupied(rules, i) <==> i in rules
    ensures Vacated(rules, i) == rules - {i}
  {
    if i in rules {
      assert SameSlot(i, i);
    }
  }
}
