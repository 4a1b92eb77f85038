/**
 The IPv4 address pool of a node: a stack of freed addresses, a pointer to the
 first address never issued, and a list of reserved addresses.
 */
module IpAlloc {
  import opened Common

  const U32: nat := 0x1_0000_0000

  // ----- the range of a subnet -----

  function Pow2(n: nat): (p: nat)
    ensures p >= 1
  {
    if n == 0 then 1 else 2 * Pow2(n - 1)
  }

  lemma {:induction false} Pow2Doubles(n: nat)
    ensures (n >= 1 ==> Pow2(n) >= 2) && (n >= 2 ==> Pow2(n) >= 4)
  {
    if n > 0 {
      Pow2Doubles(n - 1);
    }
  }

  /** A network address is a multiple of the subnet's size. */
  ghost predicate IsNetwork(network: nat, prefix: nat) {
    prefix <= 32 && network % Pow2(32 - prefix) == 0 && network + Pow2(32 - prefix) <= U32
  }

  /** First and last address to hand out, in 32-bit arithmetic; none when the range is empty. */
  function RangeIn(network: nat, size: nat): Option<(nat, nat)>
    requires size > 0
  {
    var broadcast := network + size - 1;
    var start, end := (network + 1) % U32, (broadcast - 1) % U32;
    if start > end then None else Some((start, end))
  }

  function NewRange(network: nat, prefix: nat): Option<(nat, nat)>
    requires prefix <= 32
  {
    RangeIn(network, Pow2(32 - prefix))
  }

  lemma RangeOfSize(network: nat, size: nat)
    requires size >= 4 && network + size <= U32
    ensures RangeIn(network, size) == Some((network + 1, network + size - 2))
  {}

  lemma RangeShape(network: nat, size: nat)
    requires size > 0 && network + size <= U32 && RangeIn(network, size).Some?
    ensures var (start, end) := RangeIn(network, size).value; start <= end < U32 && (end == U32 - 1 ==> start > 0)
  {}

  /** A prefix of at most 30 gives all addresses of the subnet but the first and the last. */
  lemma RangeOfSubnet(network: nat, prefix: nat)
    requires IsNetwork(network, prefix) && prefix <= 30
    ensures NewRange(network, prefix) == Some((network + 1, network + Pow2(32 - prefix) - 2))
    ensures network + 1 <= network + Pow2(32 - prefix) - 2 < U32 - 1
  {
    Pow2Doubles(32 - prefix);
    RangeOfSize(network, Pow2(32 - prefix));
  }

  /** Longer prefixes are refused, except that 32-bit wrap-around accepts the two extreme host addresses. */
  lemma RangeExistsIff(network: nat, prefix: nat)
    requires IsNetwork(network, prefix)
    ensures NewRange(network, prefix).Some? <==> prefix <= 30 || (prefix == 32 && network in {0, U32 - 1})
  {
    if prefix <= 30 {
      RangeOfSubnet(network, prefix);
    } else {
      assert Pow2(0) == 1 && Pow2(1) == 2;
    }
  }

  // ----- the pool -----

  datatype Pool = Pool(start: nat, end: nat, next: nat, freed: seq<nat>, reserved: seq<nat>)

  datatype Error = OutOfRange | AlreadyReserved | AlreadyAllocated | AlreadyFree | Reserved

  predicate InRange(p: Pool, a: nat) { p.start <= a <= p.end }

  /** A range that ends at the last address of all makes the 32-bit pointer wrap; it never holds address zero. */
  predicate Wraps(p: Pool) { p.end == U32 - 1 }

  predicate WellFormed(p: Pool) {
    && p.next <= p.end + 1 <= U32 && p.next < U32
    && if Wraps(p) then p.start > 0 && 0 !in p.reserved else p.start <= p.next
  }

  /** The freed stack once an address has been taken from it, skipping reserved ones. */
  function Popped(freed: seq<nat>, reserved: seq<nat>): (seq<nat>, Option<nat>) {
    if freed == [] then ([], None)
    else
      var top, rest := freed[|freed| - 1], freed[..|freed| - 1];
      if top in reserved then Popped(rest, reserved) else (rest, Some(top))
  }

  /** The first unreserved address from `next` on, in 32-bit arithmetic; one past the end when there is none. */
  function Fresh(next: nat, end: nat, reserved: seq<nat>): (a: nat)
    requires next <= end + 1 <= U32 && next < U32 && (end == U32 - 1 ==> 0 !in reserved)
    ensures a <= end + 1 && a < U32 && (end < U32 - 1 ==> next <= a)
    decreases if end == U32 - 1 && next == 0 then 0 else end + 1 - next
  {
    if next > end || next !in reserved then next else Fresh((next + 1) % U32, end, reserved)
  }

  function Got(p: Pool): (Pool, Option<nat>)
    requires WellFormed(p)
  {
    var (freed, top) := Popped(p.freed, p.reserved);
    if top.Some? then (p.(freed := freed), top)
    else
      var a := Fresh(p.next, p.end, p.reserved);
      if a <= p.end then (p.(freed := freed, next := (a + 1) % U32), Some(a)) else (p.(freed := freed, next := a), None)
  }

  function WithoutFirst(s: seq<nat>, a: nat): seq<nat> {
    if s == [] then [] else if s[0] == a then s[1..] else [s[0]] + WithoutFirst(s[1..], a)
  }

  lemma WithoutFirstAt(s: seq<nat>, i: nat, a: nat)
    requires i < |s|
    ensures s[..i] + WithoutFirst(s[i..], a) ==
            if s[i] == a then s[..i] + s[i + 1..] else s[..i + 1] + WithoutFirst(s[i + 1..], a)
  {
    assert s[i..][0] == s[i] && s[i..][1..] == s[i + 1..];
    assert s[..i + 1] == s[..i] + [s[i]];
  }

  function ReserveIn(p: Pool, a: nat): (Pool, Option<Error>) {
    if !InRange(p, a) then (p, Some(OutOfRange))
    else if a in p.reserved then (p, Some(AlreadyReserved))
    else
      var q := p.(freed := WithoutFirst(p.freed, a));
      if a < p.next && a !in q.freed then (q, Some(AlreadyAllocated))
      else (q.(reserved := p.reserved + [a]), None)
  }

  function FreeIn(p: Pool, a: nat): (Pool, Option<Error>) {
    if !InRange(p, a) then (p, Some(OutOfRange))
    else if a in p.reserved then (p, Some(Reserved))
    else if a in p.freed then (p, Some(AlreadyFree))
    else (p.(freed := p.freed + [a]), None)
  }

  class Allocator {
    const start: nat
    const end: nat
    var next: nat
    var freed: seq<nat>
    var reserved: seq<nat>

    function View(): Pool
      reads this
    {
      Pool(start, end, next, freed, reserved)
    }

    ghost predicate Valid()
      reads this
    {
      WellFormed(View())
    }

    constructor (start: nat, end: nat)
      requires start <= end < U32 && (end == U32 - 1 ==> start > 0)
      ensures Valid() && View() == Pool(start, end, start, [], [])
    {
      this.start, this.end, next, freed, reserved := start, end, start, [], [];
    }

    method IsReserved(a: nat) returns (r: bool)
      ensures r <==> a in reserved
    {
      for i := 0 to |reserved|
        invariant a !in reserved[..i]
      {
        if reserved[i] == a {
          return true;
        }
      }
      return false;
    }

    method RemoveFromFreed(a: nat)
      modifies this`freed
      ensures freed == WithoutFirst(old(freed), a)
    {
      for i := 0 to |freed|
        invariant freed == old(freed)
        invariant freed[..i] + WithoutFirst(freed[i..], a) == WithoutFirst(freed, a)
      {
        WithoutFirstAt(freed, i, a);
        if freed[i] == a {
          freed := freed[..i] + freed[i + 1..];
          return;
        }
      }
      assert freed[..|freed|] == freed;
    }

    method Reserve(a: nat) returns (err: Option<Error>)
      requires Valid()
      modifies this
      ensures Valid() && (View(), err) == ReserveIn(old(View()), a)
    {
      if a < start || a > end {
        return Some(OutOfRange);
      }
      var taken := IsReserved(a);
      if taken {
        return Some(AlreadyReserved);
      }
      RemoveFromFreed(a);
      if a < next {
        var foundInFreed := a in freed;
        if !foundInFreed {
          return Some(AlreadyAllocated);
        }
      }
      reserved := reserved + [a];
      return None;
    }

    method Get() returns (r: Option<nat>)
      requires Valid()
      modifies this
      ensures Valid() && (View(), r) == Got(old(View()))
    {
      while |freed| > 0
        invariant next == old(next) && reserved == old(reserved)
        invariant Popped(freed, reserved) == Popped(old(freed), reserved)
        decreases |freed|
      {
        var a := freed[|freed| - 1];
        freed := freed[..|freed| - 1];
        var skip := IsReserved(a);
        if !skip {
          return Some(a);
        }
      }
      r := GetNew();
    }

    /** The addresses never issued, once the freed ones are used up. */
    method GetNew() returns (r: Option<nat>)
      requires Valid()
      modifies this`next
      ensures Valid() && var a := Fresh(old(next), end, reserved);
              if a <= end then r == Some(a) && next == (a + 1) % U32 else r == None && next == a
    {
      while next <= end
        invariant Valid() && Fresh(next, end, reserved) == Fresh(old(next), end, reserved)
        decreases if end == U32 - 1 && next == 0 then 0 else end + 1 - next
      {
        var a := next;
        var skip := IsReserved(a);
        next := (next + 1) % U32;
        if !skip {
          return Some(a);
        }
      }
      return None;
    }

    method Free(a: nat) returns (err: Option<Error>)
      requires Valid()
      modifies this
      ensures Valid() && (View(), err) == FreeIn(old(View()), a)
    {
      if a < start || a > end {
        return Some(OutOfRange);
      }
      var taken := IsReserved(a);
      if taken {
        return Some(Reserved);
      }
      for i := 0 to |freed|
        invariant a !in freed[..i]
      {
        if freed[i] == a {
          return Some(AlreadyFree);
        }
      }
      freed := freed + [a];
      return None;
    }
  }

  // ----- the ledger -----

  /** `out` are the addresses issued and not given back. No address serves two purposes. */
  ghost predicate Safe(p: Pool, out: set<nat>) {
    && WellFormed(p) && !Wraps(p) && NoDuplicates(p.freed) && NoDuplicates(p.reserved)
    && (forall a | a in p.reserved :: InRange(p, a) && a !in p.freed && a !in out)
    && (forall a | a in p.freed :: p.start <= a < p.next && a !in out)
    && (forall a | a in out :: p.start <= a < p.next)
  }

  /** And none is lost: everything below `next` is issued, freed or reserved. */
  ghost predicate Ledger(p: Pool, out: set<nat>) {
    && Safe(p, out)
    && forall a | p.start <= a < p.next :: a in out || a in p.freed || a in p.reserved
  }

  lemma {:induction false} PoppedIs(freed: seq<nat>, reserved: seq<nat>)
    requires forall a | a in freed :: a !in reserved
    ensures Popped(freed, reserved) ==
            if freed == [] then ([], None) else (freed[..|freed| - 1], Some(freed[|freed| - 1]))
  {
    if freed != [] {
      assert freed[|freed| - 1] in freed;
    }
  }

  lemma {:induction false} FreshIs(next: nat, end: nat, reserved: seq<nat>)
    requires next <= end + 1 < U32
    ensures var a := Fresh(next, end, reserved);
            && next <= a <= end + 1 && (a <= end ==> a !in reserved)
            && forall b | next <= b < a :: b in reserved
    decreases end + 1 - next
  {
    if next != end + 1 && next in reserved {
      FreshIs(next + 1, end, reserved);
    }
  }

  lemma {:induction false} WithoutFirstIs(s: seq<nat>, a: nat)
    requires NoDuplicates(s)
    ensures NoDuplicates(WithoutFirst(s, a))
    ensures forall x :: x in WithoutFirst(s, a) <==> x in s && x != a
  {
    if s != [] {
      WithoutFirstIs(s[1..], a);
      assert s == [s[0]] + s[1..];
      assert forall x :: x in s <==> x == s[0] || x in s[1..];
      assert s[0] !in s[1..];
      if s[0] != a {
        var t := WithoutFirst(s[1..], a);
        assert forall x :: x in [s[0]] + t <==> x == s[0] || x in t;
        assert s[0] !in t;
      }
    }
  }

  /** An address that is handed out was free: neither issued nor reserved, and inside the range. */
  lemma GetIsSafe(p: Pool, out: set<nat>)
    requires Safe(p, out)
    ensures var (q, r) := Got(p);
            && (r.Some? ==> InRange(p, r.value) && r.value !in out && r.value !in p.reserved)
            && Safe(q, if r.Some? then out + {r.value} else out)
            && (Ledger(p, out) ==> Ledger(q, if r.Some? then out + {r.value} else out))
  {
    PoppedIs(p.freed, p.reserved);
    if p.freed != [] {
      var top, rest := p.freed[|p.freed| - 1], p.freed[..|p.freed| - 1];
      assert p.freed == rest + [top];
      assert top !in rest && forall a :: a in p.freed <==> a in rest || a == top;
    } else {
      FreshIs(p.next, p.end, p.reserved);
    }
  }

  /** Reserving never endangers safety; it keeps the ledger exactly when the address is not in the freed list. */
  lemma ReserveIsSafe(p: Pool, out: set<nat>, a: nat)
    requires Safe(p, out)
    ensures Safe(ReserveIn(p, a).0, out)
    ensures Ledger(p, out) ==> (Ledger(ReserveIn(p, a).0, out) <==> a !in p.freed)
    ensures ReserveIn(p, a).1.None? ==> a in ReserveIn(p, a).0.reserved && a !in out
  {
    WithoutFirstIs(p.freed, a);
    var q := ReserveIn(p, a).0;
    assert forall x :: x in p.reserved + [a] <==> x in p.reserved || x == a;
    if a in p.freed {
      assert p.start <= a < p.next && a !in q.freed && a !in q.reserved && a !in out;
    }
  }

  /**
   Giving back an issued address always succeeds. Any other successful call is safe exactly when the address
   lies below the pointer, where only an address lost to a reservation can be; the ledger it breaks.
   */
  lemma FreeKeepsLedgerIff(p: Pool, out: set<nat>, a: nat)
    requires Safe(p, out)
    ensures var (q, err) := FreeIn(p, a);
            var held := if err.None? then out - {a} else out;
            && (a in out ==> err.None?)
            && (Safe(q, held) <==> err.Some? || a < p.next)
            && (Ledger(p, out) ==> (Ledger(q, held) <==> err.Some? || a in out))
            && (Ledger(p, out) ==> (Safe(q, held) <==> err.Some? || a in out))
  {
    var q := FreeIn(p, a).0;
    assert forall x :: x in p.freed + [a] <==> x in p.freed || x == a;
    assert a in p.freed + [a];
  }

  // ----- counting -----

  function Range(lo: nat, hi: nat): (r: set<nat>)
    ensures forall a :: a in r <==> lo <= a < hi
    decreases hi
  {
    if hi <= lo then {} else Range(lo, hi - 1) + {hi - 1}
  }

  lemma {:induction false} RangeSize(lo: nat, hi: nat)
    requires lo <= hi
    ensures |Range(lo, hi)| == hi - lo
    decreases hi - lo
  {
    if lo < hi {
      RangeSize(lo, hi - 1);
    }
  }

  lemma {:induction false} ElementsSize(s: seq<nat>)
    requires NoDuplicates(s)
    ensures |Elements(s)| == |s|
  {
    if s != [] {
      var init, last := s[..|s| - 1], s[|s| - 1];
      ElementsSize(init);
      assert s == init + [last] && last !in init;
      assert Elements(s) == Elements(init) + {last};
    }
  }

  /** The addresses below `next` are counted out exactly. */
  lemma AddressesAreConserved(p: Pool, out: set<nat>)
    requires Ledger(p, out)
    ensures |out| + |p.freed| + |Elements(p.reserved) * Range(p.start, p.next)| == p.next - p.start
  {
    hide Range;
    var passed := Elements(p.reserved) * Range(p.start, p.next);
    RangeSize(p.start, p.next);
    ElementsSize(p.freed);
    assert out !! Elements(p.freed) && (out + Elements(p.freed)) !! passed;
    assert out + Elements(p.freed) + passed == Range(p.start, p.next);
  }

  /** The pool is exhausted exactly when every address of the range is issued or reserved. */
  lemma GetFailsIff(p: Pool, out: set<nat>)
    requires Ledger(p, out)
    ensures Got(p).1.None? <==> |out| + |p.reserved| == p.end + 1 - p.start
  {
    hide Range;
    var used, all := out + Elements(p.reserved), Range(p.start, p.end + 1);
    RangeSize(p.start, p.end + 1);
    ElementsSize(p.reserved);
    assert out !! Elements(p.reserved);
    assert |used| == |out| + |p.reserved|;
    SubsetSize(used, all);
    GetIsSafe(p, out);
    var r := Got(p).1;
    if r.Some? {
      assert r.value in all && r.value !in used;
    } else {
      PoppedIs(p.freed, p.reserved);
      FreshIs(p.next, p.end, p.reserved);
      assert p.freed == [] && forall a | p.next <= a <= p.end :: a in p.reserved;
      assert used == all;
    }
  }

  // ----- runs -----

  datatype Op = Get | Reserve(a: nat) | Free(a: nat)

  function Step(p: Pool, out: set<nat>, op: Op): (r: (Pool, set<nat>))
    requires WellFormed(p)
    ensures WellFormed(r.0)
  {
    match op
    case Get => var (q, r) := Got(p); (q, if r.Some? then out + {r.value} else out)
    case Reserve(a) => (ReserveIn(p, a).0, out)
    case Free(a) => var (q, err) := FreeIn(p, a); (q, if err.None? then out - {a} else out)
  }

  function After(p: Pool, out: set<nat>, run: seq<Op>): (r: (Pool, set<nat>))
    requires WellFormed(p)
    ensures WellFormed(r.0)
    decreases |run|
  {
    if run == [] then (p, out) else var (q, next) := Step(p, out, run[0]); After(q, next, run[1..])
  }

  /** Callers give back only what they hold. */
  ghost predicate FreesHeld(p: Pool, out: set<nat>, run: seq<Op>)
    requires WellFormed(p)
    decreases |run|
  {
    run == [] ||
    ((run[0].Free? ==> run[0].a in out) && var (q, next) := Step(p, out, run[0]); FreesHeld(q, next, run[1..]))
  }

  /** And they do not reserve an address that lies in the freed list. */
  ghost predicate SparesFreed(p: Pool, out: set<nat>, run: seq<Op>)
    requires WellFormed(p)
    decreases |run|
  {
    run == [] ||
    ((run[0].Reserve? ==> run[0].a !in p.freed) &&
     var (q, next) := Step(p, out, run[0]); SparesFreed(q, next, run[1..]))
  }

  lemma StepKeepsSafe(p: Pool, out: set<nat>, op: Op)
    requires Safe(p, out) && (op.Free? ==> op.a in out)
    ensures var (q, next) := Step(p, out, op); Safe(q, next) && q.start == p.start && q.end == p.end
    ensures Ledger(p, out) && (op.Reserve? ==> op.a !in p.freed) ==> Ledger(Step(p, out, op).0, Step(p, out, op).1)
  {
    match op
    case Get => GetIsSafe(p, out);
    case Reserve(a) => ReserveIsSafe(p, out, a);
    case Free(a) => FreeKeepsLedgerIff(p, out, a);
  }

  lemma {:induction false} RunKeepsSafe(p: Pool, out: set<nat>, run: seq<Op>)
    requires Safe(p, out) && FreesHeld(p, out, run)
    ensures var (q, held) := After(p, out, run); Safe(q, held) && q.start == p.start && q.end == p.end
    ensures Ledger(p, out) && SparesFreed(p, out, run) ==> Ledger(After(p, out, run).0, After(p, out, run).1)
    decreases |run|
  {
    if run != [] {
      StepKeepsSafe(p, out, run[0]);
      var (q, next) := Step(p, out, run[0]);
      RunKeepsSafe(q, next, run[1..]);
    }
  }

  /** The pool of a subnet. */
  function SubnetPool(network: nat, prefix: nat): (p: Pool)
    requires IsNetwork(network, prefix) && NewRange(network, prefix).Some?
    ensures WellFormed(p) && p.next == p.start
  {
    RangeShape(network, Pow2(32 - prefix));
    var (start, end) := NewRange(network, prefix).value;
    Pool(start, end, start, [], [])
  }

  /**
   In every run whose callers give back only what they hold, reservations of any kind included, an address
   handed out is neither issued nor reserved nor one of the subnet's two special ones, and no freed address
   is listed twice.
   */
  lemma AllocationIsSafe(network: nat, prefix: nat, run: seq<Op>)
    requires IsNetwork(network, prefix) && prefix <= 30 && NewRange(network, prefix).Some?
    requires FreesHeld(SubnetPool(network, prefix), {}, run)
    ensures var (q, held) := After(SubnetPool(network, prefix), {}, run);
            && Safe(q, held) && NoDuplicates(q.freed)
            && (Got(q).1.Some? ==>
                  var a := Got(q).1.value;
                  a !in held && a !in q.reserved && network < a < network + Pow2(32 - prefix) - 1)
  {
    RangeOfSubnet(network, prefix);
    RunKeepsSafe(SubnetPool(network, prefix), {}, run);
    var (q, held) := After(SubnetPool(network, prefix), {}, run);
    GetIsSafe(q, held);
  }

  /** If no freed address is reserved either, the pool is exhausted exactly when the whole subnet is in use. */
  lemma SubnetAllocation(network: nat, prefix: nat, run: seq<Op>)
    requires IsNetwork(network, prefix) && prefix <= 30 && NewRange(network, prefix).Some?
    requires var p := SubnetPool(network, prefix); FreesHeld(p, {}, run) && SparesFreed(p, {}, run)
    ensures var (q, held) := After(SubnetPool(network, prefix), {}, run);
            && Ledger(q, held)
            && (Got(q).1.None? <==> |held| + |q.reserved| == Pow2(32 - prefix) - 2)
  {
    RangeOfSubnet(network, prefix);
    RunKeepsSafe(SubnetPool(network, prefix), {}, run);
    var (q, held) := After(SubnetPool(network, prefix), {}, run);
    GetFailsIff(q, held);
  }

  // ----- freeing what was not issued -----

  /** In no run that gives back only held addresses is an address handed out that is still held. */
  ghost predicate NeverTwice(p: Pool, out: set<nat>)
    requires WellFormed(p)
  {
    forall run | FreesHeld(p, out, run) ::
      var (q, held) := After(p, out, run); Got(q).1.Some? ==> Got(q).1.value !in held
  }

  lemma SafeIsNeverTwice(p: Pool, out: set<nat>)
    requires Safe(p, out)
    ensures NeverTwice(p, out)
  {
    forall run | FreesHeld(p, out, run)
      ensures var (q, held) := After(p, out, run); Got(q).1.Some? ==> Got(q).1.value !in held
    {
      RunKeepsSafe(p, out, run);
      GetIsSafe(After(p, out, run).0, After(p, out, run).1);
    }
  }

  lemma {:induction false} PoppedShrinks(freed: seq<nat>, reserved: seq<nat>)
    ensures var (rest, top) := Popped(freed, reserved); if top.Some? then |rest| < |freed| else rest == []
  {
    if freed != [] {
      PoppedShrinks(freed[..|freed| - 1], reserved);
    }
  }

  /** What one request does while the pointer has not passed an unreserved address. */
  lemma GetBefore(p: Pool, a: nat)
    requires WellFormed(p) && !Wraps(p) && p.next <= a <= p.end && a !in p.reserved
    ensures var (q, r) := Got(p);
            && r.Some? && q.reserved == p.reserved && q.end == p.end && p.next <= q.next
            && (r.value != a ==> q.next <= a && |q.freed| - q.next < |p.freed| - p.next)
  {
    PoppedShrinks(p.freed, p.reserved);
    FreshIs(p.next, p.end, p.reserved);
  }

  /** A held address the pointer has not passed is handed out again, unless another held one comes first. */
  lemma {:induction false} IssuedAgain(p: Pool, out: set<nat>, a: nat) returns (run: seq<Op>)
    requires WellFormed(p) && !Wraps(p) && p.next <= a <= p.end && a !in p.reserved && a in out
    ensures FreesHeld(p, out, run)
    ensures var (q, held) := After(p, out, run); Got(q).1.Some? && Got(q).1.value in held
    decreases |p.freed| + p.end + 1 - p.next
  {
    GetBefore(p, a);
    var (q, r) := Got(p);
    run := [];
    if r.value !in out {
      var rest := IssuedAgain(q, out + {r.value}, a);
      run := [Get] + rest;
      assert run[1..] == rest;
    }
  }

  /**
   After a successful call no address is ever handed out twice if and only if the freed one lay below the
   pointer; where no address has been lost to a reservation, if and only if it was issued.
   */
  lemma FreeIsHarmlessIff(p: Pool, out: set<nat>, a: nat)
    requires Safe(p, out) && FreeIn(p, a).1.None?
    ensures NeverTwice(FreeIn(p, a).0, out - {a}) <==> a < p.next
    ensures Ledger(p, out) ==> (NeverTwice(FreeIn(p, a).0, out - {a}) <==> a in out)
  {
    var q := FreeIn(p, a).0;
    FreeKeepsLedgerIff(p, out, a);
    if a < p.next {
      SafeIsNeverTwice(q, out - {a});
    } else {
      assert out - {a} == out;
      assert q.freed[..|p.freed|] == p.freed && q.freed[|p.freed|] == a;
      assert Step(q, out, Get) == (p, out + {a});
      var rest := IssuedAgain(p, out + {a}, a);
      assert ([Get] + rest)[1..] == rest;
      assert FreesHeld(q, out, [Get] + rest);
      assert After(q, out, [Get] + rest) == After(p, out + {a}, rest);
    }
  }

  /** For instance, an address freed before anything was issued. */
  lemma FreeingUnissuedIssuesTwice()
    ensures var p := Pool(1, 2, 1, [], []);
            var q := FreeIn(p, 1).0;
            FreeIn(p, 1).1.None? && Got(q).1 == Some(1) && Got(Got(q).0).1 == Some(1)
  {
    var p := Pool(1, 2, 1, [], []);
    var q := FreeIn(p, 1).0;
    assert q.freed == [1];
    assert Got(q).0 == p;
  }

  // ----- the one pool that wraps -----

  function Gets(n: nat): seq<Op> { if n == 0 then [] else [Get] + Gets(n - 1) }

  lemma GetAdvances(p: Pool, out: set<nat>)
    requires WellFormed(p) && Wraps(p) && p.freed == [] && p.reserved == []
    ensures Step(p, out, Get) == (p.(next := (p.next + 1) % U32), out + {p.next})
  {}

  lemma {:induction false} GetsAdvance(p: Pool, out: set<nat>, n: nat)
    requires WellFormed(p) && Wraps(p) && p.freed == [] && p.reserved == [] && p.next + n < U32
    ensures FreesHeld(p, out, Gets(n))
    ensures var (q, held) := After(p, out, Gets(n));
            q == p.(next := p.next + n) && held == out + Range(p.next, p.next + n)
    decreases n
  {
    hide Range, Step;
    if n > 0 {
      GetAdvances(p, out);
      assert Gets(n)[1..] == Gets(n - 1);
      GetsAdvance(p.(next := p.next + 1), out + {p.next}, n - 1);
      assert {p.next} + Range(p.next + 1, p.next + n) == Range(p.next, p.next + n);
    }
  }

  /** Of all subnets that are accepted, only the pool of 0.0.0.0/32 can hand out an address that is still issued. */
  lemma NeverIssuedTwiceIff(network: nat, prefix: nat)
    requires IsNetwork(network, prefix) && NewRange(network, prefix).Some?
    ensures NeverTwice(SubnetPool(network, prefix), {}) <==> !(network == 0 && prefix == 32)
  {
    hide Range;
    var p := SubnetPool(network, prefix);
    RangeExistsIff(network, prefix);
    if network == 0 && prefix == 32 {
      assert p == Pool(1, U32 - 1, 1, [], []);
      WrapReissues();
    } else {
      assert !Wraps(p) by {
        if prefix <= 30 {
          RangeOfSubnet(network, prefix);
        }
      }
      SafeIsNeverTwice(p, {});
    }
  }

  /** After 2^32 requests it starts again at its first address; the one before was 0.0.0.0. */
  lemma WrapReissues()
    ensures var p := Pool(1, U32 - 1, 1, [], []);
            var (q, held) := After(p, {}, Gets(U32 - 2) + [Get] + [Get]);
            && FreesHeld(p, {}, Gets(U32 - 2) + [Get] + [Get])
            && q == p && 0 in held && Got(q).1 == Some(1) && 1 in held
  {
    var p := Pool(1, U32 - 1, 1, [], []);
    GetsAdvance(p, {}, U32 - 2);
    var (q, held) := After(p, {}, Gets(U32 - 2));
    GetAdvances(q, held);
    OneMore(p, {}, Gets(U32 - 2), Get);
    GetAdvances(q.(next := 0), held + {U32 - 1});
    OneMore(p, {}, Gets(U32 - 2) + [Get], Get);
  }

  lemma {:induction false} OneMore(p: Pool, out: set<nat>, run: seq<Op>, op: Op)
    requires WellFormed(p)
    ensures var (q, held) := After(p, out, run);
            && After(p, out, run + [op]) == Step(q, held, op)
            && (FreesHeld(p, out, run) && (op.Free? ==> op.a in held) ==> FreesHeld(p, out, run + [op]))
    decreases |run|
  {
    if run == [] {
      assert run + [op] == [op] && [op][1..] == [];
    } else {
      var (q, next) := Step(p, out, run[0]);
      OneMore(q, next, run[1..], op);
      assert (run + [op])[1..] == run[1..] + [op];
    }
  }

  // ----- the single calls -----

  /** The address freed last is the next one handed out, and the pool is then as before. */
  lemma FreeThenGet(p: Pool, a: nat)
    requires WellFormed(p) && FreeIn(p, a).1.None?
    ensures Got(FreeIn(p, a).0) == (p, Some(a))
  {
    assert (p.freed + [a])[..|p.freed|] == p.freed;
  }

  /** With nothing freed, the lowest address that was neither issued nor reserved is handed out. */
  lemma LowestComesFirst(p: Pool, out: set<nat>)
    requires Ledger(p, out) && p.freed == [] && Got(p).1.Some?
    ensures forall b | p.start <= b < Got(p).1.value :: b in out || b in p.reserved
  {
    FreshIs(p.next, p.end, p.reserved);
  }

  /** Which addresses can be reserved, and why the others cannot. */
  lemma ReserveSucceedsIff(p: Pool, out: set<nat>, a: nat)
    requires Ledger(p, out)
    ensures var err := ReserveIn(p, a).1;
            && (err == Some(OutOfRange) <==> !(p.start <= a <= p.end))
            && (err == Some(AlreadyReserved) <==> a in p.reserved)
            && (err == Some(AlreadyAllocated) <==> a in out || a in p.freed)
            && (err == None <==> p.next <= a <= p.end && a !in p.reserved)
            && ReserveIn(p, a).0.reserved == if err == None then p.reserved + [a] else p.reserved
  {
    WithoutFirstIs(p.freed, a);
  }

  /** Which addresses can be freed, and why the others cannot. */
  lemma FreeSucceedsIff(p: Pool, out: set<nat>, a: nat)
    requires Ledger(p, out)
    ensures var err := FreeIn(p, a).1;
            && (err == Some(OutOfRange) <==> !(p.start <= a <= p.end))
            && (err == Some(Reserved) <==> a in p.reserved)
            && (err == Some(AlreadyFree) <==> a in p.freed)
            && (err == None <==> a in out || (p.next <= a <= p.end && a !in p.reserved))
  {}
}
