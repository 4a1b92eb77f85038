/**
 The traffic budget of a client: the limit minus what was used, computed in
 unsigned arithmetic and reinterpreted as signed, then counted down by every
 packet in either direction.
 */
module Quota {
  import opened Common

  const I63: int := 0x8000_0000_0000_0000
  const U64: int := 0x1_0000_0000_0000_0000

  /** Two's complement: the signed reading of any integer reduced to 64 bits. */
  function Signed(n: int): (r: int)
    ensures -I63 <= r < I63
    ensures -I63 <= n < I63 ==> r == n
  {
    var m := n % U64;
    if m < I63 then m else m - U64
  }

  function Budget(limit: u64, used: u64): int { Signed((limit - used) % U64) }

  /** The wrapped subtraction is the true difference, negative or not, exactly when that fits 64 signed bits. */
  lemma BudgetIsExactIff(limit: u64, used: u64)
    ensures Budget(limit, used) == limit - used <==> -I63 <= limit - used < I63
  {}

  function Sum(sizes: seq<nat>): nat {
    if sizes == [] then 0 else Sum(sizes[..|sizes| - 1]) + sizes[|sizes| - 1]
  }

  /** The counter after these packets. */
  function Remains(budget: int, sizes: seq<nat>): int {
    if sizes == [] then budget else Signed(Remains(budget, sizes[..|sizes| - 1]) - sizes[|sizes| - 1])
  }

  /** Whether packet `k` gets past the check. */
  predicate Passes(budget: int, sizes: seq<nat>, k: nat)
    requires k < |sizes|
  {
    Remains(budget, sizes[..k + 1]) >= 0
  }

  function PassedBytes(budget: int, sizes: seq<nat>): nat {
    if sizes == [] then 0
    else PassedBytes(budget, sizes[..|sizes| - 1]) + if Remains(budget, sizes) >= 0 then sizes[|sizes| - 1] else 0
  }

  class ShapedRoute {
    const trafficLimited: bool
    const speedLimited: bool
    var totalLimit: int

    constructor (trafficLimit: Option<u64>, speedLimited: bool)
      ensures trafficLimited == trafficLimit.Some?
      ensures totalLimit == if trafficLimit.Some? then Signed(trafficLimit.value) else 0
      ensures this.speedLimited == speedLimited
    {
      this.trafficLimited := trafficLimit.Some?;
      this.speedLimited := speedLimited;
      totalLimit := if trafficLimit.Some? then Signed(trafficLimit.value) else 0;
    }

    /** Traffic to the client: past the check the packet is sent or queued, short of it silently dropped. */
    method PushLimited(size: nat) returns (within: bool)
      modifies this
      ensures totalLimit == if trafficLimited then Signed(old(totalLimit) - size) else old(totalLimit)
      ensures within <==> !trafficLimited || totalLimit >= 0
    {
      if trafficLimited {
        totalLimit := Signed(totalLimit - size);
        if totalLimit < 0 {
          return false;
        }
      }
      return true;
    }

    /** Traffic from the client; `tokens` is the rate limiter's answer. */
    method IsAllowed(size: nat, tokens: bool) returns (allowed: bool)
      modifies this
      ensures totalLimit == if trafficLimited then Signed(old(totalLimit) - size) else old(totalLimit)
      ensures allowed <==> (!trafficLimited || totalLimit >= 0) && (!speedLimited || tokens)
    {
      if trafficLimited {
        totalLimit := Signed(totalLimit - size);
        if totalLimit < 0 {
          return false;
        }
      }
      if speedLimited {
        return tokens;
      }
      return true;
    }
  }

  lemma {:induction false} SumGrows(sizes: seq<nat>, k: nat)
    requires k <= |sizes|
    ensures Sum(sizes[..k]) <= Sum(sizes)
  {
    if k < |sizes| {
      SumGrows(sizes[..|sizes| - 1], k);
      assert sizes[..|sizes| - 1][..k] == sizes[..k];
    } else {
      assert sizes[..k] == sizes;
    }
  }

  lemma {:induction false} RemainsIs(budget: int, sizes: seq<nat>)
    requires -I63 <= budget - Sum(sizes) && budget < I63
    ensures Remains(budget, sizes) == budget - Sum(sizes)
  {
    if sizes != [] {
      RemainsIs(budget, sizes[..|sizes| - 1]);
    }
  }

  /** Short of 2^63 bytes beyond the budget, a packet passes exactly when it and everything before it fit. */
  lemma PassesIffFits(budget: int, sizes: seq<nat>, k: nat)
    requires k < |sizes| && -I63 <= budget - Sum(sizes) && budget < I63
    ensures Passes(budget, sizes, k) <==> Sum(sizes[..k + 1]) <= budget
  {
    SumGrows(sizes, k + 1);
    RemainsIs(budget, sizes[..k + 1]);
  }

  /** So after the first refusal everything is refused. */
  lemma RefusalIsFinal(budget: int, sizes: seq<nat>, j: nat, k: nat)
    requires j <= k < |sizes| && -I63 <= budget - Sum(sizes) && budget < I63
    requires !Passes(budget, sizes, j)
    ensures !Passes(budget, sizes, k)
  {
    PassesIffFits(budget, sizes, j);
    PassesIffFits(budget, sizes, k);
    SumGrows(sizes[..k + 1], j + 1);
    assert sizes[..k + 1][..j + 1] == sizes[..j + 1];
  }

  /** And what passes never exceeds the budget. */
  lemma {:induction false} PassedBytesFitBudget(budget: int, sizes: seq<nat>)
    requires -I63 <= budget - Sum(sizes) && budget < I63
    ensures PassedBytes(budget, sizes) <= Max(0, budget)
    ensures Sum(sizes) <= budget ==> PassedBytes(budget, sizes) == Sum(sizes)
  {
    if sizes != [] {
      PassedBytesFitBudget(budget, sizes[..|sizes| - 1]);
      RemainsIs(budget, sizes);
    }
  }

  /** From limit and usage to bytes: a client never passes more than what is left of its limit. */
  lemma ClientStaysWithinLimit(limit: u64, used: u64, sizes: seq<nat>)
    requires -I63 <= limit - used - Sum(sizes) && limit - used < I63
    ensures PassedBytes(Budget(limit, used), sizes) <= Max(0, limit - used)
  {
    BudgetIsExactIff(limit, used);
    PassedBytesFitBudget(Budget(limit, used), sizes);
  }

  // ----- and no further -----

  /** No packet is longer than 2^63 bytes, the most one subtraction can take off the counter. */
  ghost predicate Representable(sizes: seq<nat>) { forall i | 0 <= i < |sizes| :: sizes[i] <= I63 }

  /** The packet that takes the counter below its least value finds it negative, and passes. */
  lemma {:induction false} FirstUnderflow(budget: int, sizes: seq<nat>) returns (k: nat)
    requires -I63 <= budget < I63 && Representable(sizes) && budget - Sum(sizes) < -I63
    ensures k < |sizes| && Remains(budget, sizes[..k]) < 0
    ensures Passes(budget, sizes, k) && Sum(sizes[..k + 1]) > budget
    decreases |sizes|
  {
    var init := sizes[..|sizes| - 1];
    if budget - Sum(init) < -I63 {
      k := FirstUnderflow(budget, init);
      assert init[..k] == sizes[..k] && init[..k + 1] == sizes[..k + 1];
    } else {
      k := |init|;
      RemainsIs(budget, init);
      assert sizes[..k] == init && sizes[..k + 1] == sizes;
    }
  }

  /** Only packets that fit the budget pass, if and only if the counter never underflows. */
  lemma OnlyFittingPassIff(budget: int, sizes: seq<nat>)
    requires -I63 <= budget < I63 && Representable(sizes)
    ensures (forall k | 0 <= k < |sizes| && Passes(budget, sizes, k) :: Sum(sizes[..k + 1]) <= budget)
            <==> -I63 <= budget - Sum(sizes)
  {
    if -I63 <= budget - Sum(sizes) {
      forall k | 0 <= k < |sizes| && Passes(budget, sizes, k) ensures Sum(sizes[..k + 1]) <= budget {
        PassesIffFits(budget, sizes, k);
      }
    } else {
      var k := FirstUnderflow(budget, sizes);
    }
  }

  /** A counter that is negative, at first or after a refusal, refuses for good, under the same condition. */
  lemma NegativeIsFinalIff(budget: int, sizes: seq<nat>)
    requires -I63 <= budget < I63 && Representable(sizes)
    ensures (forall j, k | 0 <= j <= k < |sizes| && Remains(budget, sizes[..j]) < 0 :: !Passes(budget, sizes, k))
            <==> -I63 <= budget - Sum(sizes)
  {
    if -I63 <= budget - Sum(sizes) {
      forall j, k | 0 <= j <= k < |sizes| && Remains(budget, sizes[..j]) < 0 ensures !Passes(budget, sizes, k) {
        SumGrows(sizes, j);
        RemainsIs(budget, sizes[..j]);
        PassesIffFits(budget, sizes, k);
        SumGrows(sizes[..k + 1], j);
        assert sizes[..k + 1][..j] == sizes[..j];
      }
    } else {
      var k := FirstUnderflow(budget, sizes);
      assert Remains(budget, sizes[..k]) < 0 && Passes(budget, sizes, k);
    }
  }

  /** For instance, a client far over its limit passes again. */
  lemma UnderflowReopens()
    ensures !(Remains(-I63, []) >= 0) && Passes(-I63, [1], 0)
  {
    assert [1][..1] == [1] && [1][..0] == [];
  }

  /**
   A client's route in use: its packets in either direction, one after another. Each passes the traffic check
   exactly when it and all before it fit the budget.
   */
  method Drive(limit: u64, used: u64, sizes: seq<nat>, outbound: seq<bool>) returns (passed: seq<bool>)
    requires |outbound| == |sizes| && -I63 <= limit - used - Sum(sizes) && limit - used < I63
    ensures |passed| == |sizes|
    ensures forall k | 0 <= k < |sizes| :: passed[k] <==> Sum(sizes[..k + 1]) <= limit - used
  {
    BudgetIsExactIff(limit, used);
    var route := new ShapedRoute(Some((limit - used) % U64), false);
    passed := [];
    assert sizes[..0] == [];
    for k := 0 to |sizes|
      invariant route.trafficLimited && !route.speedLimited && |passed| == k
      invariant route.totalLimit == limit - used - Sum(sizes[..k])
      invariant forall j | 0 <= j < k :: passed[j] <==> Sum(sizes[..j + 1]) <= limit - used
    {
      SumGrows(sizes, k + 1);
      assert sizes[..k + 1][..k] == sizes[..k];
      var within;
      if outbound[k] {
        within := route.IsAllowed(sizes[k], false);
      } else {
        within := route.PushLimited(sizes[k]);
      }
      passed := passed + [within];
    }
  }
}
