/** The event channels of the router: bounded, and never waited for. */
module Events {

  const CHANNEL: nat := 200

  /** A send that does not wait: dropped when the channel is full. */
  function Offered<M>(queue: seq<M>, m: M): seq<M> { if |queue| < CHANNEL then queue + [m] else queue }

  /** Offers an event to every subscriber's channel. */
  method OfferAll<M>(channels: map<nat, seq<M>>, m: M) returns (after: map<nat, seq<M>>)
    ensures after.Keys == channels.Keys
    ensures forall ch | ch in channels :: after[ch] == Offered(channels[ch], m)
  {
    after := channels;
    var todo := channels.Keys;
    while todo != {}
      invariant todo <= after.Keys == channels.Keys
      invariant forall ch | ch in channels ::
                  after[ch] == if ch in todo then channels[ch] else Offered(channels[ch], m)
      decreases todo
    {
      var ch :| ch in todo;
      todo := todo - {ch};
      if |after[ch]| < CHANNEL {
        after := after[ch := after[ch] + [m]];
      }
    }
  }

  /** Events offered one after another. */
  function OfferedAll<M>(queue: seq<M>, ms: seq<M>): seq<M> {
    if ms == [] then queue else Offered(OfferedAll(queue, ms[..|ms| - 1]), ms[|ms| - 1])
  }

  /** A channel nobody reads keeps the first two hundred events, in order, and misses the rest. */
  lemma {:induction false} ChannelKeepsFirst<M>(ms: seq<M>)
    ensures OfferedAll([], ms) == if |ms| <= 200 then ms else ms[..200]
    decreases |ms|
  {
    if ms != [] {
      var init, last := ms[..|ms| - 1], ms[|ms| - 1];
      ChannelKeepsFirst(init);
      assert ms == init + [last];
    }
  }
}
