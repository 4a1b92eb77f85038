/**
 The batching writer of the host interface: datagrams are copied into fixed
 slots of one flat buffer, written together, and freed.
 */
module Batch {
  import opened Common

  const OFFSET: nat := 10
  const MAX_DATA: nat := 0xffff
  const SLOT: nat := 65545   // MAX_DATA + OFFSET

  /** A pooled datagram; the pool never makes one larger than MAX_DATA. */
  datatype Message = Message(id: nat, data: seq<byte>)

  predicate Acceptable(m: Message, mtu: nat) { 0 < |m.data| <= mtu }

  /** What the loop sees on its channel: a message, or nothing for the moment. */
  type Input = seq<Option<Message>>

  function Received(input: Input): seq<Message> {
    if input == [] then []
    else
      var last := input[|input| - 1];
      Received(input[..|input| - 1]) + if last.Some? then [last.value] else []
  }

  function Accepted(ms: seq<Message>, mtu: nat): seq<Message> {
    if ms == [] then []
    else
      var last := ms[|ms| - 1];
      Accepted(ms[..|ms| - 1], mtu) + if Acceptable(last, mtu) then [last] else []
  }

  function Payloads(ms: seq<Message>): seq<seq<byte>> { seq(|ms|, i requires 0 <= i < |ms| => ms[i].data) }

  function Flat(batches: seq<seq<seq<byte>>>): seq<seq<byte>> {
    if batches == [] then [] else Flat(batches[..|batches| - 1]) + batches[|batches| - 1]
  }

  function Ids(ms: seq<Message>): seq<nat> { seq(|ms|, i requires 0 <= i < |ms| => ms[i].id) }

  /** Messages are always at hand. */
  ghost predicate NeverIdle(input: Input) { forall k | 0 <= k < |input| :: input[k].Some? }

  ghost predicate AllFull(batches: seq<seq<seq<byte>>>, size: nat) {
    forall i | 0 <= i < |batches| :: |batches[i]| == size
  }

  ghost predicate AllButLastFull(batches: seq<seq<seq<byte>>>, size: nat) {
    forall i | 0 <= i < |batches| - 1 :: |batches[i]| == size
  }

  /** One more batch, full unless the messages have run out. */
  lemma FullBatches(input: Input, k: nat, before: seq<seq<seq<byte>>>, after: seq<seq<seq<byte>>>, size: nat)
    requires |after| == |before| + 1 && after[..|before|] == before && k <= |input|
    requires |after[|before|]| == size || k == |input| || input[k].None?
    ensures AllFull([], size) && AllButLastFull([], size)
    ensures NeverIdle(input) && AllFull(before, size) ==>
              AllButLastFull(after, size) && (k < |input| ==> AllFull(after, size))
  {
    assert forall i | 0 <= i < |before| :: after[i] == before[i];
  }

  /** Accepted are the messages of one byte to the interface's limit, in order. */
  lemma {:induction false} AcceptedExactly(ms: seq<Message>, mtu: nat)
    ensures forall m :: m in Accepted(ms, mtu) <==> m in ms && 1 <= |m.data| <= mtu
    ensures (forall m | m in ms :: 1 <= |m.data| <= mtu) ==> Accepted(ms, mtu) == ms
    decreases |ms|
  {
    if ms != [] {
      AcceptedExactly(ms[..|ms| - 1], mtu);
      assert ms == ms[..|ms| - 1] + [ms[|ms| - 1]];
    }
  }

  lemma ReceivedAppend(input: Input, k: nat)
    requires k < |input|
    ensures Received(input[..k + 1]) == Received(input[..k]) + if input[k].Some? then [input[k].value] else []
  {
    assert input[..k + 1][..k] == input[..k];
  }

  lemma AcceptedAppend(ms: seq<Message>, m: Message, mtu: nat)
    ensures Accepted(ms + [m], mtu) == Accepted(ms, mtu) + if Acceptable(m, mtu) then [m] else []
  {
    assert (ms + [m])[..|ms|] == ms;
  }

  /** Written and waiting payloads are the accepted ones, in order; freed and waiting messages are the received ones. */
  ghost predicate Books(batches: seq<seq<seq<byte>>>, msgs: seq<Message>, freed: seq<nat>, seen: seq<Message>,
                        mtu: nat)
  {
    && Flat(batches) + Payloads(msgs) == Payloads(Accepted(seen, mtu))
    && multiset(freed) + multiset(Ids(msgs)) == multiset(Ids(seen))
  }

  lemma BooksGrow(batches: seq<seq<seq<byte>>>, msgs: seq<Message>, freed: seq<nat>, seen: seq<Message>,
                  m: Message, mtu: nat)
    requires Books(batches, msgs, freed, seen, mtu)
    ensures if Acceptable(m, mtu) then Books(batches, msgs + [m], freed, seen + [m], mtu)
            else Books(batches, msgs, freed + [m.id], seen + [m], mtu)
  {
    PayloadBooksGrow(batches, msgs, seen, m, mtu);
    IdBooksGrow(msgs, freed, seen, m, mtu);
  }

  lemma PayloadBooksGrow(batches: seq<seq<seq<byte>>>, msgs: seq<Message>, seen: seq<Message>, m: Message, mtu: nat)
    requires Flat(batches) + Payloads(msgs) == Payloads(Accepted(seen, mtu))
    ensures Flat(batches) + Payloads(if Acceptable(m, mtu) then msgs + [m] else msgs)
            == Payloads(Accepted(seen + [m], mtu))
  {
    AcceptedAppend(seen, m, mtu);
    if Acceptable(m, mtu) {
      PayloadsGrow(msgs, m);
      PayloadsGrow(Accepted(seen, mtu), m);
      hide Payloads, Flat, Accepted;
      Associates(Flat(batches), Payloads(msgs), [m.data]);
    } else {
      assert Accepted(seen, mtu) + [] == Accepted(seen, mtu);
    }
  }

  lemma Associates(a: seq<seq<byte>>, b: seq<seq<byte>>, c: seq<seq<byte>>)
    ensures (a + b) + c == a + (b + c)
  {}

  lemma IdBooksGrow(msgs: seq<Message>, freed: seq<nat>, seen: seq<Message>, m: Message, mtu: nat)
    requires multiset(freed) + multiset(Ids(msgs)) == multiset(Ids(seen))
    ensures if Acceptable(m, mtu) then multiset(freed) + multiset(Ids(msgs + [m])) == multiset(Ids(seen + [m]))
            else multiset(freed + [m.id]) + multiset(Ids(msgs)) == multiset(Ids(seen + [m]))
  {
    IdsGrow(seen, m);
    IdsGrow(msgs, m);
    hide Ids;
    assert multiset(freed + [m.id]) == multiset(freed) + multiset{m.id};
  }

  lemma IdsGrow(ms: seq<Message>, m: Message)
    ensures Ids(ms + [m]) == Ids(ms) + [m.id]
    ensures multiset(Ids(ms + [m])) == multiset(Ids(ms)) + multiset{m.id}
  {
    assert Ids(ms + [m]) == Ids(ms) + [m.id];
  }

  lemma PayloadsGrow(ms: seq<Message>, m: Message)
    ensures Payloads(ms + [m]) == Payloads(ms) + [m.data]
  {}

  lemma BooksClose(batches: seq<seq<seq<byte>>>, msgs: seq<Message>, freed: seq<nat>, seen: seq<Message>, mtu: nat)
    requires Books(batches, msgs, freed, seen, mtu)
    ensures Books(batches + [Payloads(msgs)], [], freed + Ids(msgs), seen, mtu)
  {
    var batch := Payloads(msgs);
    assert (batches + [batch])[..|batches|] == batches;
    assert Payloads([]) == [] && Ids([]) == [];
    assert Flat(batches + [batch]) + [] == Flat(batches) + batch;
  }

  class Writer {
    const batchSize: nat
    const mtu: nat
    const flat: array<byte>
    var msgs: seq<Message>
    var batches: seq<seq<seq<byte>>>   // everything given to the interface, as it was in the buffer
    var freed: seq<nat>
    ghost var seen: seq<Message>

    /** The waiting messages lie byte for byte in their slots, no batch is too large, and the books balance. */
    ghost predicate Valid()
      reads this, flat
    {
      && 0 < batchSize && flat.Length == batchSize * SLOT && |msgs| <= batchSize
      && (forall i | 0 <= i < |msgs| :: InSlot(i, msgs[i].data))
      && (forall b | b in batches :: 0 < |b| <= batchSize)
      && Books(batches, msgs, freed, seen, mtu)
    }

    ghost predicate InSlot(i: nat, data: seq<byte>)
      requires 0 < batchSize && flat.Length == batchSize * SLOT && i < batchSize
      reads flat
    {
      |data| <= MAX_DATA && forall j | 0 <= j < |data| :: flat[i * SLOT + OFFSET + j] == data[j]
    }

    constructor (batchSize: nat, mtu: nat)
      requires 0 < batchSize
      ensures Valid() && fresh(flat) && this.batchSize == batchSize && this.mtu == mtu
      ensures seen == [] && msgs == [] && batches == [] && freed == []
    {
      this.batchSize := batchSize;
      this.mtu := mtu;
      flat := new byte[batchSize * SLOT](_ => 0);
      msgs, batches, freed, seen := [], [], [], [];
    }

    /** Copies a payload into the next slot; every other byte is left alone. */
    method CopyToSlot(data: seq<byte>)
      requires Valid() && |msgs| < batchSize && |data| <= MAX_DATA
      modifies flat
      ensures Valid() && InSlot(|msgs|, data)
      ensures var base := |msgs| * SLOT + OFFSET;
              forall k | 0 <= k < flat.Length && !(base <= k < base + |data|) :: flat[k] == old(flat[k])
    {
      var base := |msgs| * SLOT + OFFSET;
      for j := 0 to |data|
        invariant forall k | 0 <= k < j :: flat[base + k] == data[k]
        invariant forall k | 0 <= k < flat.Length && !(base <= k < base + j) :: flat[k] == old(flat[k])
      {
        flat[base + j] := data[j];
      }
      forall i | 0 <= i < |msgs| ensures InSlot(i, msgs[i].data) {
        assert old(InSlot(i, msgs[i].data));
        assert (i + 1) * SLOT <= |msgs| * SLOT;
      }
    }

    /** One message off the channel: unacceptable ones are freed at once. */
    method Take(m: Message)
      requires Valid() && |msgs| < batchSize && |m.data| <= MAX_DATA
      modifies this`msgs, this`freed, this`seen, flat
      ensures Valid() && seen == old(seen) + [m]
      ensures |msgs| == |old(msgs)| + if Acceptable(m, mtu) then 1 else 0
    {
      BooksGrow(batches, msgs, freed, seen, m, mtu);
      if |m.data| == 0 || |m.data| > mtu {
        freed := freed + [m.id];
        seen := seen + [m];
        return;
      }
      CopyToSlot(m.data);
      msgs := msgs + [m];
      seen := seen + [m];
    }

    /** The waiting payloads, read back from the buffer. */
    method Project() returns (batch: seq<seq<byte>>)
      requires Valid()
      ensures batch == Payloads(msgs)
    {
      hide Books;
      batch := [];
      for i := 0 to |msgs|
        invariant |batch| == i && forall k | 0 <= k < i :: batch[k] == msgs[k].data
      {
        var start := i * SLOT;
        var end := start + OFFSET + |msgs[i].data|;
        assert InSlot(i, msgs[i].data);
        assert (i + 1) * SLOT <= flat.Length;
        assert flat[start + OFFSET..end] == msgs[i].data;
        batch := batch + [flat[start + OFFSET..end]];
      }
    }

    /** Writes what is waiting as one batch and frees it. */
    method Send()
      requires Valid() && msgs != []
      modifies this`msgs, this`batches, this`freed
      ensures Valid() && msgs == []
      ensures |batches| == |old(batches)| + 1 && batches[..|old(batches)|] == old(batches)
      ensures |batches[|old(batches)|]| == |old(msgs)|
    {
      var batch := Project();
      BooksClose(batches, msgs, freed, seen, mtu);
      batches := batches + [batch];
      freed := freed + Ids(msgs);
      msgs := [];
    }

    /** Adds messages to the batch while it has room and more are at hand. */
    method Fill(input: Input, from: nat) returns (k: nat)
      requires Valid() && msgs != [] && from <= |input| && seen == Received(input[..from])
      requires forall k | 0 <= k < |input| && input[k].Some? :: |input[k].value.data| <= MAX_DATA
      modifies this`msgs, this`freed, this`seen, flat
      ensures from <= k <= |input| && Valid() && msgs != [] && seen == Received(input[..k])
      ensures |msgs| == batchSize || k == |input| || input[k].None?
    {
      hide Books;
      k := from;
      while |msgs| < batchSize && k < |input| && input[k].Some?
        invariant from <= k <= |input| && Valid() && msgs != [] && seen == Received(input[..k])
        decreases |input| - k
      {
        ReceivedAppend(input, k);
        Take(input[k].value);
        k := k + 1;
      }
    }

    /** The loop: wait for a message, fill the batch while more are at hand, write it. */
    method WriteLoop(input: Input)
      requires Valid() && msgs == [] && seen == []
      requires forall k | 0 <= k < |input| && input[k].Some? :: |input[k].value.data| <= MAX_DATA
      modifies this, flat
      requires batches == []
      ensures Valid() && msgs == [] && seen == Received(input)
      ensures NeverIdle(input) ==> AllButLastFull(batches, batchSize)
    {
      hide Books, NeverIdle, AllFull, AllButLastFull;
      FullBatches(input, |input|, [], [[]], batchSize);
      var k := 0;
      assert Received(input[..0]) == [];
      while k < |input|
        invariant k <= |input| && Valid() && msgs == [] && seen == Received(input[..k])
        invariant NeverIdle(input) ==> AllButLastFull(batches, batchSize)
        invariant NeverIdle(input) && k < |input| ==> AllFull(batches, batchSize)
        decreases |input| - k
      {
        ReceivedAppend(input, k);
        if input[k].None? {
          k := k + 1;
          continue;
        }
        Take(input[k].value);
        k := k + 1;
        if msgs == [] {
          continue;
        }
        k := Fill(input, k);
        ghost var before := batches;
        Send();
        FullBatches(input, k, before, batches, batchSize);
      }
      assert input[..|input|] == input;
    }
  }

  /** Every payload written is an accepted one, whole and in order, and every message is freed once. */
  method WriteAll(batchSize: nat, mtu: nat, input: Input) returns (batches: seq<seq<seq<byte>>>, freed: seq<nat>)
    requires 0 < batchSize
    requires forall k | 0 <= k < |input| && input[k].Some? :: |input[k].value.data| <= MAX_DATA
    ensures Flat(batches) == Payloads(Accepted(Received(input), mtu))
    ensures forall b | b in batches :: 0 < |b| <= batchSize
    ensures multiset(freed) == multiset(Ids(Received(input)))
    ensures NeverIdle(input) ==> AllButLastFull(batches, batchSize)
  {
    var w := new Writer(batchSize, mtu);
    w.WriteLoop(input);
    batches, freed := w.batches, w.freed;
    assert Payloads(w.msgs) == [] && Ids(w.msgs) == [];
  }
}
