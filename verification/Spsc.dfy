/** One direction of the console page as a protocol between two parties that share nothing but
    the slots and two wrapping 32-bit indices. Each party snapshots the indices, copies any
    number of chunks, and publishes its own index; the two interleave freely, so a snapshot of
    the remote index may be arbitrarily stale. `sent` and `received` record the history. */
module Spsc {
  import opened Word32
  import opened SharedRing

  /** `todo` is still to be stored and `done` already is; `consAt` records how much had been
      received when `cons` was read. */
  datatype Producer =
    | PIdle
    | PBusy(prod: u32, cons: u32, todo: seq<byte>, done: seq<byte>, consAt: nat)

  datatype Consumer =
    | CIdle
    | CBusy(cons: u32, prod: u32, want: nat, got: seq<byte>, prodAt: nat)

  datatype Ring = Ring(slots: seq<byte>, prod: u32, cons: u32, producer: Producer, consumer: Consumer,
                       sent: seq<byte>, received: seq<byte>)
  {
    function Size(): nat { |slots| }

    /** Everything stored so far, published or not. */
    function Stored(): seq<byte> {
      if producer.PBusy? then sent + producer.done else sent
    }

    /** Everything copied out so far, published or not. */
    function Taken(): seq<byte> {
      if consumer.CBusy? then received + consumer.got else received
    }
  }

  // ----- Steps; the guards read only what the party can see -----

  datatype Step =
    | ProducerBegin(todo: seq<byte>)
    | ProducerCopy(m: nat)
    | ProducerPublish
    | ConsumerBegin(want: nat)
    | ConsumerCopy(m: nat)
    | ConsumerPublish

  predicate Enabled(r: Ring, step: Step) {
    match step
    case ProducerBegin(_) => r.producer.PIdle?
    case ProducerCopy(m) =>
      r.producer.PBusy? && 0 < m <= |r.producer.todo| && m <= Room(r.producer.prod, r.producer.cons, r.Size())
    case ProducerPublish => r.producer.PBusy?
    case ConsumerBegin(_) => r.consumer.CIdle?
    case ConsumerCopy(m) =>
      r.consumer.CBusy? && 0 < m <= r.consumer.want && m <= Sub(r.consumer.prod, r.consumer.cons)
    case ConsumerPublish => r.consumer.CBusy?
  }

  function Apply(r: Ring, step: Step): Ring
    requires r.slots != [] && Enabled(r, step)
  {
    match step
    case ProducerBegin(todo) =>
      r.(producer := PBusy(r.prod, r.cons, todo, [], |r.received|))
    case ProducerCopy(m) =>
      var p := r.producer;
      r.(slots := Poke(r.slots, p.prod, p.todo[..m]),
         producer := p.(prod := Add(p.prod, m), todo := p.todo[m..], done := p.done + p.todo[..m]))
    case ProducerPublish =>
      r.(prod := r.producer.prod, sent := r.sent + r.producer.done, producer := PIdle)
    case ConsumerBegin(want) =>
      r.(consumer := CBusy(r.cons, r.prod, want, [], |r.sent|))
    case ConsumerCopy(m) =>
      var c := r.consumer;
      r.(consumer := c.(cons := Add(c.cons, m), want := c.want - m, got := c.got + Peek(r.slots, c.cons, m)))
    case ConsumerPublish =>
      r.(cons := r.consumer.cons, received := r.received + r.consumer.got, consumer := CIdle)
  }

  predicate Init(r: Ring) {
    r.slots != [] && RingSize(r.Size()) && r.Size() < MODULUS && r.prod == r.cons == 0
    && r.producer.PIdle? && r.consumer.CIdle? && r.sent == r.received == []
  }

  // ----- The invariant -----

  /** Byte `k` of the stream sits in its slot. */
  predicate Holds(slots: seq<byte>, stream: seq<byte>, k: nat)
    requires slots != [] && k < |stream|
  {
    slots[k % |slots|] == stream[k]
  }

  ghost predicate Inv(r: Ring) {
    && r.slots != [] && RingSize(r.Size()) && r.Size() < MODULUS
    && r.prod == Wrap(|r.sent|) && r.cons == Wrap(|r.received|)
    && r.Taken() <= r.sent
    && |r.Stored()| - |r.received| <= r.Size()
    && (forall k | |r.received| <= k < |r.Stored()| :: Holds(r.slots, r.Stored(), k))
    && (r.producer.PBusy? ==>
          && r.producer.prod == Wrap(|r.Stored()|) && r.producer.cons == Wrap(r.producer.consAt)
          && r.producer.consAt <= |r.received|
          && |r.Stored()| - r.producer.consAt <= r.Size())
    && (r.consumer.CBusy? ==>
          && r.consumer.cons == Wrap(|r.Taken()|) && r.consumer.prod == Wrap(r.consumer.prodAt)
          && |r.Taken()| <= r.consumer.prodAt <= |r.sent|)
  }

  lemma DistinctSlots(a: int, k: int, size: nat)
    requires size > 0 && 0 < a - k < size
    ensures a % size != k % size
  {
    if a % size == k % size {
      var d := a / size - k / size;
      assert a == (a / size) * size + a % size && k == (k / size) * size + k % size;
      assert (a / size) * size - (k / size) * size == d * size;
      MultipleInsideRange(d, size);
    }
  }

  /** Where the bytes of a store of at most one ring's worth end up. */
  lemma {:induction false} PokeAt(ring: seq<byte>, a: nat, data: seq<byte>, k: nat)
    requires ring != [] && RingSize(|ring|) && |data| <= |ring|
    requires a + |data| - |ring| <= k < a + |data|
    ensures Poke(ring, Wrap(a), data)[k % |ring|] == if k >= a then data[k - a] else ring[k % |ring|]
    decreases |data|
  {
    if data != [] {
      SlotOfWrapped(a, |ring|);
      AddOfWrapped(a, 1);
      PokeAt(ring[a % |ring| := data[0]], a + 1, data[1..], k);
      if k < a {
        DistinctSlots(a, k, |ring|);
      }
    }
  }

  lemma {:induction false} PeekAt(ring: seq<byte>, a: nat, n: nat, i: nat)
    requires ring != [] && RingSize(|ring|) && i < n
    ensures Peek(ring, Wrap(a), n)[i] == ring[(a + i) % |ring|]
    decreases n
  {
    SlotOfWrapped(a, |ring|);
    AddOfWrapped(a, 1);
    if i > 0 {
      PeekAt(ring, a + 1, n - 1, i - 1);
    }
  }

  lemma ProducerCopyKeepsInv(r: Ring, m: nat)
    requires Inv(r) && Enabled(r, ProducerCopy(m))
    ensures Inv(Apply(r, ProducerCopy(m)))
  {
    var p, size := r.producer, r.Size();
    var r' := Apply(r, ProducerCopy(m));
    var a := |r.Stored()|;
    RoomIsExact(p.prod, p.cons, a, p.consAt, size);
    assert r'.Stored() == r.Stored() + p.todo[..m];
    AddOfWrapped(a, m);
    forall k | |r'.received| <= k < |r'.Stored()|
      ensures Holds(r'.slots, r'.Stored(), k)
    {
      assert k < a ==> Holds(r.slots, r.Stored(), k);
      PokeAt(r.slots, a, p.todo[..m], k);
    }
  }

  lemma RoomIsExact(prod: u32, cons: u32, prodAt: nat, consAt: nat, size: nat)
    requires prod == Wrap(prodAt) && cons == Wrap(consAt)
    requires 0 <= prodAt - consAt <= size < MODULUS
    ensures Room(prod, cons, size) == size - (prodAt - consAt)
  {
    RoomIsDistance(prod, cons, size);
    AddOfWrapped(consAt, size);
    SubExact(Add(cons, size), prod, consAt + size, prodAt);
  }

  /** What a consumer's chunk contains: the next sent bytes, whatever is going on elsewhere. */
  lemma ChunkIsSent(r: Ring, m: nat)
    requires Inv(r) && r.consumer.CBusy? && m <= r.consumer.prodAt - |r.Taken()|
    ensures var b := |r.Taken()|; Peek(r.slots, r.consumer.cons, m) == r.sent[b..b + m]
  {
    var b := |r.Taken()|;
    forall i | 0 <= i < m
      ensures Peek(r.slots, r.consumer.cons, m)[i] == r.sent[b + i]
    {
      ByteIsSent(r, m, i);
    }
    SameBytes(Peek(r.slots, r.consumer.cons, m), r.sent, b);
  }

  lemma SameBytes(bytes: seq<byte>, stream: seq<byte>, b: nat)
    requires b + |bytes| <= |stream| && forall i | 0 <= i < |bytes| :: bytes[i] == stream[b + i]
    ensures bytes == stream[b..b + |bytes|]
  {
  }

  lemma ByteIsSent(r: Ring, m: nat, i: nat)
    requires Inv(r) && r.consumer.CBusy? && i < m <= r.consumer.prodAt - |r.Taken()|
    ensures Peek(r.slots, r.consumer.cons, m)[i] == r.sent[|r.Taken()| + i]
  {
    var b := |r.Taken()|;
    PeekAt(r.slots, b, m, i);
    assert Holds(r.slots, r.Stored(), b + i);
  }

  lemma ConsumerCopyKeepsInv(r: Ring, m: nat)
    requires Inv(r) && Enabled(r, ConsumerCopy(m))
    ensures Inv(Apply(r, ConsumerCopy(m)))
  {
    var c, b := r.consumer, |r.Taken()|;
    assert c.prodAt - b <= r.Size();
    SubOfWrapped(c.prodAt, b);
    AddOfWrapped(b, m);
    ChunkIsSent(r, m);
    var r' := Apply(r, ConsumerCopy(m));
    assert r'.Taken() == r.Taken() + r.sent[b..b + m] == r.sent[..b + m];
    assert r'.Stored() == r.Stored();
  }

  /** Every step of either party keeps the invariant. */
  lemma StepKeepsInv(r: Ring, step: Step)
    requires Inv(r) && Enabled(r, step)
    ensures Inv(Apply(r, step))
  {
    match step
    case ProducerCopy(m) => ProducerCopyKeepsInv(r, m);
    case ConsumerCopy(m) => ConsumerCopyKeepsInv(r, m);
    case ProducerBegin(todo) => assert Apply(r, step).Stored() == r.Stored();
    case ProducerPublish => assert Apply(r, step).Stored() == r.Stored();
    case ConsumerBegin(want) => assert Apply(r, step).Taken() == r.Taken();
    case ConsumerPublish => assert Apply(r, step).Taken() == r.Taken();
  }

  // ----- Refinement of an unbounded FIFO byte stream -----

  /** The simple form: what was put in and has not yet been taken out. */
  datatype Stream = Stream(sent: seq<byte>, received: seq<byte>)

  function Abs(r: Ring): Stream {
    Stream(r.sent, r.received)
  }

  /** A put appends; a get removes the next bytes in order. */
  ghost predicate StreamNext(s: Stream, s': Stream) {
    || s' == s
    || (s.sent <= s'.sent && s'.received == s.received)
    || (s'.sent == s.sent && s.received <= s'.received <= s.sent)
  }

  /** Every step of the wrapping ring is a step of the unbounded stream. */
  lemma StepRefinesStream(r: Ring, step: Step)
    requires Inv(r) && Enabled(r, step)
    ensures StreamNext(Abs(r), Abs(Apply(r, step)))
  {
    if step.ConsumerPublish? {
      assert Apply(r, step).received == r.Taken();
    }
  }

  ghost predicate Run(states: seq<Ring>, steps: seq<Step>) {
    && |states| == |steps| + 1 && Init(states[0])
    && (forall i | 0 <= i < |steps| ::
          states[i].slots != [] && Enabled(states[i], steps[i]) && states[i + 1] == Apply(states[i], steps[i]))
  }

  /** What the invariant says about the streams: received bytes are the first part of the sent
      ones, so are the bytes a consumer has copied but not yet published, at most one ring's
      worth is in flight, and no byte in flight has been overwritten. */
  ghost predicate Fifo(r: Ring) {
    && r.slots != []
    && r.received <= r.sent && r.Taken() <= r.sent
    && |r.sent| - |r.received| <= r.Size()
    && (forall k | |r.received| <= k < |r.sent| :: Holds(r.slots, r.sent, k))
  }

  lemma InvMeansFifo(r: Ring)
    requires Inv(r)
    ensures Fifo(r)
  {
    assert r.received <= r.Taken();
    forall k | |r.received| <= k < |r.sent|
      ensures Holds(r.slots, r.sent, k)
    {
      assert Holds(r.slots, r.Stored(), k);
    }
  }

  /** FIFO delivery in every state of every interleaving. */
  lemma {:induction false} RunIsFifo(states: seq<Ring>, steps: seq<Step>, i: nat)
    requires Run(states, steps) && i < |states|
    ensures Inv(states[i]) && Fifo(states[i]) && states[i].Size() == states[0].Size()
    decreases i
  {
    if i > 0 {
      RunIsFifo(states, steps, i - 1);
      StepKeepsInv(states[i - 1], steps[i - 1]);
    }
    InvMeansFifo(states[i]);
  }

  // ----- The driver's copy loops are runs of the protocol -----

  /** The chunk RingCopyToWrite stores next. */
  function WriteChunk(r: Ring): nat
    requires r.slots != [] && r.producer.PBusy?
  {
    var p := r.producer;
    Chunk(|p.todo|, Room(p.prod, p.cons, r.Size()), p.prod % r.Size(), r.Size())
  }

  /** The chunk RingCopyFromRead fetches next. */
  function ReadChunk(r: Ring): nat
    requires r.slots != [] && r.consumer.CBusy?
  {
    var c := r.consumer;
    Chunk(c.want, Sub(c.prod, c.cons), c.cons % r.Size(), r.Size())
  }

  /** RingCopyFromRead from the middle of its loop to the end, with nothing in between. */
  function RunConsumer(r: Ring): Ring
    requires r.slots != [] && r.consumer.CBusy?
    decreases r.consumer.want
  {
    if ReadChunk(r) == 0 then Apply(r, ConsumerPublish)
    else RunConsumer(Apply(r, ConsumerCopy(ReadChunk(r))))
  }

  function RunProducer(r: Ring): Ring
    requires r.slots != [] && r.producer.PBusy?
    decreases |r.producer.todo|
  {
    if WriteChunk(r) == 0 then Apply(r, ProducerPublish)
    else RunProducer(Apply(r, ProducerCopy(WriteChunk(r))))
  }

  /** Undisturbed, the read loop's protocol run has the effect SharedPage.CopyFromRead
      promises, for indices of any kind. */
  lemma {:induction false} RunConsumerIsCopyFromRead(r: Ring)
    requires r.slots != [] && r.consumer.CBusy?
    ensures var c := r.consumer; var n := Min(c.want, Sub(c.prod, c.cons));
            RunConsumer(r) == r.(cons := Add(c.cons, n), consumer := CIdle,
                                 received := r.received + (c.got + Peek(r.slots, c.cons, n)))
    decreases r.consumer.want
  {
    var c, m := r.consumer, ReadChunk(r);
    var n := Min(c.want, Sub(c.prod, c.cons));
    if m == 0 {
      assert c.got + Peek(r.slots, c.cons, 0) == c.got;
      assert Add(c.cons, 0) == c.cons;
    } else {
      Advance(c.prod, c.cons, m);
      RunConsumerIsCopyFromRead(Apply(r, ConsumerCopy(m)));
      TwoFetches(r.slots, c.cons, c.got, m, n);
    }
  }

  lemma TwoFetches(slots: seq<byte>, cons: u32, got: seq<byte>, m: nat, n: nat)
    requires slots != [] && m <= n
    ensures got + Peek(slots, cons, m) + Peek(slots, Add(cons, m), n - m) == got + Peek(slots, cons, n)
    ensures Add(Add(cons, m), n - m) == Add(cons, n)
  {
    PeekSplit(slots, cons, m, n - m);
    AddTwice(cons, m, n - m);
  }

  lemma TwoStores(slots: seq<byte>, prod: u32, done: seq<byte>, todo: seq<byte>, m: nat, n: nat)
    requires slots != [] && m <= n <= |todo|
    ensures Poke(Poke(slots, prod, todo[..m]), Add(prod, m), todo[m..][..n - m]) == Poke(slots, prod, todo[..n])
    ensures Add(Add(prod, m), n - m) == Add(prod, n)
    ensures done + todo[..m] + todo[m..][..n - m] == done + todo[..n]
  {
    assert todo[..n] == todo[..m] + todo[m..][..n - m];
    PokeSplit(slots, prod, todo[..m], todo[m..][..n - m]);
    AddTwice(prod, m, n - m);
  }

  /** The same for SharedPage.CopyToWrite. */
  lemma {:induction false} RunProducerIsCopyToWrite(r: Ring)
    requires r.slots != [] && r.producer.PBusy?
    ensures var p := r.producer; var n := Min(|p.todo|, Room(p.prod, p.cons, r.Size()));
            RunProducer(r) == r.(prod := Add(p.prod, n), producer := PIdle,
                                 slots := Poke(r.slots, p.prod, p.todo[..n]),
                                 sent := r.sent + (p.done + p.todo[..n]))
    decreases |r.producer.todo|
  {
    var p, m := r.producer, WriteChunk(r);
    var n := Min(|p.todo|, Room(p.prod, p.cons, r.Size()));
    if m == 0 {
      assert p.done + p.todo[..0] == p.done;
      assert Add(p.prod, 0) == p.prod;
    } else {
      AdvanceRoom(p.prod, p.cons, r.Size(), m);
      RunProducerIsCopyToWrite(Apply(r, ProducerCopy(m)));
      TwoStores(r.slots, p.prod, p.done, p.todo, m, n);
    }
  }
}
