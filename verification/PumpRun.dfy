/** The console as a whole, every actor interleaved: requests are posted and cancelled at any
    time, one poller (RingPoll) runs in small steps, and a backend that follows the ring
    protocol works both rings at its own pace. */
module PumpRun {
  import opened Word32
  import opened SharedRing
  import opened Requests
  import opened Sequences
  import P = Spsc

  /** A request queue with its history: everything posted, the request the poller holds, the
      successful replies, the ids cancelled, and the driver's byte counter. */
  datatype Queue = Queue(posted: seq<Irp>, pending: seq<Irp>, held: seq<Irp>, done: seq<Reply>,
                         cancelled: set<nat>, total: u32)

  /** Where RingPoll is: at the head of a loop, with a request taken, copying, or back from the
      copy routine with its result. */
  datatype Pc =
    | Idle
    | ReadLoop | ReadTaken | ReadCopy | ReadEnd(got: seq<byte>)
    | WriteLoop | WriteTaken | WriteCopy | WriteEnd(put: seq<byte>)

  datatype System = System(input: P.Ring, output: P.Ring, fetch: Queue, store: Queue, pc: Pc)

  datatype Event =
    | Poll
    | PostRead(irp: Irp) | PostWrite(irp: Irp)
    | CancelRead(id: nat) | CancelWrite(id: nat)
    | BackendPut(step: P.Step) | BackendGet(step: P.Step)

  // ----- Queue operations -----

  function Post(q: Queue, irp: Irp): Queue {
    q.(posted := q.posted + [irp], pending := q.pending + [irp])
  }

  function Cancel(q: Queue, id: nat): Queue {
    q.(pending := Without(q.pending, id), cancelled := q.cancelled + {id})
  }

  function Take(q: Queue): Queue
    requires q.pending != []
  {
    q.(held := [q.pending[0]], pending := q.pending[1..])
  }

  /** RingCsqInsertIrpEx with the re-insert context. */
  function Reinsert(q: Queue): Queue {
    q.(held := [], pending := q.held + q.pending)
  }

  function Complete(q: Queue, bytes: seq<byte>): Queue
    requires q.held != []
  {
    q.(held := [], done := q.done + [Reply(q.held[0], Success, bytes)], total := Add(q.total, |bytes|))
  }

  // ----- Steps -----

  predicate Ready(s: System) {
    && s.input.slots != [] && s.output.slots != []
    && (s.pc.ReadTaken? ==> s.fetch.held != [] && s.input.consumer.CIdle?)
    && (s.pc.ReadCopy? ==> s.input.consumer.CBusy?)
    && (s.pc.ReadEnd? ==> s.fetch.held != [])
    && (s.pc.WriteTaken? ==> s.store.held != [] && s.output.producer.PIdle?)
    && (s.pc.WriteCopy? ==> s.output.producer.PBusy?)
    && (s.pc.WriteEnd? ==> s.store.held != [])
  }

  /** The poller's next step. */
  function PollStep(s: System): System
    requires Ready(s)
  {
    match s.pc
    case Idle => s.(pc := ReadLoop)
    case ReadLoop =>
      if s.fetch.pending == [] then s.(pc := WriteLoop)
      else s.(fetch := Take(s.fetch), pc := ReadTaken)
    case ReadTaken =>
      s.(input := P.Apply(s.input, P.ConsumerBegin(s.fetch.held[0].length)), pc := ReadCopy)
    case ReadCopy =>
      var m := P.ReadChunk(s.input);
      if m == 0 then
        s.(input := P.Apply(s.input, P.ConsumerPublish), pc := ReadEnd(s.input.consumer.got))
      else s.(input := P.Apply(s.input, P.ConsumerCopy(m)))
    case ReadEnd(got) =>
      if got == [] then s.(fetch := Reinsert(s.fetch), pc := WriteLoop)
      else s.(fetch := Complete(s.fetch, got), pc := ReadLoop)
    case WriteLoop =>
      if s.store.pending == [] then s.(pc := Idle)
      else s.(store := Take(s.store), pc := WriteTaken)
    case WriteTaken =>
      s.(output := P.Apply(s.output, P.ProducerBegin(s.store.held[0].data)), pc := WriteCopy)
    case WriteCopy =>
      var m := P.WriteChunk(s.output);
      if m == 0 then
        s.(output := P.Apply(s.output, P.ProducerPublish), pc := WriteEnd(s.output.producer.done))
      else s.(output := P.Apply(s.output, P.ProducerCopy(m)))
    case WriteEnd(put) =>
      if put == [] then s.(store := Reinsert(s.store), pc := Idle)
      else s.(store := Complete(s.store, put), pc := WriteLoop)
  }

  predicate Fresh(q: Queue, id: nat) {
    forall irp | irp in q.posted :: irp.id != id
  }

  predicate Waiting(q: Queue, id: nat) {
    exists irp | irp in q.pending :: irp.id == id
  }

  predicate Enabled(s: System, e: Event) {
    match e
    case Poll => Ready(s)
    case PostRead(irp) => Fresh(s.fetch, irp.id)
    case PostWrite(irp) => Fresh(s.store, irp.id) && |irp.data| == irp.length
    case CancelRead(id) => Waiting(s.fetch, id)
    case CancelWrite(id) => Waiting(s.store, id)
    case BackendPut(step) =>
      s.input.slots != [] && P.Enabled(s.input, step)
      && (step.ProducerBegin? || step.ProducerCopy? || step.ProducerPublish?)
    case BackendGet(step) =>
      s.output.slots != [] && P.Enabled(s.output, step)
      && (step.ConsumerBegin? || step.ConsumerCopy? || step.ConsumerPublish?)
  }

  function Apply(s: System, e: Event): System
    requires Enabled(s, e)
  {
    match e
    case Poll => PollStep(s)
    case PostRead(irp) => s.(fetch := Post(s.fetch, irp))
    case PostWrite(irp) => s.(store := Post(s.store, irp))
    case CancelRead(id) => s.(fetch := Cancel(s.fetch, id))
    case CancelWrite(id) => s.(store := Cancel(s.store, id))
    case BackendPut(step) => s.(input := P.Apply(s.input, step))
    case BackendGet(step) => s.(output := P.Apply(s.output, step))
  }

  const EMPTY := Queue([], [], [], [], {}, 0)

  predicate Init(s: System) {
    && P.Init(s.input) && P.Init(s.output)
    && s.input.Size() == IN_SIZE && s.output.Size() == OUT_SIZE
    && s.fetch == EMPTY && s.store == EMPTY && s.pc == Idle
  }

  // ----- Queue invariant -----

  /** Posting order is kept end to end: replies, then the held request, then the queue are
      exactly the live requests in the order they were posted. */
  ghost predicate QueueInv(q: Queue) {
    && |q.held| <= 1
    && Distinct(q.posted)
    && Owners(q.done) + q.held + q.pending == Live(q.posted, q.cancelled)
    && (forall id | id in q.cancelled :: !Fresh(q, id))
    && q.total == Wrap(|Moved(q.done)|)
    && (forall r | r in q.done :: r.status == Success && r.bytes != [])
  }

  lemma PostKeepsQueue(q: Queue, irp: Irp)
    requires QueueInv(q) && Fresh(q, irp.id)
    ensures QueueInv(Post(q, irp))
  {
    var q' := Post(q, irp);
    assert irp.id !in q.cancelled;
    LiveConcat(q.posted, [irp], q.cancelled);
    assert Live([irp], q.cancelled) == [irp];
    Assoc(Owners(q.done) + q.held, q.pending, [irp]);
    forall id | id in q'.cancelled
      ensures !Fresh(q', id)
    {
      var old_ :| old_ in q.posted && old_.id == id;
      assert old_ in q'.posted;
    }
  }

  /** Only the queue can hold the request being cancelled. */
  lemma OnlyPendingMatches(q: Queue, id: nat)
    requires QueueInv(q) && Waiting(q, id)
    ensures Without(Owners(q.done) + q.held, id) == Owners(q.done) + q.held
    ensures !Fresh(q, id)
  {
    LiveIsSelection(q.posted, q.cancelled);
    DistinctParts(Owners(q.done) + q.held, q.pending, id);
    WithoutAbsent(Owners(q.done) + q.held, id);
    var irp :| irp in q.pending && irp.id == id;
    assert irp in Owners(q.done) + q.held + q.pending;
  }

  lemma CancelKeepsQueue(q: Queue, id: nat)
    requires QueueInv(q) && Waiting(q, id)
    ensures QueueInv(Cancel(q, id))
  {
    OnlyPendingMatches(q, id);
    LiveAfterCancel(q.posted, q.cancelled, id);
    WithoutConcat(Owners(q.done) + q.held, q.pending, id);
  }

  lemma PollerKeepsQueue(q: Queue, bytes: seq<byte>)
    requires QueueInv(q)
    ensures q.pending != [] && q.held == [] ==> QueueInv(Take(q))
    ensures QueueInv(Reinsert(q))
    ensures q.held != [] && bytes != [] ==> QueueInv(Complete(q, bytes))
  {
    Assoc(Owners(q.done), q.held, q.pending);
    if q.pending != [] && q.held == [] {
      assert [q.pending[0]] + q.pending[1..] == q.pending;
      assert Owners(q.done) + [] + q.pending == Owners(q.done) + [q.pending[0]] + q.pending[1..];
    }
    assert Owners(q.done) + [] + (q.held + q.pending) == Owners(q.done) + q.held + q.pending;
    if q.held != [] && bytes != [] {
      var reply := Reply(q.held[0], Success, bytes);
      MovedAppend(q.done, reply);
      AddOfWrapped(|Moved(q.done)|, |bytes|);
      assert Owners(q.done) + q.held + [] + q.pending == Owners(q.done) + q.held + q.pending;
      assert q.held == [q.held[0]];
    }
  }

  // ----- System invariant -----

  /** The read half: ring, queue and the bytes in the poller's hands agree. */
  ghost predicate ReadSide(input: P.Ring, q: Queue, pc: Pc) {
    && P.Inv(input) && input.Size() == IN_SIZE && QueueInv(q)
    && (q.held != [] <==> pc.ReadTaken? || pc.ReadCopy? || pc.ReadEnd?)
    && (input.consumer.CBusy? <==> pc.ReadCopy?)
    && input.received == Moved(q.done) + (if pc.ReadEnd? then pc.got else [])
    && (forall r | r in q.done :: |r.bytes| <= r.irp.length)
    && (pc.ReadCopy? ==> input.consumer.want + |input.consumer.got| == q.held[0].length)
    && (pc.ReadEnd? ==> |pc.got| <= q.held[0].length)
  }

  ghost predicate WriteSide(output: P.Ring, q: Queue, pc: Pc) {
    && P.Inv(output) && output.Size() == OUT_SIZE && QueueInv(q)
    && (q.held != [] <==> pc.WriteTaken? || pc.WriteCopy? || pc.WriteEnd?)
    && (output.producer.PBusy? <==> pc.WriteCopy?)
    && output.sent == Moved(q.done) + (if pc.WriteEnd? then pc.put else [])
    && (forall r | r in q.done :: r.bytes <= r.irp.data)
    && (pc.WriteCopy? ==> output.producer.done + output.producer.todo == q.held[0].data)
    && (pc.WriteEnd? ==> pc.put <= q.held[0].data)
  }

  ghost predicate Inv(s: System) {
    ReadSide(s.input, s.fetch, s.pc) && WriteSide(s.output, s.store, s.pc)
  }

  lemma ReadBegins(input: P.Ring, q: Queue)
    requires ReadSide(input, q, ReadTaken)
    ensures ReadSide(P.Apply(input, P.ConsumerBegin(q.held[0].length)), q, ReadCopy)
  {
    P.StepKeepsInv(input, P.ConsumerBegin(q.held[0].length));
  }

  lemma ReadCopies(input: P.Ring, q: Queue)
    requires ReadSide(input, q, ReadCopy) && P.ReadChunk(input) != 0
    ensures ReadSide(P.Apply(input, P.ConsumerCopy(P.ReadChunk(input))), q, ReadCopy)
  {
    var m := P.ReadChunk(input);
    P.StepKeepsInv(input, P.ConsumerCopy(m));
  }

  lemma ReadPublishes(input: P.Ring, q: Queue)
    requires ReadSide(input, q, ReadCopy)
    ensures ReadSide(P.Apply(input, P.ConsumerPublish), q, ReadEnd(input.consumer.got))
  {
    P.StepKeepsInv(input, P.ConsumerPublish);
  }

  lemma ReadReturns(input: P.Ring, q: Queue, got: seq<byte>)
    requires ReadSide(input, q, ReadEnd(got))
    ensures got == [] ==> ReadSide(input, Reinsert(q), WriteLoop)
    ensures got != [] ==> ReadSide(input, Complete(q, got), ReadLoop)
  {
    PollerKeepsQueue(q, got);
    if got != [] {
      MovedAppend(q.done, Reply(q.held[0], Success, got));
      assert Moved(q.done) + got + [] == Moved(q.done) + got;
    }
  }

  /** The poller's step in the read half. */
  lemma ReadStepKeeps(s: System)
    requires ReadSide(s.input, s.fetch, s.pc) && Ready(s)
    requires s.pc.ReadLoop? || s.pc.ReadTaken? || s.pc.ReadCopy? || s.pc.ReadEnd?
    ensures var s' := PollStep(s); ReadSide(s'.input, s'.fetch, s'.pc)
  {
    match s.pc
    case ReadLoop => PollerKeepsQueue(s.fetch, []);
    case ReadTaken => ReadBegins(s.input, s.fetch);
    case ReadCopy => ReadCopyKeeps(s);
    case ReadEnd(got) => ReadReturns(s.input, s.fetch, got);
  }

  lemma ReadCopyKeeps(s: System)
    requires ReadSide(s.input, s.fetch, s.pc) && Ready(s) && s.pc.ReadCopy?
    ensures var s' := PollStep(s); ReadSide(s'.input, s'.fetch, s'.pc)
  {
    if P.ReadChunk(s.input) == 0 {
      ReadPublishes(s.input, s.fetch);
    } else {
      ReadCopies(s.input, s.fetch);
    }
  }

  predicate Reading(pc: Pc) {
    pc.ReadLoop? || pc.ReadTaken? || pc.ReadCopy? || pc.ReadEnd?
  }

  predicate Writing(pc: Pc) {
    pc.WriteLoop? || pc.WriteTaken? || pc.WriteCopy? || pc.WriteEnd?
  }

  /** What the other half does is nothing to this one. */
  lemma ReadSideAside(input: P.Ring, q: Queue, pc: Pc, pc': Pc)
    requires ReadSide(input, q, pc)
    requires !(pc.ReadTaken? || pc.ReadCopy? || pc.ReadEnd?) && !(pc'.ReadTaken? || pc'.ReadCopy? || pc'.ReadEnd?)
    ensures ReadSide(input, q, pc')
  {
  }

  /** Outside the read half the poller leaves it alone. */
  lemma PollAsideOfReads(s: System)
    requires Ready(s) && !Reading(s.pc)
    ensures var s' := PollStep(s);
            && s'.input == s.input && s'.fetch == s.fetch
            && !(s'.pc.ReadTaken? || s'.pc.ReadCopy? || s'.pc.ReadEnd?)
  {
  }

  lemma PollKeepsReadSide(s: System)
    requires Inv(s) && Ready(s)
    ensures var s' := PollStep(s); ReadSide(s'.input, s'.fetch, s'.pc)
  {
    if Reading(s.pc) {
      ReadStepKeeps(s);
    } else {
      PollAsideOfReads(s);
      ReadSideAside(s.input, s.fetch, s.pc, PollStep(s).pc);
    }
  }

  lemma WriteBegins(output: P.Ring, q: Queue)
    requires WriteSide(output, q, WriteTaken)
    ensures WriteSide(P.Apply(output, P.ProducerBegin(q.held[0].data)), q, WriteCopy)
  {
    P.StepKeepsInv(output, P.ProducerBegin(q.held[0].data));
    assert [] + q.held[0].data == q.held[0].data;
  }

  lemma WriteCopies(output: P.Ring, q: Queue)
    requires WriteSide(output, q, WriteCopy) && P.WriteChunk(output) != 0
    ensures WriteSide(P.Apply(output, P.ProducerCopy(P.WriteChunk(output))), q, WriteCopy)
  {
    var p, m := output.producer, P.WriteChunk(output);
    P.StepKeepsInv(output, P.ProducerCopy(m));
    ChunkMoves(p.done, p.todo, m);
  }

  lemma ChunkMoves(done: seq<byte>, todo: seq<byte>, m: nat)
    requires m <= |todo|
    ensures done + todo[..m] + todo[m..] == done + todo
  {
    assert todo[..m] + todo[m..] == todo;
    Assoc(done, todo[..m], todo[m..]);
  }

  lemma WritePublishes(output: P.Ring, q: Queue)
    requires WriteSide(output, q, WriteCopy)
    ensures WriteSide(P.Apply(output, P.ProducerPublish), q, WriteEnd(output.producer.done))
  {
    P.StepKeepsInv(output, P.ProducerPublish);
  }

  lemma WriteReturns(output: P.Ring, q: Queue, put: seq<byte>)
    requires WriteSide(output, q, WriteEnd(put))
    ensures put == [] ==> WriteSide(output, Reinsert(q), Idle)
    ensures put != [] ==> WriteSide(output, Complete(q, put), WriteLoop)
  {
    PollerKeepsQueue(q, put);
    if put != [] {
      MovedAppend(q.done, Reply(q.held[0], Success, put));
      assert Moved(q.done) + put + [] == Moved(q.done) + put;
    }
  }

  lemma WriteStepKeeps(s: System)
    requires WriteSide(s.output, s.store, s.pc) && Ready(s)
    requires s.pc.WriteLoop? || s.pc.WriteTaken? || s.pc.WriteCopy? || s.pc.WriteEnd?
    ensures var s' := PollStep(s); WriteSide(s'.output, s'.store, s'.pc)
  {
    match s.pc
    case WriteLoop => PollerKeepsQueue(s.store, []);
    case WriteTaken => WriteBegins(s.output, s.store);
    case WriteCopy => WriteCopyKeeps(s);
    case WriteEnd(put) => WriteReturns(s.output, s.store, put);
  }

  lemma WriteCopyKeeps(s: System)
    requires WriteSide(s.output, s.store, s.pc) && Ready(s) && s.pc.WriteCopy?
    ensures var s' := PollStep(s); WriteSide(s'.output, s'.store, s'.pc)
  {
    if P.WriteChunk(s.output) == 0 {
      WritePublishes(s.output, s.store);
    } else {
      WriteCopies(s.output, s.store);
    }
  }

  lemma WriteSideAside(output: P.Ring, q: Queue, pc: Pc, pc': Pc)
    requires WriteSide(output, q, pc)
    requires !(pc.WriteTaken? || pc.WriteCopy? || pc.WriteEnd?) && !(pc'.WriteTaken? || pc'.WriteCopy? || pc'.WriteEnd?)
    ensures WriteSide(output, q, pc')
  {
  }

  lemma PollAsideOfWrites(s: System)
    requires Ready(s) && !Writing(s.pc)
    ensures var s' := PollStep(s);
            && s'.output == s.output && s'.store == s.store
            && !(s'.pc.WriteTaken? || s'.pc.WriteCopy? || s'.pc.WriteEnd?)
  {
  }

  lemma PollKeepsWriteSide(s: System)
    requires Inv(s) && Ready(s)
    ensures var s' := PollStep(s); WriteSide(s'.output, s'.store, s'.pc)
  {
    if Writing(s.pc) {
      WriteStepKeeps(s);
    } else {
      PollAsideOfWrites(s);
      WriteSideAside(s.output, s.store, s.pc, PollStep(s).pc);
    }
  }

  lemma BackendPutKeepsReadSide(input: P.Ring, q: Queue, pc: Pc, step: P.Step)
    requires ReadSide(input, q, pc) && P.Enabled(input, step)
    requires step.ProducerBegin? || step.ProducerCopy? || step.ProducerPublish?
    ensures ReadSide(P.Apply(input, step), q, pc)
  {
    P.StepKeepsInv(input, step);
  }

  lemma BackendGetKeepsWriteSide(output: P.Ring, q: Queue, pc: Pc, step: P.Step)
    requires WriteSide(output, q, pc) && P.Enabled(output, step)
    requires step.ConsumerBegin? || step.ConsumerCopy? || step.ConsumerPublish?
    ensures WriteSide(P.Apply(output, step), q, pc)
  {
    P.StepKeepsInv(output, step);
  }

  /** Every event keeps the invariant. */
  lemma EventKeepsInv(s: System, e: Event)
    requires Inv(s) && Enabled(s, e)
    ensures Inv(Apply(s, e))
  {
    match e
    case Poll => PollKeepsReadSide(s); PollKeepsWriteSide(s);
    case PostRead(irp) => PostKeepsQueue(s.fetch, irp);
    case PostWrite(irp) => PostKeepsQueue(s.store, irp);
    case CancelRead(id) => CancelKeepsQueue(s.fetch, id);
    case CancelWrite(id) => CancelKeepsQueue(s.store, id);
    case BackendPut(step) => BackendPutKeepsReadSide(s.input, s.fetch, s.pc, step);
    case BackendGet(step) => BackendGetKeepsWriteSide(s.output, s.store, s.pc, step);
  }

  /** The poller is never in a state from which it has no step. */
  lemma PollerNeverStuck(s: System)
    requires Inv(s)
    ensures Ready(s)
  {
  }

  // ----- Whole runs -----

  ghost predicate Run(states: seq<System>, events: seq<Event>) {
    && |states| == |events| + 1 && Init(states[0])
    && (forall i | 0 <= i < |events| :: Enabled(states[i], events[i]) && states[i + 1] == Apply(states[i], events[i]))
  }

  /** What a user of the console sees in one direction: requests are answered in posting order,
      the answered bytes are `moved`, and the byte counter is their number modulo 2^32. */
  ghost predicate Served(q: Queue, moved: seq<byte>) {
    && Owners(q.done) <= Live(q.posted, q.cancelled)
    && Moved(q.done) <= moved
    && q.total == Wrap(|Moved(q.done)|)
  }

  /** End to end: the bytes of completed reads, in order, are the first bytes the backend
      produced, and the bytes the backend consumed are the first bytes of completed writes
      (plus the write being completed, if any). */
  ghost predicate Delivers(s: System) {
    && Served(s.fetch, s.input.sent) && Served(s.store, s.output.sent)
    && s.output.received <= Moved(s.store.done) + (if s.pc.WriteEnd? then s.pc.put else [])
  }

  lemma InvDelivers(s: System)
    requires Inv(s)
    ensures Delivers(s)
  {
    P.InvMeansFifo(s.input);
    P.InvMeansFifo(s.output);
    Prefixes(s.fetch);
    Prefixes(s.store);
  }

  /** In every state of every interleaving. */
  lemma {:induction false} RunDelivers(states: seq<System>, events: seq<Event>, i: nat)
    requires Run(states, events) && i < |states|
    ensures Inv(states[i]) && Delivers(states[i])
    decreases i
  {
    if i == 0 {
      InitMeansInv(states[0]);
    } else {
      RunDelivers(states, events, i - 1);
      RunStep(states, events, i - 1);
    }
    InvDelivers(states[i]);
  }

  lemma RunStep(states: seq<System>, events: seq<Event>, i: nat)
    requires Run(states, events) && i < |events| && Inv(states[i])
    ensures Inv(states[i + 1])
  {
    assert Enabled(states[i], events[i]);
    EventKeepsInv(states[i], events[i]);
  }

  lemma InitMeansInv(s: System)
    requires Init(s)
    ensures Inv(s)
  {
    EmptyQueueOk();
    assert P.Inv(s.input) && P.Inv(s.output);
  }

  lemma EmptyQueueOk()
    ensures QueueInv(EMPTY) && Moved(EMPTY.done) == []
  {
    assert Live([], {}) == [] && Owners([]) == [];
  }

  lemma Prefixes(q: Queue)
    requires QueueInv(q)
    ensures Owners(q.done) <= Live(q.posted, q.cancelled)
  {
  }

  /** Conservation: every posted request is exactly one of completed, held, queued or cancelled. */
  lemma EveryRequestOnce(q: Queue, irp: Irp)
    requires QueueInv(q) && irp in q.posted
    ensures multiset(Owners(q.done))[irp] + multiset(q.held)[irp] + multiset(q.pending)[irp]
            == if irp.id in q.cancelled then 0 else 1
  {
    var live := Live(q.posted, q.cancelled);
    LiveIsSelection(q.posted, q.cancelled);
    assert multiset(live) == multiset(Owners(q.done)) + multiset(q.held) + multiset(q.pending);
    if irp.id !in q.cancelled {
      OnceIfDistinct(live, irp);
    }
  }

  lemma {:induction false} OnceIfDistinct(irps: seq<Irp>, irp: Irp)
    requires Distinct(irps) && irp in irps
    ensures multiset(irps)[irp] == 1
  {
    assert irps == [irps[0]] + irps[1..];
    if irps[0] == irp {
      assert irp !in irps[1..];
    } else {
      OnceIfDistinct(irps[1..], irp);
    }
  }

  /** When the copy loop of a read ends, it has fetched as much as the request and the last
      snapshot allow; so the first loop of RingPoll is left through a re-insertion only when
      that snapshot was used up or the request has length zero. */
  lemma ReadStopsDry(s: System)
    requires Inv(s) && s.pc.ReadCopy? && P.ReadChunk(s.input) == 0
    ensures var c := s.input.consumer;
            |c.got| == Min(s.fetch.held[0].length, c.prodAt - |s.input.received|)
    ensures PollStep(s).pc.got == [] ==>
              s.fetch.held[0].length == 0 || s.input.consumer.prodAt == |s.input.received|
  {
    var c := s.input.consumer;
    SubOfWrapped(c.prodAt, |s.input.Taken()|);
  }

  /** The same for a write: it stores as much as the request and the last snapshot's room allow. */
  lemma WriteStopsFull(s: System)
    requires Inv(s) && s.pc.WriteCopy? && P.WriteChunk(s.output) == 0
    ensures var p := s.output.producer;
            |p.done| == Min(|s.store.held[0].data|, OUT_SIZE - (|s.output.sent| - p.consAt))
    ensures PollStep(s).pc.put == [] ==>
              s.store.held[0].data == [] || |s.output.sent| - s.output.producer.consAt == OUT_SIZE
  {
    var p := s.output.producer;
    P.RoomIsExact(p.prod, p.cons, |s.output.Stored()|, p.consAt, OUT_SIZE);
  }

  // ----- An undisturbed poll is the pass of the reference -----

  /** `k` poller steps with nothing in between. */
  function PollMany(s: System, k: nat): Option<System>
    decreases k
  {
    if k == 0 then Some(s) else if Ready(s) then PollMany(PollStep(s), k - 1) else None
  }

  lemma {:induction false} PollManySplit(s: System, j: nat, k: nat)
    requires PollMany(s, j).Some?
    ensures PollMany(s, j + k) == PollMany(PollMany(s, j).value, k)
    decreases j
  {
    if j > 0 {
      PollManySplit(PollStep(s), j - 1, k);
    }
  }

  /** The copy loop of one read, run to its end. */
  lemma {:induction false} CopyReadToEnd(s: System) returns (k: nat)
    requires Ready(s) && s.pc.ReadCopy?
    ensures var c := s.input.consumer; var n := Min(c.want, Sub(c.prod, c.cons));
            PollMany(s, k) == Some(s.(input := P.RunConsumer(s.input),
                                      pc := ReadEnd(c.got + Peek(s.input.slots, c.cons, n))))
    decreases s.input.consumer.want
  {
    var c, m := s.input.consumer, P.ReadChunk(s.input);
    var n := Min(c.want, Sub(c.prod, c.cons));
    if m == 0 {
      assert c.got + Peek(s.input.slots, c.cons, 0) == c.got;
      assert PollMany(s, 1) == PollMany(PollStep(s), 0);
      k := 1;
    } else {
      k := CopyReadToEnd(PollStep(s));
      Advance(c.prod, c.cons, m);
      P.TwoFetches(s.input.slots, c.cons, c.got, m, n);
      k := k + 1;
    }
  }

  /** The queue after a pass. */
  function Passed(q: Queue, pass: Pass): Queue {
    q.(pending := pass.rest, done := q.done + pass.done, total := Add(q.total, |Moved(pass.done)|))
  }

  /** The input ring after these bytes were fetched. */
  function Fetched(r: P.Ring, bytes: seq<byte>): P.Ring {
    r.(cons := Add(r.cons, |bytes|), received := r.received + bytes)
  }

  /** The read half after a pass. */
  function AfterReads(s: System): System
    requires s.input.slots != []
  {
    var pass := ServeReads(s.fetch.pending, Peek(s.input.slots, s.input.cons, Sub(s.input.prod, s.input.cons)));
    s.(input := Fetched(s.input, Moved(pass.done)), fetch := Passed(s.fetch, pass), pc := WriteLoop)
  }

  /** One turn of the first loop of RingPoll: take, copy, then complete or re-insert. */
  lemma ReadTurn(s: System) returns (k: nat)
    requires Ready(s) && s.pc.ReadLoop? && s.fetch.pending != [] && s.fetch.held == [] && s.input.consumer.CIdle?
    ensures var r, q := s.input, s.fetch;
            var n := Min(q.pending[0].length, Sub(r.prod, r.cons));
            var bytes := Peek(r.slots, r.cons, n);
            PollMany(s, k) == Some(s.(
              input := Fetched(r, bytes),
              fetch := if n == 0 then q else Complete(Take(q), bytes),
              pc := if n == 0 then WriteLoop else ReadLoop))
  {
    var q := s.fetch;
    var s1 := PollStep(s);
    var s2 := PollStep(s1);
    var c := s2.input.consumer;
    var n := Min(q.pending[0].length, Sub(c.prod, c.cons));
    var j := CopyReadToEnd(s2);
    P.RunConsumerIsCopyFromRead(s2.input);
    var bytes := Peek(s.input.slots, c.cons, n);
    assert [] + bytes == bytes;
    var s3 := PollMany(s2, j).value;
    assert PollMany(s, 2) == PollMany(s1, 1) == PollMany(s2, 0) == Some(s2);
    PollManySplit(s, 2, j);
    PollManySplit(s, 2 + j, 1);
    assert PollMany(s3, 1) == PollMany(PollStep(s3), 0);
    assert [q.pending[0]] + q.pending[1..] == q.pending;
    k := 2 + j + 1;
  }

  /** Without interference, the first loop of RingPoll taken step by step ends exactly where
      ConsoleRing.Ring.PollReads promises, from any state, consistent or not. */
  lemma {:induction false} UndisturbedReads(s: System) returns (k: nat)
    requires Ready(s) && s.pc.ReadLoop? && s.fetch.held == [] && s.input.consumer.CIdle?
    ensures PollMany(s, k) == Some(AfterReads(s))
    decreases |s.fetch.pending|
  {
    var r, q := s.input, s.fetch;
    assert Add(r.cons, 0) == r.cons && Add(q.total, 0) == q.total;
    if q.pending == [] {
      assert PollMany(s, 1) == PollMany(PollStep(s), 0);
      assert r.received + [] == r.received && q.done + [] == q.done;
      return 1;
    }
    var j := ReadTurn(s);
    var s' := PollMany(s, j).value;
    var n := Min(q.pending[0].length, Sub(r.prod, r.cons));
    if n == 0 {
      assert r.received + [] == r.received && q.done + [] == q.done;
      return j;
    }
    var i := UndisturbedReads(s');
    PollManySplit(s, j, i);
    ReadTurnIsPassStep(s, s', n);
    k := j + i;
  }

  lemma ReadTurnIsPassStep(s: System, s': System, n: nat)
    requires s.input.slots != [] && s.fetch.held == [] && s.fetch.pending != []
    requires n == Min(s.fetch.pending[0].length, Sub(s.input.prod, s.input.cons)) && n > 0
    requires var bytes := Peek(s.input.slots, s.input.cons, n);
             s' == s.(input := Fetched(s.input, bytes), fetch := Complete(Take(s.fetch), bytes), pc := ReadLoop)
    ensures AfterReads(s') == AfterReads(s)
  {
    var r, q := s.input, s.fetch;
    var stream := Peek(r.slots, r.cons, Sub(r.prod, r.cons));
    FetchStep(r.slots, r.cons, r.prod, n);
    ServeReadsStep(q.pending, stream);
    var pass, later := ServeReads(q.pending, stream), ServeReads(q.pending[1..], stream[n..]);
    assert s'.fetch.pending == q.pending[1..];
    FetchedTwice(r, stream[..n], Moved(later.done));
    PassedTwice(q, stream[..n], pass, later);
  }

  lemma FetchedTwice(r: P.Ring, a: seq<byte>, b: seq<byte>)
    ensures Fetched(Fetched(r, a), b) == Fetched(r, a + b)
  {
    AddTwice(r.cons, |a|, |b|);
    Assoc(r.received, a, b);
  }

  /** The copy loop of one write, run to its end. */
  lemma {:induction false} CopyWriteToEnd(s: System) returns (k: nat)
    requires Ready(s) && s.pc.WriteCopy?
    ensures var p := s.output.producer; var n := Min(|p.todo|, Room(p.prod, p.cons, s.output.Size()));
            PollMany(s, k) == Some(s.(output := P.RunProducer(s.output), pc := WriteEnd(p.done + p.todo[..n])))
    decreases |s.output.producer.todo|
  {
    var p, m := s.output.producer, P.WriteChunk(s.output);
    var n := Min(|p.todo|, Room(p.prod, p.cons, s.output.Size()));
    if m == 0 {
      assert p.done + p.todo[..0] == p.done;
      assert PollMany(s, 1) == PollMany(PollStep(s), 0);
      k := 1;
    } else {
      k := CopyWriteToEnd(PollStep(s));
      AdvanceRoom(p.prod, p.cons, s.output.Size(), m);
      P.TwoStores(s.output.slots, p.prod, p.done, p.todo, m, n);
      k := k + 1;
    }
  }

  /** The output ring after these bytes were stored and published. */
  function Wrote(r: P.Ring, bytes: seq<byte>): P.Ring
    requires r.slots != []
  {
    r.(prod := Add(r.prod, |bytes|), slots := Poke(r.slots, r.prod, bytes), sent := r.sent + bytes)
  }

  /** The write half after a pass. */
  function AfterWrites(s: System): System
    requires s.output.slots != []
  {
    var pass := ServeWrites(s.store.pending, Room(s.output.prod, s.output.cons, s.output.Size()));
    s.(output := Wrote(s.output, Moved(pass.done)), store := Passed(s.store, pass), pc := Idle)
  }

  /** One turn of the second loop of RingPoll. */
  lemma WriteTurn(s: System) returns (k: nat)
    requires Ready(s) && s.pc.WriteLoop? && s.store.pending != [] && s.store.held == [] && s.output.producer.PIdle?
    ensures var r, q := s.output, s.store;
            var bytes := q.pending[0].data[..Min(|q.pending[0].data|, Room(r.prod, r.cons, r.Size()))];
            PollMany(s, k) == Some(s.(
              output := Wrote(r, bytes),
              store := if bytes == [] then q else Complete(Take(q), bytes),
              pc := if bytes == [] then Idle else WriteLoop))
  {
    var q := s.store;
    var s1 := PollStep(s);
    var s2 := PollStep(s1);
    var p := s2.output.producer;
    var bytes := p.todo[..Min(|p.todo|, Room(p.prod, p.cons, s.output.Size()))];
    var j := CopyWriteToEnd(s2);
    P.RunProducerIsCopyToWrite(s2.output);
    assert [] + bytes == bytes;
    var s3 := PollMany(s2, j).value;
    assert PollMany(s, 2) == PollMany(s1, 1) == PollMany(s2, 0) == Some(s2);
    PollManySplit(s, 2, j);
    PollManySplit(s, 2 + j, 1);
    assert PollMany(s3, 1) == PollMany(PollStep(s3), 0);
    assert [q.pending[0]] + q.pending[1..] == q.pending;
    k := 2 + j + 1;
  }

  /** The second loop of RingPoll, likewise, is ConsoleRing.Ring.PollWrites. */
  lemma {:induction false} UndisturbedWrites(s: System) returns (k: nat)
    requires Ready(s) && s.pc.WriteLoop? && s.store.held == [] && s.output.producer.PIdle?
    ensures PollMany(s, k) == Some(AfterWrites(s))
    decreases |s.store.pending|
  {
    var r, q := s.output, s.store;
    NothingStored(r.prod, q.total, r.slots, r.sent, q.done);
    if q.pending == [] {
      assert PollMany(s, 1) == PollMany(PollStep(s), 0);
      return 1;
    }
    var j := WriteTurn(s);
    var s' := PollMany(s, j).value;
    var bytes := q.pending[0].data[..Min(|q.pending[0].data|, Room(r.prod, r.cons, r.Size()))];
    if bytes == [] {
      assert ServeWrites(q.pending, Room(r.prod, r.cons, r.Size())) == Pass([], q.pending);
      return j;
    }
    var i := UndisturbedWrites(s');
    PollManySplit(s, j, i);
    WriteTurnIsPassStep(s, s', bytes);
    k := j + i;
  }

  lemma NothingStored(prod: u32, total: u32, slots: seq<byte>, sent: seq<byte>, done: seq<Reply>)
    requires slots != []
    ensures Add(prod, 0) == prod && Add(total, 0) == total && Poke(slots, prod, []) == slots
    ensures sent + [] == sent && done + [] == done && Moved([]) == []
  {
  }

  lemma WriteTurnIsPassStep(s: System, s': System, bytes: seq<byte>)
    requires s.output.slots != [] && s.store.held == [] && s.store.pending != [] && bytes != []
    requires var data, r := s.store.pending[0].data, s.output;
             bytes == data[..Min(|data|, Room(r.prod, r.cons, r.Size()))]
    requires s' == s.(output := Wrote(s.output, bytes), store := Complete(Take(s.store), bytes), pc := WriteLoop)
    ensures AfterWrites(s') == AfterWrites(s)
  {
    var r, q := s.output, s.store;
    var room := Room(r.prod, r.cons, r.Size());
    AdvanceRoom(r.prod, r.cons, r.Size(), |bytes|);
    ServeWritesStep(q.pending, room);
    var pass, later := ServeWrites(q.pending, room), ServeWrites(q.pending[1..], room - |bytes|);
    assert Room(s'.output.prod, s'.output.cons, s'.output.Size()) == room - |bytes|;
    assert s'.store.pending == q.pending[1..];
    WroteTwice(r, bytes, Moved(later.done));
    PassedTwice(q, bytes, pass, later);
  }

  lemma WroteTwice(r: P.Ring, a: seq<byte>, b: seq<byte>)
    requires r.slots != []
    ensures Wrote(Wrote(r, a), b) == Wrote(r, a + b)
  {
    PokeSplit(r.slots, r.prod, a, b);
    AddTwice(r.prod, |a|, |b|);
    Assoc(r.sent, a, b);
  }

  lemma PassedTwice(q: Queue, bytes: seq<byte>, pass: Pass, later: Pass)
    requires q.pending != [] && q.held == []
    requires pass == Pass([Reply(q.pending[0], Success, bytes)] + later.done, later.rest)
    requires Moved(pass.done) == bytes + Moved(later.done)
    ensures Passed(Complete(Take(q), bytes), later) == Passed(q, pass)
  {
    Assoc(q.done, [Reply(q.pending[0], Success, bytes)], later.done);
    AddTwice(q.total, |bytes|, |Moved(later.done)|);
  }

  /** A whole undisturbed RingPoll: the pass over the reads and then the pass over the writes. */
  lemma UndisturbedPoll(s: System) returns (k: nat)
    requires Ready(s) && s.pc.Idle? && s.fetch.held == [] && s.store.held == []
    requires s.input.consumer.CIdle? && s.output.producer.PIdle?
    ensures PollMany(s, k) == Some(AfterWrites(AfterReads(s)))
  {
    var s1 := PollStep(s);
    assert PollMany(s, 1) == PollMany(s1, 0) == Some(s1);
    var i := UndisturbedReads(s1);
    var j := UndisturbedWrites(AfterReads(s1));
    PollManySplit(s, 1, i);
    PollManySplit(s, 1 + i, j);
    k := 1 + i + j;
  }

  // ----- Every poll goes through both loops, whatever happens meanwhile -----

  /** The first loop is left here: with nothing queued, or with a read put back that a copy routine
      came home from with nothing, its last snapshot used up or its length zero. */
  ghost predicate LeavesReads(states: seq<System>, events: seq<Event>, r: nat)
    requires |states| == |events| + 1 && r < |events|
  {
    && events[r] == Poll && Reading(states[r].pc) && states[r + 1].pc == WriteLoop
    && (states[r].fetch.pending == [] || exists c :: 0 <= c < r && ReadsCameHomeDry(states[c], states[r].fetch.held))
  }

  predicate ReadsCameHomeDry(s: System, held: seq<Irp>) {
    && s.pc.ReadCopy? && s.fetch.held == held != [] && s.input.consumer.CBusy?
    && (held[0].length == 0 || s.input.consumer.prodAt == |s.input.received|)
  }

  ghost predicate LeavesWrites(states: seq<System>, events: seq<Event>, w: nat)
    requires |states| == |events| + 1 && w < |events|
  {
    && events[w] == Poll && Writing(states[w].pc) && states[w + 1].pc == Idle
    && (states[w].store.pending == [] || exists c :: 0 <= c < w && WritesCameHomeFull(states[c], states[w].store.held))
  }

  predicate WritesCameHomeFull(s: System, held: seq<Irp>) {
    && s.pc.WriteCopy? && s.store.held == held != [] && s.output.producer.PBusy?
    && (held[0].data == [] || |s.output.sent| - s.output.producer.consAt == OUT_SIZE)
  }

  /** A copy routine has just come home, or had before. */
  lemma EndReached(s: System, e: Event)
    requires Inv(s) && Enabled(s, e)
    ensures var s' := Apply(s, e);
            && (s'.pc.ReadEnd? ==>
                  s'.fetch.held == s.fetch.held &&
                  if e == Poll then s.pc.ReadCopy? && P.ReadChunk(s.input) == 0 else s'.pc == s.pc)
            && (s'.pc.WriteEnd? ==>
                  s'.store.held == s.store.held &&
                  if e == Poll then s.pc.WriteCopy? && P.WriteChunk(s.output) == 0 else s'.pc == s.pc)
  {
  }

  /** Where the copy routine of a read that got nothing had come to its end. */
  lemma {:induction false} HomeFromRead(states: seq<System>, events: seq<Event>, r: nat) returns (c: nat)
    requires Run(states, events) && r < |states| && states[r].pc == ReadEnd([])
    ensures c < r && ReadsCameHomeDry(states[c], states[r].fetch.held)
    decreases r
  {
    RunDelivers(states, events, r);
    assert r > 0;
    RunDelivers(states, events, r - 1);
    var s, e := states[r - 1], events[r - 1];
    assert Enabled(s, e) && states[r] == Apply(s, e);
    EndReached(s, e);
    if e == Poll && s.pc.ReadCopy? {
      c := r - 1;
      ReadStopsDry(s);
    } else {
      c := HomeFromRead(states, events, r - 1);
    }
  }

  lemma {:induction false} HomeFromWrite(states: seq<System>, events: seq<Event>, w: nat) returns (c: nat)
    requires Run(states, events) && w < |states| && states[w].pc == WriteEnd([])
    ensures c < w && WritesCameHomeFull(states[c], states[w].store.held)
    decreases w
  {
    RunDelivers(states, events, w);
    assert w > 0;
    RunDelivers(states, events, w - 1);
    var s, e := states[w - 1], events[w - 1];
    assert Enabled(s, e) && states[w] == Apply(s, e);
    EndReached(s, e);
    if e == Poll && s.pc.WriteCopy? {
      c := w - 1;
      WriteStopsFull(s);
    } else {
      c := HomeFromWrite(states, events, w - 1);
    }
  }

  /** What one event can do to the poller's place. */
  lemma PlaceAfter(s: System, e: Event)
    requires Inv(s) && Enabled(s, e)
    ensures var pc, pc' := s.pc, Apply(s, e).pc;
            && (e != Poll ==> pc' == pc)
            && (e == Poll && pc.Idle? ==> pc' == ReadLoop)
            && (e == Poll && Reading(pc) ==>
                  Reading(pc') || (pc' == WriteLoop && (s.fetch.pending == [] || pc == ReadEnd([]))))
            && (e == Poll && Writing(pc) ==>
                  Writing(pc') || (pc' == Idle && (s.store.pending == [] || pc == WriteEnd([]))))
  {
  }

  /** From a state in the second loop to the next idle one. */
  lemma {:induction false} WriteLoopIsLeft(states: seq<System>, events: seq<Event>, i: nat, j: nat) returns (w: nat)
    requires Run(states, events) && i < j < |states| && Writing(states[i].pc) && states[j].pc == Idle
    ensures i <= w < j && LeavesWrites(states, events, w)
    decreases j - i
  {
    RunDelivers(states, events, i);
    assert Enabled(states[i], events[i]);
    PlaceAfter(states[i], events[i]);
    if Writing(states[i + 1].pc) {
      w := WriteLoopIsLeft(states, events, i + 1, j);
    } else {
      w := i;
      if states[i].pc == WriteEnd([]) {
        var c := HomeFromWrite(states, events, i);
      }
    }
  }

  /** From a state in the first loop. */
  lemma {:induction false} ReadLoopIsLeft(states: seq<System>, events: seq<Event>, i: nat, j: nat)
    returns (r: nat, w: nat)
    requires Run(states, events) && i < j < |states| && Reading(states[i].pc) && states[j].pc == Idle
    ensures i <= r < w < j && LeavesReads(states, events, r) && LeavesWrites(states, events, w)
    decreases j - i
  {
    RunDelivers(states, events, i);
    assert Enabled(states[i], events[i]);
    PlaceAfter(states[i], events[i]);
    if Reading(states[i + 1].pc) {
      r, w := ReadLoopIsLeft(states, events, i + 1, j);
    } else {
      r := i;
      if states[i].pc == ReadEnd([]) {
        var c := HomeFromRead(states, events, i);
      }
      w := WriteLoopIsLeft(states, events, i + 1, j);
    }
  }

  /** Over every run: between the start of a poll and any later idle moment the poller has been
      through both loops, and left each with its queue empty, its last snapshot used up, or a
      request of length zero at the head. */
  lemma PollGoesThroughBoth(states: seq<System>, events: seq<Event>, i: nat, j: nat) returns (r: nat, w: nat)
    requires Run(states, events) && i < j < |states|
    requires states[i].pc == Idle && events[i] == Poll && states[j].pc == Idle
    ensures i < r < w < j && LeavesReads(states, events, r) && LeavesWrites(states, events, w)
  {
    RunDelivers(states, events, i);
    assert Enabled(states[i], events[i]);
    PlaceAfter(states[i], events[i]);
    r, w := ReadLoopIsLeft(states, events, i + 1, j);
  }
}
