/** Notification hold-off on a request/response ring (ring.h): a producer raises an event only
    when its push steps over the index the consumer asked to be told about. Two channels,
    requests one way and responses the other, each with its own event index. */
module HoldOff {
  import opened Word32

  // ----- The macros as functions of 32-bit indices -----

  /** The boolean of RING_PUSH_*_AND_CHECK_NOTIFY. */
  function Notify(old_: u32, new_: u32, event: u32): bool {
    Sub(new_, event) < Sub(new_, old_)
  }

  /** RING_FREE_REQUESTS. */
  function FreeRequests(size: u32, reqProdPvt: u32, rspCons: u32): u32 {
    Sub(size, Sub(reqProdPvt, rspCons))
  }

  /** RING_HAS_UNCONSUMED_REQUESTS. */
  function UnconsumedRequests(size: u32, reqProd: u32, reqCons: u32, rspProdPvt: u32): u32 {
    var req, rsp := Sub(reqProd, reqCons), Sub(size, Sub(reqCons, rspProdPvt));
    if req < rsp then req else rsp
  }

  /** RING_HAS_UNCONSUMED_RESPONSES. */
  function UnconsumedResponses(rspProd: u32, rspCons: u32): u32 {
    Sub(rspProd, rspCons)
  }

  /** RING_REQUEST_PROD_OVERFLOW and RING_REQUEST_CONS_OVERFLOW. */
  predicate ProdOverflow(size: u32, prod: u32, rspProdPvt: u32) {
    Sub(prod, rspProdPvt) > size
  }

  predicate ConsOverflow(size: u32, cons: u32, rspProdPvt: u32) {
    Sub(cons, rspProdPvt) >= size
  }

  /** The indices a push steps onto: old + 1, ..., new, wrapping. */
  ghost predicate SteppedOnto(old_: u32, new_: u32, event: u32) {
    exists k :: 0 < k <= Sub(new_, old_) && Add(old_, k) == event
  }

  /** The unsigned comparison of the push macros is exactly "the push stepped onto the event
      index", for every three words, wrapped or not. */
  lemma NotifyIffSteppedOnto(old_: u32, new_: u32, event: u32)
    ensures Notify(old_, new_, event) <==> SteppedOnto(old_, new_, event)
  {
    if Notify(old_, new_, event) {
      NotifyMeansStepped(old_, new_, event);
    }
    if k :| 0 < k <= Sub(new_, old_) && Add(old_, k) == event {
      SteppedMeansNotify(old_, new_, event, k);
    }
  }

  lemma NotifyMeansStepped(old_: u32, new_: u32, event: u32)
    requires Notify(old_, new_, event)
    ensures SteppedOnto(old_, new_, event)
  {
    var k := Sub(new_, old_) - Sub(new_, event);
    EventPlace(old_, new_, event);
    assert 0 < k <= Sub(new_, old_) && Add(old_, k) == event;
  }

  /** How far behind `old_` the event index lies. */
  lemma EventPlace(old_: u32, new_: u32, event: u32)
    ensures Add(old_, Sub(new_, old_) - Sub(new_, event)) == event
  {
    WordsWrap(new_, old_);
    WordsWrap(new_, event);
    WrapOfWord(event);
    WrapPeriodic(event, 1);
    WrapPeriodic(event, -1);
  }

  lemma SteppedMeansNotify(old_: u32, new_: u32, event: u32, k: nat)
    requires 0 < k <= Sub(new_, old_) && Add(old_, k) == event
    ensures Notify(old_, new_, event)
  {
    var d := Sub(new_, old_);
    Distance(old_, new_);
    SubExact(new_, event, old_ + d, old_ + k);
  }

  /** With the event index just past `cons`, every push that moves past `cons` steps onto it. */
  lemma EventAhead(cons: u32, old_: u32, new_: u32)
    requires Sub(cons, old_) < Sub(new_, old_)
    ensures SteppedOnto(old_, new_, Add(cons, 1))
  {
    var k := Sub(cons, old_) + 1;
    Distance(old_, cons);
    AddOfWrapped(old_ + Sub(cons, old_), 1);
    assert Add(old_, k) == Add(cons, 1);
  }

  /** The consumer at `cons` may sleep: no push past it goes without notice. */
  ghost predicate MaySleep(cons: u32, event: u32) {
    forall old_: u32, new_: u32 | Sub(cons, old_) < Sub(new_, old_) :: SteppedOnto(old_, new_, event)
  }

  lemma ArmedMaySleep(cons: u32)
    ensures MaySleep(cons, Add(cons, 1))
  {
    forall old_: u32, new_: u32 | Sub(cons, old_) < Sub(new_, old_)
      ensures SteppedOnto(old_, new_, Add(cons, 1))
    {
      EventAhead(cons, old_, new_);
    }
  }

  lemma Distance(a: u32, b: u32)
    ensures Wrap(a + Sub(b, a)) == b
  {
    AddOfWrapped(b - a, a);
    assert Add(Sub(b, a), a) == Wrap(b);
  }

  lemma SubSameWord(x: int, y: int, n: nat)
    requires Wrap(x) == Wrap(y)
    ensures Wrap(x - n) == Wrap(y - n)
  {
    var minus: int := -(n as int);
    AddOfWrapped(x, minus);
    AddOfWrapped(y, minus);
  }

  /** However far ahead the front end claims to be, the back end is told of no more requests than
      the ring has room to answer. */
  lemma UnconsumedIsBounded(size: u32, prodAt: nat, consAt: nat, rspAt: nat)
    requires rspAt <= consAt <= rspAt + size && consAt <= prodAt < consAt + MODULUS
    ensures UnconsumedRequests(size, Wrap(prodAt), Wrap(consAt), Wrap(rspAt))
         == Min(prodAt - consAt, size - (consAt - rspAt))
  {
    SubExact(Wrap(prodAt), Wrap(consAt), prodAt, consAt);
    SubExact(Wrap(consAt), Wrap(rspAt), consAt, rspAt);
    WrapOfWord(size - (consAt - rspAt));
  }

  /** The overflow checks fire exactly when more than the ring's size is outstanding, or when all
      of it would be with the next request taken. */
  lemma OverflowFiresIff(size: u32, at: nat, rspAt: nat)
    requires rspAt <= at < rspAt + MODULUS
    ensures ProdOverflow(size, Wrap(at), Wrap(rspAt)) <==> at - rspAt > size
    ensures ConsOverflow(size, Wrap(at), Wrap(rspAt)) <==> at - rspAt >= size
  {
    SubExact(Wrap(at), Wrap(rspAt), at, rspAt);
  }

  // ----- The macros as methods on ring objects -----

  class SharedRing {
    var reqProd: u32
    var reqEvent: u32
    var rspProd: u32
    var rspEvent: u32

    /** SHARED_RING_INIT: empty, and each side asks to be told of the very first entry. */
    constructor ()
      ensures reqProd == rspProd == 0 && reqEvent == rspEvent == 1
    {
      reqProd, rspProd, reqEvent, rspEvent := 0, 0, 1, 1;
    }
  }

  class FrontRing {
    const sring: SharedRing
    const entries: u32
    var reqProdPvt: u32
    var rspCons: u32

    /** FRONT_RING_INIT. */
    constructor (sring: SharedRing, entries: u32)
      ensures this.sring == sring && this.entries == entries && reqProdPvt == rspCons == 0
    {
      this.sring, this.entries := sring, entries;
      reqProdPvt, rspCons := 0, 0;
    }

    /** RING_PUSH_REQUESTS_AND_CHECK_NOTIFY. */
    method PushRequestsAndCheckNotify() returns (notify: bool)
      modifies sring`reqProd
      ensures sring.reqProd == reqProdPvt
      ensures notify <==> SteppedOnto(old(sring.reqProd), reqProdPvt, sring.reqEvent)
    {
      var old_ := sring.reqProd;
      var new_ := reqProdPvt;
      sring.reqProd := new_;
      notify := Notify(old_, new_, sring.reqEvent);
      NotifyIffSteppedOnto(old_, new_, sring.reqEvent);
    }

    /** RING_FINAL_CHECK_FOR_RESPONSES: asks to be told of the next response only when there
        is none already. */
    method FinalCheckForResponses() returns (workToDo: u32)
      modifies sring`rspEvent
      ensures workToDo == UnconsumedResponses(sring.rspProd, rspCons)
      ensures sring.rspEvent == if workToDo != 0 then old(sring.rspEvent) else Add(rspCons, 1)
      ensures workToDo == 0 ==> sring.rspProd == rspCons && MaySleep(rspCons, sring.rspEvent)
    {
      workToDo := UnconsumedResponses(sring.rspProd, rspCons);
      if workToDo != 0 {
        return;
      }
      sring.rspEvent := Add(rspCons, 1);
      ArmedMaySleep(rspCons);
      Distance(rspCons, sring.rspProd);
      workToDo := UnconsumedResponses(sring.rspProd, rspCons);
    }
  }

  class BackRing {
    const sring: SharedRing
    const entries: u32
    var rspProdPvt: u32
    var reqCons: u32

    /** BACK_RING_INIT. */
    constructor (sring: SharedRing, entries: u32)
      ensures this.sring == sring && this.entries == entries && rspProdPvt == reqCons == 0
    {
      this.sring, this.entries := sring, entries;
      rspProdPvt, reqCons := 0, 0;
    }

    /** RING_PUSH_RESPONSES_AND_CHECK_NOTIFY. */
    method PushResponsesAndCheckNotify() returns (notify: bool)
      modifies sring`rspProd
      ensures sring.rspProd == rspProdPvt
      ensures notify <==> SteppedOnto(old(sring.rspProd), rspProdPvt, sring.rspEvent)
    {
      var old_ := sring.rspProd;
      var new_ := rspProdPvt;
      sring.rspProd := new_;
      notify := Notify(old_, new_, sring.rspEvent);
      NotifyIffSteppedOnto(old_, new_, sring.rspEvent);
    }

    /** RING_FINAL_CHECK_FOR_REQUESTS. */
    method FinalCheckForRequests() returns (workToDo: u32)
      modifies sring`reqEvent
      ensures workToDo == UnconsumedRequests(entries, sring.reqProd, reqCons, rspProdPvt)
      ensures sring.reqEvent == if workToDo != 0 then old(sring.reqEvent) else Add(reqCons, 1)
      ensures workToDo == 0 ==> MaySleep(reqCons, sring.reqEvent)
    {
      workToDo := UnconsumedRequests(entries, sring.reqProd, reqCons, rspProdPvt);
      if workToDo != 0 {
        return;
      }
      sring.reqEvent := Add(reqCons, 1);
      ArmedMaySleep(reqCons);
      workToDo := UnconsumedRequests(entries, sring.reqProd, reqCons, rspProdPvt);
    }
  }

  // ----- The protocol, every memory access its own step -----

  datatype Producer = Working | Published(old_: u32, new_: u32)
  datatype Consumer = Running | Arming | Rechecking | Asleep

  /** Unbounded counts behind the wrapping indices. */
  datatype Counts = Counts(pvt: nat, prod: nat, cons: nat)

  /** One direction: the producer's private index, the shared index and event, the consumer's
      private index, where both sides are in their macros, and a pending notification. */
  datatype Channel = Channel(pvt: u32, prod: u32, event: u32, cons: u32,
                             producer: Producer, consumer: Consumer, kick: bool, at: Counts)

  datatype State = State(size: u32, req: Channel, rsp: Channel)

  datatype Move = Enqueue | Publish | CheckEvent | Consume | FirstCheck | Arm | Recheck | Wake

  datatype Step = Req(move: Move) | Rsp(move: Move)

  predicate MayMove(c: Channel, move: Move, roomToEnqueue: bool, unconsumed: u32) {
    match move
    case Enqueue => c.producer == Working && roomToEnqueue
    case Publish => c.producer == Working
    case CheckEvent => c.producer.Published?
    case Consume => c.consumer == Running && unconsumed != 0
    case FirstCheck => c.consumer == Running
    case Arm => c.consumer == Arming
    case Recheck => c.consumer == Rechecking
    case Wake => c.consumer == Asleep && c.kick
  }

  function Moved(c: Channel, move: Move, unconsumed: u32): Channel
    requires move == CheckEvent ==> c.producer.Published?
  {
    match move
    case Enqueue => c.(pvt := Add(c.pvt, 1), at := c.at.(pvt := c.at.pvt + 1))
    case Publish => c.(prod := c.pvt, producer := Published(c.prod, c.pvt), at := c.at.(prod := c.at.pvt))
    case CheckEvent =>
      c.(kick := c.kick || Notify(c.producer.old_, c.producer.new_, c.event), producer := Working)
    case Consume => c.(cons := Add(c.cons, 1), at := c.at.(cons := c.at.cons + 1))
    case FirstCheck => if unconsumed != 0 then c else c.(consumer := Arming)
    case Arm => c.(event := Add(c.cons, 1), consumer := Rechecking)
    case Recheck => c.(consumer := if unconsumed != 0 then Running else Asleep)
    case Wake => c.(kick := false, consumer := Running)
  }

  /** Undisturbed, the two moves of a push are RING_PUSH_*_AND_CHECK_NOTIFY. */
  lemma PushMoves(c: Channel, unconsumed: u32)
    requires c.producer == Working
    ensures MayMove(c, Publish, false, unconsumed)
    ensures MayMove(Moved(c, Publish, unconsumed), CheckEvent, false, unconsumed)
    ensures var c' := Moved(Moved(c, Publish, unconsumed), CheckEvent, unconsumed);
            && c'.prod == c.pvt && c'.producer == Working
            && (c'.kick <==> c.kick || SteppedOnto(c.prod, c.pvt, c.event))
            && c'.(prod := c.prod, kick := c.kick, at := c.at) == c
  {
    NotifyIffSteppedOnto(c.prod, c.pvt, c.event);
  }

  /** And the moves of a check are RING_FINAL_CHECK_FOR_*: with work to do it stops at the first
      look, otherwise it arms the event, looks again and sleeps only if there is still nothing. */
  lemma CheckMoves(c: Channel, first: u32, second: u32)
    requires c.consumer == Running
    ensures MayMove(c, FirstCheck, false, first)
    ensures first != 0 ==> Moved(c, FirstCheck, first) == c
    ensures first == 0 ==>
              var c1 := Moved(c, FirstCheck, first);
              var c2 := Moved(c1, Arm, first);
              && MayMove(c1, Arm, false, first) && MayMove(c2, Recheck, false, second)
              && Moved(c2, Recheck, second)
              == c.(event := Add(c.cons, 1), consumer := if second == 0 then Asleep else Running)
    ensures c.event == Add(c.cons, 1) ==> MaySleep(c.cons, c.event)
  {
    ArmedMaySleep(c.cons);
  }

  /** What each side may look at: the front has room by RING_FREE_REQUESTS; the back answers
      only requests it has taken. */
  predicate Enabled(s: State, step: Step) {
    match step
    case Req(move) => MayMove(s.req, move, FreeRequests(s.size, s.req.pvt, s.rsp.cons) != 0, SeenByBack(s))
    case Rsp(move) => MayMove(s.rsp, move, s.rsp.pvt != s.req.cons, SeenByFront(s))
  }

  function SeenByBack(s: State): u32 {
    UnconsumedRequests(s.size, s.req.prod, s.req.cons, s.rsp.pvt)
  }

  function SeenByFront(s: State): u32 {
    UnconsumedResponses(s.rsp.prod, s.rsp.cons)
  }

  function Next(s: State, step: Step): State
    requires Enabled(s, step)
  {
    match step
    case Req(move) => s.(req := Moved(s.req, move, SeenByBack(s)))
    case Rsp(move) => s.(rsp := Moved(s.rsp, move, SeenByFront(s)))
  }

  const FRESH := Channel(0, 0, 1, 0, Working, Running, false, Counts(0, 0, 0))

  predicate Init(s: State) {
    s.size > 0 && s.req == FRESH && s.rsp == FRESH
  }

  /** Flow control: the six indices never cross, and at most `size` requests are outstanding. */
  ghost predicate Flow(s: State) {
    && s.rsp.at.cons <= s.rsp.at.prod <= s.rsp.at.pvt <= s.req.at.cons <= s.req.at.prod <= s.req.at.pvt
    && s.req.at.pvt <= s.rsp.at.cons + s.size && s.size > 0
  }

  /** A consumer past its re-check is asleep with the event index on its next entry; if that
      entry is already there, a notification is pending or its producer is about to raise it. */
  ghost predicate ChannelInv(c: Channel) {
    && c.pvt == Wrap(c.at.pvt) && c.prod == Wrap(c.at.prod) && c.cons == Wrap(c.at.cons)
    && (c.consumer == Rechecking || c.consumer == Asleep ==> c.event == Wrap(c.at.cons + 1))
    && (c.producer.Published? ==> c.prod == c.pvt == c.producer.new_)
    && (c.consumer == Asleep && c.at.cons < c.at.prod ==> c.kick || WillNotify(c))
  }

  ghost predicate WillNotify(c: Channel) {
    c.producer.Published? && Notify(c.producer.old_, c.producer.new_, c.event)
  }

  ghost predicate Inv(s: State) {
    Flow(s) && ChannelInv(s.req) && ChannelInv(s.rsp)
  }

  /** Under flow control the 32-bit tests read the true counts. */
  lemma BackTestIsExact(s: State)
    requires Inv(s)
    ensures SeenByBack(s) == s.req.at.prod - s.req.at.cons
  {
    SubExact(s.req.prod, s.req.cons, s.req.at.prod, s.req.at.cons);
    SubExact(s.req.cons, s.rsp.pvt, s.req.at.cons, s.rsp.at.pvt);
    assert Sub(s.size, s.req.at.cons - s.rsp.at.pvt) == s.size - (s.req.at.cons - s.rsp.at.pvt);
  }

  lemma FrontTestsAreExact(s: State)
    requires Inv(s)
    ensures SeenByFront(s) == s.rsp.at.prod - s.rsp.at.cons
    ensures FreeRequests(s.size, s.req.pvt, s.rsp.cons) == s.size - (s.req.at.pvt - s.rsp.at.cons)
  {
    SubExact(s.rsp.prod, s.rsp.cons, s.rsp.at.prod, s.rsp.at.cons);
    SubExact(s.req.pvt, s.rsp.cons, s.req.at.pvt, s.rsp.at.cons);
  }

  /** The back end's checks on an ill-behaved front end never fire on this one. */
  lemma OverflowNeverFires(s: State)
    requires Inv(s)
    ensures !ProdOverflow(s.size, s.req.prod, s.rsp.pvt)
    ensures s.req.at.cons < s.req.at.prod ==> !ConsOverflow(s.size, s.req.cons, s.rsp.pvt)
  {
    SubExact(s.req.prod, s.rsp.pvt, s.req.at.prod, s.rsp.at.pvt);
    SubExact(s.req.cons, s.rsp.pvt, s.req.at.cons, s.rsp.at.pvt);
  }

  lemma AnswersOnlyTaken(s: State)
    requires Inv(s)
    ensures s.rsp.pvt == s.req.cons <==> s.rsp.at.pvt == s.req.at.cons
  {
    if s.rsp.pvt == s.req.cons {
      WrapInjective(s.rsp.at.pvt, s.req.at.cons);
    }
  }

  /** A push that takes a sleeping consumer's channel from empty to non-empty notifies. */
  lemma PushWakesSleeper(cons: nat, new_: nat)
    requires cons < new_ < cons + MODULUS
    ensures Notify(Wrap(cons), Wrap(new_), Wrap(cons + 1))
  {
    SubExact(Wrap(new_), Wrap(cons), new_, cons);
    SubExact(Wrap(new_), Wrap(cons + 1), new_, cons + 1);
  }

  lemma PublishKeepsChannel(c: Channel, unconsumed: u32)
    requires ChannelInv(c) && c.producer == Working
    requires c.at.cons <= c.at.prod <= c.at.pvt && c.at.pvt - c.at.cons < MODULUS
    ensures ChannelInv(Moved(c, Publish, unconsumed))
  {
    if c.consumer == Asleep && c.at.prod == c.at.cons < c.at.pvt {
      PushWakesSleeper(c.at.cons, c.at.pvt);
    }
  }

  /** The two moves that count on. */
  lemma CountingKeepsChannel(c: Channel, unconsumed: u32)
    requires ChannelInv(c)
    ensures c.producer == Working ==> ChannelInv(Moved(c, Enqueue, unconsumed))
    ensures c.consumer == Running ==> ChannelInv(Moved(c, Consume, unconsumed))
  {
    AddOfWrapped(c.at.pvt, 1);
    AddOfWrapped(c.at.cons, 1);
  }

  lemma CheckingKeepsChannel(c: Channel, move: Move, room: bool, unconsumed: u32)
    requires ChannelInv(c) && MayMove(c, move, room, unconsumed) && move !in {Enqueue, Consume, Publish}
    requires unconsumed == c.at.prod - c.at.cons && c.at.prod <= c.at.pvt && c.at.pvt - c.at.cons < MODULUS
    ensures ChannelInv(Moved(c, move, unconsumed))
  {
    if move == Arm {
      AddOfWrapped(c.at.cons, 1);
    }
  }

  lemma MoveKeepsChannel(c: Channel, move: Move, room: bool, unconsumed: u32)
    requires ChannelInv(c) && MayMove(c, move, room, unconsumed)
    requires unconsumed == c.at.prod - c.at.cons && c.at.prod <= c.at.pvt && c.at.pvt - c.at.cons < MODULUS
    ensures ChannelInv(Moved(c, move, unconsumed))
  {
    match move
    case Publish => PublishKeepsChannel(c, unconsumed);
    case Enqueue => CountingKeepsChannel(c, unconsumed);
    case Consume => CountingKeepsChannel(c, unconsumed);
    case _ => CheckingKeepsChannel(c, move, room, unconsumed);
  }

  lemma StepKeepsInv(s: State, step: Step)
    requires Inv(s) && Enabled(s, step)
    ensures Inv(Next(s, step))
  {
    BackTestIsExact(s);
    FrontTestsAreExact(s);
    AnswersOnlyTaken(s);
    match step
    case Req(move) =>
      MoveKeepsChannel(s.req, move, FreeRequests(s.size, s.req.pvt, s.rsp.cons) != 0, SeenByBack(s));
    case Rsp(move) =>
      MoveKeepsChannel(s.rsp, move, s.rsp.pvt != s.req.cons, SeenByFront(s));
  }

  ghost predicate Run(states: seq<State>, steps: seq<Step>) {
    && |states| == |steps| + 1 && Init(states[0])
    && (forall i | 0 <= i < |steps| :: Enabled(states[i], steps[i]) && states[i + 1] == Next(states[i], steps[i]))
  }

  /** Not lost: an entry waiting for a sleeping consumer has raised, or is about to raise, a
      notification. */
  ghost predicate NotLost(c: Channel) {
    c.consumer == Asleep && c.prod != c.cons ==> c.kick || WillNotify(c)
  }

  lemma InvLosesNothing(s: State)
    requires Inv(s)
    ensures NotLost(s.req) && NotLost(s.rsp)
  {
  }

  lemma InitMeansInv(s: State)
    requires Init(s)
    ensures Inv(s)
  {
  }

  /** No notification is lost, either way, in any interleaving of pushes and final checks,
      and both sides' tests always read the true counts. */
  lemma {:induction false} RunLosesNothing(states: seq<State>, steps: seq<Step>, i: nat)
    requires Run(states, steps) && i < |states|
    ensures Inv(states[i]) && NotLost(states[i].req) && NotLost(states[i].rsp)
    decreases i
  {
    if i == 0 {
      InitMeansInv(states[0]);
    } else {
      RunLosesNothing(states, steps, i - 1);
      RunStep(states, steps, i - 1);
    }
    InvLosesNothing(states[i]);
  }

  lemma RunStep(states: seq<State>, steps: seq<Step>, i: nat)
    requires Run(states, steps) && i < |steps| && Inv(states[i])
    ensures Enabled(states[i], steps[i]) && states[i + 1] == Next(states[i], steps[i]) && Inv(states[i + 1])
  {
    StepKeepsInv(states[i], steps[i]);
  }

  function Of(s: State, req: bool): Channel {
    if req then s.req else s.rsp
  }

  function By(req: bool, move: Move): Step {
    if req then Req(move) else Rsp(move)
  }

  /** From sleep on an empty channel, a non-empty push is such that its event check, made then,
      would say yes. */
  lemma PushFindsSleeper(s: State, req: bool)
    requires Inv(s) && Enabled(s, By(req, Publish))
    requires var c := Of(s, req); c.consumer == Asleep && c.prod == c.cons && c.cons != c.pvt
    ensures WillNotify(Of(Next(s, By(req, Publish)), req))
  {
    var c := Of(s, req);
    WrapInjective(c.at.prod, c.at.cons);
    PushWakesSleeper(c.at.cons, c.at.pvt);
  }

  /** Until that check is made or the consumer wakes, the answer stays yes. */
  lemma AnswerStays(s: State, step: Step, req: bool)
    requires Enabled(s, step) && step != By(req, CheckEvent)
    requires WillNotify(Of(s, req)) && Of(s, req).consumer == Asleep && Of(Next(s, step), req).consumer == Asleep
    ensures WillNotify(Of(Next(s, step), req))
  {
  }

  /** In every run: when the consumer's final check found nothing and it sleeps, the next
      non-empty push comes to its event check with the answer yes, and so raises a notification,
      however many steps of whatever kind lie between; unless the consumer woke in the meantime. */
  lemma {:induction false} NextPushNotifies(states: seq<State>, steps: seq<Step>, i: nat, j: nat, req: bool)
    requires Run(states, steps) && i < j <= |steps|
    requires steps[i] == By(req, Publish) && forall k | i < k < j :: steps[k] != By(req, CheckEvent)
    requires var c := Of(states[i], req); c.consumer == Asleep && c.prod == c.cons && c.cons != c.pvt
    requires forall k | i < k <= j :: Of(states[k], req).consumer == Asleep
    ensures WillNotify(Of(states[j], req))
    ensures j < |steps| && steps[j] == By(req, CheckEvent) ==> Of(states[j + 1], req).kick
    decreases j
  {
    if j == i + 1 {
      RunLosesNothing(states, steps, i);
      RunStep(states, steps, i);
      PushFindsSleeper(states[i], req);
    } else {
      NextPushNotifies(states, steps, i, j - 1, req);
      assert Enabled(states[j - 1], steps[j - 1]) && states[j] == Next(states[j - 1], steps[j - 1]);
      assert Of(states[j - 1], req).consumer == Asleep && Of(states[j], req).consumer == Asleep;
      assert steps[j - 1] != By(req, CheckEvent);
      AnswerStays(states[j - 1], steps[j - 1], req);
    }
    if j < |steps| {
      assert Enabled(states[j], steps[j]);
    }
  }
}
