/** The stream: a queue of console requests served by one worker thread while requests are posted
    and cancelled and the console changes state, each access to shared memory a step of its own. */
module Stream {
  import opened Sequences
  import opened Requests

  /** Where the worker stands. If a start-up call fails it returns, and so ends, at once. */
  datatype Pc =
    | Acquire            // the console interface
    | AddWakeup          // have the console wake the worker's event
    | Wait               // on the event
    | Clear              // the event
    | CheckAlert
    | Next               // about to take the first request
    | Ask(irp: Irp)      // CanRead or CanWrite
    | PutBack(irp: Irp)  // found blocked
    | Serve(irp: Irp)
    | Stopped

  /** `readable` and `writable` are what the console would answer; `wakes` counts the setters
      between their write and their KeSetEvent; the last three are ledgers. */
  datatype State = State(queue: seq<Irp>, readable: bool, writable: bool, event: bool, alerted: bool, wakes: nat,
                         pc: Pc, posted: seq<Irp>, served: seq<Irp>, cancelled: set<nat>)

  /** Once WakeupAdd has succeeded the console announces, through the event, that it became ready;
      that it no longer is it announces to nobody. */
  datatype Step =
    | StartUp(ok: bool) | Work | Post(irp: Irp) | SetAlert | Wake | Cancel(i: nat)
    | Ready(major: Major) | Busy(major: Major)

  /** StreamCreate; the console is in any state. */
  function Created(readable: bool, writable: bool): State {
    State([], readable, writable, false, false, 0, Acquire, [], [], {})
  }

  /** Requests of any other kind are asserted not to come, and would block. */
  predicate Blocked(s: State, major: Major) {
    match major
    case Read => !s.readable
    case Write => !s.writable
    case Other => true
  }

  predicate StartingUp(s: State) {
    s.pc == Acquire || s.pc == AddWakeup
  }

  predicate Enabled(s: State, step: Step) {
    match step
    case StartUp(_) => StartingUp(s)
    case Work => !StartingUp(s) && s.pc != Stopped && (s.pc == Wait ==> s.event)
    case Post(irp) => forall p | p in s.posted :: p.id != irp.id
    case Wake => s.wakes > 0
    case Cancel(i) => i < |s.queue|
    case _ => true
  }

  function Apply(s: State, step: Step): State
    requires Enabled(s, step)
  {
    match step
    case StartUp(ok) => s.(pc := if !ok then Stopped else if s.pc == Acquire then AddWakeup else Wait)
    case Work => Worker(s)
    case Post(irp) => s.(queue := s.queue + [irp], posted := s.posted + [irp], wakes := s.wakes + 1)
    case SetAlert => s.(alerted := true, wakes := s.wakes + 1)
    case Wake => s.(event := true, wakes := s.wakes - 1)
    case Cancel(i) => s.(queue := s.queue[..i] + s.queue[i + 1..], cancelled := s.cancelled + {s.queue[i].id})
    case Ready(major) =>
      Answer(s, major, true).(wakes := if StartingUp(s) || s.pc == Stopped then s.wakes else s.wakes + 1)
    case Busy(major) => Answer(s, major, false)
  }

  function Answer(s: State, major: Major, ready: bool): State {
    match major
    case Read => s.(readable := ready)
    case Write => s.(writable := ready)
    case Other => s
  }

  /** What the console says of reads holds up reads and nothing else, and the same for writes. */
  lemma AnswersAreByKind(s: State)
    ensures !Blocked(Answer(s, Read, true), Read) && Blocked(Answer(s, Read, false), Read)
    ensures !Blocked(Answer(s, Write, true), Write) && Blocked(Answer(s, Write, false), Write)
    ensures forall ready :: Blocked(Answer(s, Read, ready), Write) == Blocked(s, Write)
    ensures forall ready :: Blocked(Answer(s, Write, ready), Read) == Blocked(s, Read)
  {
  }

  function Worker(s: State): State
    requires Enabled(s, Work)
  {
    match s.pc
    case Wait => s.(pc := Clear)
    case Clear => s.(event := false, pc := CheckAlert)
    case CheckAlert => s.(pc := if s.alerted then Stopped else Next)
    case Next => if s.queue == [] then s.(pc := Wait) else s.(queue := s.queue[1..], pc := Ask(s.queue[0]))
    case Ask(irp) => s.(pc := if Blocked(s, irp.major) then PutBack(irp) else Serve(irp))
    case PutBack(irp) => s.(queue := [irp] + s.queue, pc := Wait)
    case Serve(irp) => s.(served := s.served + [irp], pc := Next)
  }

  predicate Asleep(s: State) {
    s.pc == Wait && !s.event && s.wakes == 0
  }

  /** Nothing the worker could do: no alert, and the first request, if any, is blocked. */
  predicate Idle(s: State) {
    !s.alerted && (s.queue == [] || Blocked(s, s.queue[0].major))
  }

  /** A sleeping worker has nothing to do, and it stops only when told to; a wake is never lost on
      the way. */
  predicate Awake(s: State) {
    && (s.pc == Clear ==> s.event)
    && (s.pc == Stopped ==> s.alerted)
    && (s.alerted && s.wakes == 0 ==> s.event || s.pc in {CheckAlert, Stopped})
    && (StartingUp(s) && s.queue != [] && s.wakes == 0 ==> s.event)
    && (s.pc.PutBack? && s.wakes == 0 && !s.event ==> Blocked(s, s.pc.irp.major))
    && (Asleep(s) ==> Idle(s))
  }

  /** The cancellation that strands: it takes a blocked head away from in front of a request that
      is not blocked, while the worker sleeps. */
  predicate Strands(s: State, step: Step) {
    step == Cancel(0) && Asleep(s) && |s.queue| > 1 && !Blocked(s, s.queue[1].major)
  }

  /** The start-up call that fails, with nobody having asked the worker to stop. */
  predicate FailsToStart(s: State, step: Step) {
    step == StartUp(false) && !s.alerted
  }

  /** Exactly these two leave requests waiting on a worker that will not look at them. */
  lemma AwakeIffNotStranding(s: State, step: Step)
    requires Awake(s) && Enabled(s, step)
    ensures Awake(Apply(s, step)) <==> !Strands(s, step) && !FailsToStart(s, step)
  {
    if step.Cancel? && |s.queue| > 1 {
      assert (s.queue[..step.i] + s.queue[step.i + 1..])[0] == s.queue[if step.i == 0 then 1 else 0];
    }
  }

  ghost predicate Run(states: seq<State>, steps: seq<Step>) {
    && |states| == |steps| + 1
    && states[0] == Created(states[0].readable, states[0].writable)
    && forall i | 0 <= i < |steps| :: Enabled(states[i], steps[i]) && states[i + 1] == Apply(states[i], steps[i])
  }

  /** With neither of the two in a run, a sleeping worker never leaves an unblocked first request,
      and a stopped one was told to stop. */
  lemma {:induction false} NothingStranded(states: seq<State>, steps: seq<Step>, i: nat)
    requires Run(states, steps) && i < |states|
    requires forall j | 0 <= j < i :: !Strands(states[j], steps[j]) && !FailsToStart(states[j], steps[j])
    ensures Awake(states[i])
  {
    if i > 0 {
      NothingStranded(states, steps, i - 1);
      assert Enabled(states[i - 1], steps[i - 1]);
      AwakeIffNotStranding(states[i - 1], steps[i - 1]);
    }
  }

  // ----- Both can happen -----

  ghost predicate Reachable(s: State) {
    exists states: seq<State>, steps: seq<Step> :: Run(states, steps) && states[|steps|] == s
  }

  lemma ReachStep(s: State, step: Step)
    requires Reachable(s) && Enabled(s, step)
    ensures Reachable(Apply(s, step))
  {
    var states: seq<State>, steps: seq<Step> :| Run(states, steps) && states[|steps|] == s;
    assert Run(states + [Apply(s, step)], steps + [step]);
  }

  lemma ReachCreated(readable: bool, writable: bool)
    ensures Reachable(Created(readable, writable))
  {
    assert Run([Created(readable, writable)], []);
  }

  const R := Irp(0, Read, 0, 1, [])
  const W := Irp(1, Write, 0, 1, [0])

  /** The console not acquired: a read is posted and its wake delivered to a thread that has
      ended, with the console ready to serve it. */
  lemma StartUpCanFail()
    ensures exists s :: Reachable(s) && s.pc == Stopped && !s.alerted && s.wakes == 0
                        && s.queue != [] && !Blocked(s, s.queue[0].major)
  {
    var s0 := Created(true, true);
    ReachCreated(true, true);
    ReachStep(s0, StartUp(false));
    var s1 := Apply(s0, StartUp(false));
    ReachStep(s1, Post(R));
    var s2 := Apply(s1, Post(R));
    assert s2.queue == [R];
    ReachStep(s2, Wake);
    assert Reachable(Apply(s2, Wake));
  }

  /** And whatever happens then, nothing is served any more. */
  lemma {:induction false} NothingServedAfterStop(states: seq<State>, steps: seq<Step>, i: nat, j: nat)
    requires Run(states, steps) && i <= j < |states| && states[i].pc == Stopped
    ensures states[j].pc == Stopped && states[j].served == states[i].served
    decreases j
  {
    if i < j {
      NothingServedAfterStop(states, steps, i, j - 1);
      assert Enabled(states[j - 1], steps[j - 1]);
    }
  }

  /** A read and then a write posted, the console ready for the write alone, two wakes due. */
  function Posted(): State {
    Created(false, true).(queue := [R, W], wakes := 2, pc := Wait, posted := [R, W])
  }

  lemma ReachPosted()
    ensures Reachable(Posted())
  {
    var s := Created(false, true);
    ReachCreated(false, true);
    ReachStep(s, StartUp(true));
    ReachStep(s.(pc := AddWakeup), StartUp(true));
    ReachStep(s.(pc := Wait), Post(R));
    assert [] + [R] == [R] && [R] + [W] == [R, W];
    ReachStep(s.(pc := Wait, wakes := 1, queue := [R], posted := [R]), Post(W));
  }

  lemma ReachAwake()
    ensures Reachable(Posted().(wakes := 0, pc := Next))
  {
    var s := Posted();
    ReachPosted();
    ReachStep(s, Wake);
    ReachStep(s.(event := true, wakes := 1), Wake);
    ReachStep(s.(event := true, wakes := 0), Work);
    ReachStep(s.(event := true, wakes := 0, pc := Clear), Work);
    ReachStep(s.(wakes := 0, pc := CheckAlert), Work);
  }

  lemma ReachAsking()
    ensures Reachable(Posted().(wakes := 0, queue := [W], pc := Ask(R)))
  {
    var s := Posted().(wakes := 0, pc := Next);
    ReachAwake();
    assert s.queue[1..] == [W];
    ReachStep(s, Work);
  }

  /** The worker waits again, having put the refused read back in front of the write. */
  lemma ReachBlockedRead()
    ensures Reachable(Posted().(wakes := 0))
  {
    var s := Posted().(wakes := 0);
    ReachAsking();
    ReachStep(s.(queue := [W], pc := Ask(R)), Work);
    ReachStep(s.(queue := [W], pc := PutBack(R)), Work);
    assert [R] + [W] == s.queue;
  }

  /** The stranding cancellation can happen: a read holds up a write, and goes. */
  lemma CancelCanStrand()
    ensures exists s :: Reachable(s) && !s.alerted && Asleep(s) && !Idle(s)
  {
    var s := Posted().(wakes := 0);
    ReachBlockedRead();
    ReachStep(s, Cancel(0));
    var s' := Apply(s, Cancel(0));
    assert s'.queue == [W];
    assert Reachable(s') && Asleep(s') && !Idle(s');
  }

  // ----- Order and conservation -----

  function Held(s: State): seq<Irp> {
    if s.pc.Ask? || s.pc.PutBack? || s.pc.Serve? then [s.pc.irp] else []
  }

  function Line(s: State): seq<Irp> {
    s.served + Held(s) + s.queue
  }

  /** Every request posted and not cancelled is served, held or queued, in posting order. */
  predicate InOrder(s: State) {
    && Distinct(s.posted)
    && (forall id | id in s.cancelled :: exists irp | irp in s.posted :: irp.id == id)
    && Live(s.posted, s.cancelled) == Line(s)
  }

  lemma PostKeepsOrder(s: State, irp: Irp)
    requires InOrder(s) && Enabled(s, Post(irp))
    ensures InOrder(Apply(s, Post(irp)))
  {
    LiveConcat(s.posted, [irp], s.cancelled);
    assert Live([irp], s.cancelled) == [irp];
    Assoc(s.served + Held(s), s.queue, [irp]);
    forall id | id in s.cancelled
      ensures exists p | p in s.posted + [irp] :: p.id == id
    {
      var p :| p in s.posted && p.id == id;
      assert p in s.posted + [irp];
    }
  }

  lemma CancelKeepsOrder(s: State, i: nat)
    requires InOrder(s) && i < |s.queue|
    ensures InOrder(Apply(s, Cancel(i)))
  {
    var s', id := Apply(s, Cancel(i)), s.queue[i].id;
    LiveIsSelection(s.posted, s.cancelled);
    assert s.queue[i] in Line(s);
    LiveAfterCancel(s.posted, s.cancelled, id);
    WithoutBehind(s.served + Held(s), s.queue, i);
    assert Line(s') == s.served + Held(s) + s'.queue;
  }

  lemma WithoutBehind(front: seq<Irp>, queue: seq<Irp>, i: nat)
    requires Distinct(front + queue) && i < |queue|
    ensures Without(front + queue, queue[i].id) == front + (queue[..i] + queue[i + 1..])
  {
    WithoutConcat(front, queue, queue[i].id);
    DistinctParts(front, queue, queue[i].id);
    WithoutAbsent(front, queue[i].id);
    DistinctBack(front, queue);
    WithoutAt(queue, i);
  }

  lemma DistinctBack(a: seq<Irp>, b: seq<Irp>)
    requires Distinct(a + b)
    ensures Distinct(b)
  {
    assert forall k | 0 <= k < |b| :: (a + b)[|a| + k] == b[k];
  }

  /** The worker only moves requests between the three places, keeping them in line. */
  lemma WorkKeepsLine(s: State)
    requires Enabled(s, Work)
    ensures Line(Worker(s)) == Line(s)
  {
    match s.pc
    case PutBack(irp) => Shifted(s.served, [irp], s.queue);
    case Serve(irp) => Shifted(s.served, [irp], s.queue);
    case Next =>
      if s.queue != [] {
        Shifted(s.served, [s.queue[0]], s.queue[1..]);
        assert s.queue == [s.queue[0]] + s.queue[1..];
      }
    case _ =>
  }

  lemma Shifted(a: seq<Irp>, b: seq<Irp>, c: seq<Irp>)
    ensures a + b + c == a + [] + (b + c) == a + b + [] + c
  {
    Assoc(a, b, c);
  }

  lemma WorkKeepsOrder(s: State)
    requires InOrder(s) && Enabled(s, Work)
    ensures InOrder(Worker(s))
  {
    WorkKeepsLine(s);
    SameLineKeepsOrder(s, Worker(s));
  }

  lemma SameLineKeepsOrder(s: State, s': State)
    requires InOrder(s) && s'.posted == s.posted && s'.cancelled == s.cancelled && Line(s') == Line(s)
    ensures InOrder(s')
  {
  }

  lemma StepKeepsOrder(s: State, step: Step)
    requires InOrder(s) && Enabled(s, step)
    ensures InOrder(Apply(s, step))
  {
    match step
    case Post(irp) => PostKeepsOrder(s, irp);
    case Cancel(i) => CancelKeepsOrder(s, i);
    case Work => WorkKeepsOrder(s);
    case _ => SameLineKeepsOrder(s, Apply(s, step));
  }

  /** Over every run, putting a blocked request back at the head included: requests are served in
      posting order, each at most once, and none is lost: the posted ones are the served, the one
      the worker holds, the queued and the cancelled. */
  lemma {:induction false} ServedInOrder(states: seq<State>, steps: seq<Step>, i: nat)
    requires Run(states, steps) && i < |states|
    ensures InOrder(states[i])
  {
    if i > 0 {
      ServedInOrder(states, steps, i - 1);
      assert Enabled(states[i - 1], steps[i - 1]);
      StepKeepsOrder(states[i - 1], steps[i - 1]);
    }
  }

  // ----- Left to itself the worker serves all it can -----

  /** The requests a pass serves before it meets a blocked one. */
  function Unblocked(s: State, queue: seq<Irp>): (k: nat)
    ensures k <= |queue|
    ensures forall j | 0 <= j < k :: !Blocked(s, queue[j].major)
    ensures k < |queue| ==> Blocked(s, queue[k].major)
  {
    if queue == [] || Blocked(s, queue[0].major) then 0 else 1 + Unblocked(s, queue[1..])
  }

  /** Woken, the worker clears the event and begins a pass, or stops if it was told to. */
  lemma WokenBeginsPass(s: State)
    requires s.pc == Wait && s.event
    ensures Worker(Worker(Worker(s))) == s.(event := false, pc := if s.alerted then Stopped else Next)
  {
  }

  /** A pass with nobody interfering. */
  function Pass(s: State): State
    requires s.pc == Next
    decreases |s.queue|
  {
    var s1 := Worker(s);
    if s.queue == [] then s1
    else
      var s3 := Worker(Worker(s1));
      if s3.pc == Next then Pass(s3) else s3
  }

  /** It serves the longest unblocked prefix of the queue and puts the rest back as it was. */
  lemma {:induction false} PassServesPrefix(s: State)
    requires s.pc == Next
    ensures Pass(s) == AfterPass(s, s.served, s.queue, Unblocked(s, s.queue))
    decreases |s.queue|
  {
    if s.queue == [] {
      AfterPassNone(s);
    } else {
      PassTurn(s);
      if Blocked(s, s.queue[0].major) {
        AfterPassNone(s);
      } else {
        var t := s.(queue := s.queue[1..], served := s.served + [s.queue[0]]);
        PassServesPrefix(t);
        SameAnswers(s, t, t.queue);
        AfterPassStep(s, Unblocked(s, s.queue));
      }
    }
  }

  lemma PassTurn(s: State)
    requires s.pc == Next && s.queue != []
    ensures Pass(s) == if Blocked(s, s.queue[0].major) then s.(pc := Wait)
                       else Pass(s.(queue := s.queue[1..], served := s.served + [s.queue[0]]))
  {
    AskTurn(s, s.queue[0], s.queue[1..]);
  }

  lemma AskTurn(s: State, irp: Irp, rest: seq<Irp>)
    requires s.pc == Next && s.queue != [] && irp == s.queue[0] && rest == s.queue[1..]
    ensures Worker(Worker(Worker(s))) == if Blocked(s, irp.major) then s.(pc := Wait)
                                         else s.(queue := rest, served := s.served + [irp])
  {
    var s1 := s.(queue := rest, pc := Ask(irp));
    assert Worker(s) == s1;
    assert Worker(s1) == s1.(pc := if Blocked(s, irp.major) then PutBack(irp) else Serve(irp));
    assert [irp] + rest == s.queue;
  }

  function AfterPass(s: State, served: seq<Irp>, queue: seq<Irp>, k: nat): State
    requires k <= |queue|
  {
    s.(served := served + queue[..k], queue := queue[k..], pc := Wait)
  }

  lemma AfterPassNone(s: State)
    ensures AfterPass(s, s.served, s.queue, 0) == s.(pc := Wait)
  {
    assert s.served + s.queue[..0] == s.served && s.queue[0..] == s.queue;
  }

  lemma AfterPassStep(s: State, k: nat)
    requires 0 < k <= |s.queue|
    ensures AfterPass(s, s.served + [s.queue[0]], s.queue[1..], k - 1) == AfterPass(s, s.served, s.queue, k)
  {
    assert s.served + [s.queue[0]] + s.queue[1..][..k - 1] == s.served + s.queue[..k];
  }

  lemma {:induction false} SameAnswers(s: State, t: State, queue: seq<Irp>)
    requires s.readable == t.readable && s.writable == t.writable
    ensures Unblocked(s, queue) == Unblocked(t, queue)
  {
    if queue != [] && !Blocked(s, queue[0].major) {
      SameAnswers(s, t, queue[1..]);
    }
  }

  // ----- The code's own loops -----

  /** The request queue of a stream with its completions. */
  class Queue {
    var list: seq<Irp>
    var served: seq<Irp>
    var cancelled: seq<Irp>

    /** StreamWorker's inner loop. `answers` is what CanRead or CanWrite said of each request in
        turn, whatever that was: all up to the first refusal are served in order, the rest stays
        as it was. */
    method Drain(answers: seq<bool>) returns (refused: bool, k: nat)
      requires |answers| == |list|
      modifies this`list, this`served
      ensures k <= |old(list)| && served == old(served) + old(list)[..k] && list == old(list)[k..]
      ensures (forall j | 0 <= j < k :: answers[j]) && (k < |answers| ==> !answers[k])
      ensures refused <==> list != []
    {
      ghost var all := list;
      refused, k := false, 0;
      while list != [] && !refused
        invariant 0 <= k <= |all| && served == old(served) + all[..k] && list == all[k..]
        invariant (forall j | 0 <= j < k :: answers[j]) && (refused ==> k < |answers| && !answers[k])
        decreases |list|, if refused then 0 else 1
      {
        var irp := list[0];
        list := list[1..];
        if !answers[k] {
          list := [irp] + list;
          refused := true;
        } else {
          served := served + [irp];
          assert all[..k + 1] == all[..k] + [irp];
          k := k + 1;
        }
      }
      assert all[|all|..] == [];
    }

    /** The loop of StreamDestroy, run once the worker is gone. */
    method CancelAll()
      modifies this`list, this`cancelled
      ensures list == [] && cancelled == old(cancelled + list)
    {
      while list != []
        invariant cancelled + list == old(cancelled + list)
        decreases |list|
      {
        var irp := list[0];
        assert list == [irp] + list[1..];
        list := list[1..];
        cancelled := cancelled + [irp];
      }
    }
  }
}
