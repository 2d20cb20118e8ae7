/** The worker thread object: who frees it, over every interleaving of its creator with the
    thread function. The two share one counter and touch the object until each lets go. */
module ThreadLife {

  /** Where the creator stands. `left` in the two Dropped states is what its decrement returned. */
  datatype Maker =
    | Making               // allocated, two references
    | Unstarted            // the system thread could not be created; its reference was dropped for it
    | Unopened             // the thread runs but no handle on it could be had
    | Alerted              // and was told to stop
    | Holding              // ThreadCreate succeeded
    | Dropping(left: int)  // decremented on the way out of a failed ThreadCreate
    | Joining(left: int)   // ThreadJoin saw the thread end, and decremented
    | Done

  /** Where the thread function stands. */
  datatype Worker = Absent | Running | Dropping(left: int) | Ended

  datatype Life = Life(references: int, frees: nat, alerted: bool, maker: Maker, worker: Worker)

  datatype Step =
    | Start(ok: bool) | Open(ok: bool) | FailAlert | FailDrop | FailFree
    | Alert | Join | JoinFree
    | Return | ReturnFree

  function Born(): Life {
    Life(2, 0, false, Making, Absent)
  }

  /** ThreadJoin waits for the thread itself, not for the object. */
  predicate Enabled(s: Life, step: Step) {
    match step
    case Start(_) => s.maker == Making && s.worker == Absent
    case Open(_) => s.maker == Making && s.worker != Absent
    case FailAlert => s.maker == Unopened
    case FailDrop => s.maker == Unstarted || s.maker == Maker.Alerted
    case FailFree => s.maker.Dropping?
    case Alert => s.maker == Holding
    case Join => s.maker == Holding && s.worker == Ended
    case JoinFree => s.maker.Joining?
    case Return => s.worker == Running
    case ReturnFree => s.worker.Dropping?
  }

  function Apply(s: Life, step: Step): Life
    requires Enabled(s, step)
  {
    match step
    case Start(ok) =>
      if ok then s.(worker := Running) else s.(references := s.references - 1, maker := Unstarted)
    case Open(ok) => s.(maker := if ok then Holding else Unopened)
    case FailAlert => s.(alerted := true, maker := Maker.Alerted)
    case FailDrop => s.(references := s.references - 1, maker := Maker.Dropping(s.references - 1))
    case FailFree => Free(s, s.maker.left == 0).(maker := Done)
    case Alert => s.(alerted := true)
    case Join => s.(references := s.references - 1, maker := Joining(s.references - 1))
    case JoinFree => Free(s, true).(maker := Done)
    case Return => s.(references := s.references - 1, worker := Worker.Dropping(s.references - 1))
    case ReturnFree => Free(s, s.worker.left == 0).(worker := Ended)
  }

  function Free(s: Life, now: bool): Life {
    if now then s.(frees := s.frees + 1) else s
  }

  /** The steps that read or write the object; after a decrement only the locals are used. */
  predicate Touches(step: Step) {
    step != FailFree && step != ReturnFree
  }

  function MakerHolds(s: Life): int {
    if s.maker in {Making, Unstarted, Unopened, Maker.Alerted, Holding} then 1 else 0
  }

  function WorkerHolds(s: Life): int {
    if s.worker == Running || (s.worker == Absent && s.maker == Making) then 1 else 0
  }

  /** The one who saw zero and has not freed yet. */
  function Owed(s: Life): int {
    (if s.maker.Joining? || (s.maker.Dropping? && s.maker.left == 0) then 1 else 0)
    + (if s.worker.Dropping? && s.worker.left == 0 then 1 else 0)
  }

  predicate Inv(s: Life) {
    && s.references == MakerHolds(s) + WorkerHolds(s)
    && s.frees + Owed(s) == (if s.references == 0 then 1 else 0)
    && (s.worker == Absent ==> s.maker.Making? || s.maker.Unstarted? || s.maker.Dropping? || s.maker.Done?)
    && (s.maker.Joining? ==> s.maker.left == 0 && s.worker == Ended)
    && (s.maker.Unstarted? ==> s.worker == Absent)
    && (s.maker == Maker.Alerted ==> s.alerted)
  }

  /** In every reachable state: ThreadJoin's assertion holds, no step touches a freed object, and
      the invariant carries on. */
  lemma StepKeepsInv(s: Life, step: Step)
    requires Inv(s) && Enabled(s, step)
    ensures Inv(Apply(s, step))
    ensures Touches(step) && step != JoinFree ==> s.frees == 0
    ensures step == Join ==> Apply(s, step).references == 0
    ensures step == JoinFree || (step == FailFree && s.maker.left == 0) || (step == ReturnFree && s.worker.left == 0)
            ==> s.frees == 0
  {
  }

  ghost predicate Run(states: seq<Life>, steps: seq<Step>) {
    && |states| == |steps| + 1
    && states[0] == Born()
    && forall i | 0 <= i < |steps| :: Enabled(states[i], steps[i]) && states[i + 1] == Apply(states[i], steps[i])
  }

  lemma {:induction false} RunKeepsInv(states: seq<Life>, steps: seq<Step>, i: nat)
    requires Run(states, steps) && i < |states|
    ensures Inv(states[i])
  {
    if i > 0 {
      RunKeepsInv(states, steps, i - 1);
      assert Enabled(states[i - 1], steps[i - 1]);
      StepKeepsInv(states[i - 1], steps[i - 1]);
    }
  }

  /** Whatever fails and whoever is last: the object is never freed twice, never touched once
      freed, and is freed by the time both parties are through with it. */
  lemma FreedExactlyOnce(states: seq<Life>, steps: seq<Step>, i: nat)
    requires Run(states, steps) && i < |states|
    ensures states[i].frees <= 1
    ensures i < |steps| && Touches(steps[i]) ==> states[i].frees == 0
    ensures states[i].maker == Done && states[i].worker in {Absent, Ended} ==> states[i].frees == 1
    ensures states[i].frees == 1 ==> states[i].references == 0
  {
    RunKeepsInv(states, steps, i);
    if i < |steps| {
      StepKeepsInv(states[i], steps[i]);
    }
  }

  // ----- It is always freed in the end -----

  predicate Through(s: Life) {
    s.maker == Done && s.worker in {Absent, Ended}
  }

  /** Steps to go, at most, of the creator and of the thread. */
  function MakerTodo(m: Maker): nat {
    match m
    case Making => 8
    case Unopened => 4
    case Holding => 4
    case Unstarted => 3
    case Alerted => 3
    case Dropping(_) => 1
    case Joining(_) => 1
    case Done => 0
  }

  function WorkerTodo(w: Worker): nat {
    match w
    case Absent => 3
    case Running => 2
    case Dropping(_) => 1
    case Ended => 0
  }

  function Todo(s: Life): nat {
    MakerTodo(s.maker) + WorkerTodo(s.worker)
  }

  /** Every step but a repeated alert brings the end nearer. */
  lemma StepsEnd(s: Life, step: Step)
    requires Enabled(s, step) && step != Alert
    ensures Todo(Apply(s, step)) < Todo(s)
  {
  }

  /** Until then there is one to take. */
  lemma StepToTake(s: Life) returns (step: Step)
    requires Inv(s) && !Through(s)
    ensures step != Alert && Enabled(s, step)
  {
    match s.worker
    case Running => step := Return;
    case Dropping(_) => step := ReturnFree;
    case _ =>
      match s.maker {
        case Making => step := if s.worker == Absent then Start(true) else Open(true);
        case Unstarted => step := FailDrop;
        case Unopened => step := FailAlert;
        case Alerted => step := FailDrop;
        case Holding => step := Join;
        case Dropping(_) => step := FailFree;
        case Joining(_) => step := JoinFree;
        case Done =>
      }
  }

  /** So from every reachable state the steps run out with the object freed, exactly once. */
  lemma {:induction false} EndsFreed(s: Life) returns (e: Life)
    requires Inv(s)
    ensures Inv(e) && Through(e) && e.frees == 1
    decreases Todo(s)
  {
    if Through(s) {
      return s;
    }
    var step := StepToTake(s);
    StepsEnd(s, step);
    StepKeepsInv(s, step);
    e := EndsFreed(Apply(s, step));
  }
}
