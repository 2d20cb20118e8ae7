/** The one-slot mailboxes of the power worker threads. Posting a power request writes the slot and
    then wakes the worker; alerting sets a flag and then wakes it. Every access to shared memory is
    a step of its own, and the steps interleave freely. */
module PowerSlot {

  import opened Sequences

  /** Where the worker stands in its loop. */
  datatype Pc =
    | Test              // is the slot empty?
    | Wait              // on the event
    | Clear             // the event
    | CheckAlert
    | Load              // the slot
    | Reset(irp: nat)   // about to empty the slot it has read
    | Handle(irp: nat)
    | Stopped

  /** `wakes` counts the setters between their write and their KeSetEvent; `posted` and `handled`
      are ledgers. */
  datatype State = State(slot: Option<nat>, event: bool, alerted: bool, wakes: nat, pc: Pc,
                         posted: seq<nat>, handled: seq<nat>)

  datatype Step = Work | Put(irp: nat) | SetAlert | Wake

  function Init(): State {
    State(None, false, false, 0, Test, [], [])
  }

  /** A request is posted into an empty slot only, as FdoDispatchPower asserts. */
  predicate Enabled(s: State, step: Step) {
    match step
    case Work => s.pc != Stopped && (s.pc == Wait ==> s.event)
    case Put(_) => s.slot == None
    case SetAlert => true
    case Wake => s.wakes > 0
  }

  function Apply(s: State, step: Step): State
    requires Enabled(s, step)
  {
    match step
    case Work => Worker(s)
    case Put(irp) => s.(slot := Some(irp), posted := s.posted + [irp], wakes := s.wakes + 1)
    case SetAlert => s.(alerted := true, wakes := s.wakes + 1)
    case Wake => s.(event := true, wakes := s.wakes - 1)
  }

  function Worker(s: State): State
    requires Enabled(s, Work)
  {
    match s.pc
    case Test => s.(pc := if s.slot == None then Wait else CheckAlert)
    case Wait => s.(pc := Clear)
    case Clear => s.(event := false, pc := CheckAlert)
    case CheckAlert => s.(pc := if s.alerted then Stopped else Load)
    case Load => s.(pc := if s.slot == None then Test else Reset(s.slot.value))
    case Reset(irp) => s.(slot := None, pc := Handle(irp))
    case Handle(irp) => s.(handled := s.handled + [irp], pc := Test)
  }

  /** Posted and not handled yet, oldest first. */
  function Outstanding(s: State): seq<nat> {
    (if s.pc.Handle? then [s.pc.irp] else []) + (if s.slot == None then [] else [s.slot.value])
  }

  predicate Asleep(s: State) {
    s.pc == Wait && !s.event
  }

  predicate Inv(s: State) {
    && (s.pc == Clear ==> s.event)
    && (s.pc.Reset? ==> s.slot == Some(s.pc.irp))
    && (s.pc == Stopped ==> s.alerted)
    && (s.alerted && s.wakes == 0 ==> s.event || s.pc in {CheckAlert, Stopped})
    && (s.slot != None && s.wakes == 0 ==> !Asleep(s))
    && s.posted == s.handled + Outstanding(s)
  }

  lemma StepKeepsInv(s: State, step: Step)
    requires Inv(s) && Enabled(s, step)
    ensures Inv(Apply(s, step))
  {
    var s' := Apply(s, step);
    match step
    case Put(irp) =>
      assert s.handled + (Outstanding(s) + [irp]) == s.posted + [irp];
      assert Outstanding(s') == Outstanding(s) + [irp];
    case Work =>
      if s.pc.Handle? {
        assert Outstanding(s) == [s.pc.irp] + Outstanding(s');
        assert s.handled + ([s.pc.irp] + Outstanding(s')) == s'.handled + Outstanding(s');
      } else if s.pc.Reset? {
        assert Outstanding(s') == Outstanding(s);
      }
    case _ =>
  }

  ghost predicate Run(states: seq<State>, steps: seq<Step>) {
    && |states| == |steps| + 1
    && states[0] == Init()
    && forall i | 0 <= i < |steps| :: Enabled(states[i], steps[i]) && states[i + 1] == Apply(states[i], steps[i])
  }

  lemma {:induction false} RunKeepsInv(states: seq<State>, steps: seq<Step>, i: nat)
    requires Run(states, steps) && i < |states|
    ensures Inv(states[i])
  {
    if i > 0 {
      RunKeepsInv(states, steps, i - 1);
      assert Enabled(states[i - 1], steps[i - 1]);
      StepKeepsInv(states[i - 1], steps[i - 1]);
    }
  }

  /** Over every run: requests are handled in posting order, none twice; the worker sleeps on a
      clear event only if nothing is left to do or a setter has yet to wake it; and it stops only
      once alerted. */
  lemma NoRequestStranded(states: seq<State>, steps: seq<Step>, i: nat)
    requires Run(states, steps) && i < |states|
    ensures var s := states[i];
            && s.handled <= s.posted && |s.posted| <= |s.handled| + 2
            && (Asleep(s) && s.wakes == 0 ==> s.handled == s.posted && !s.alerted)
            && (s.pc == Stopped ==> s.alerted)
  {
    RunKeepsInv(states, steps, i);
    var s := states[i];
    if Asleep(s) && s.wakes == 0 {
      assert Outstanding(s) == [];
    }
  }

  // ----- Left to itself the worker comes to rest -----

  /** Own steps until it next sleeps or stops. */
  function Effort(s: State): nat {
    var rest := (if s.event then 16 else 0) + (if s.slot == None then 0 else 8);
    match s.pc
    case Stopped => 0
    case Clear => rest
    case Wait => rest + 1
    case Test => rest + if s.slot == None then 2 else 6
    case Handle(_) => rest + 7
    case CheckAlert => rest + 5
    case Load => rest + 4
    case Reset(_) => rest + 3
  }

  function Alone(s: State): State
    requires (s.pc == Clear ==> s.event) && (s.pc.Reset? ==> s.slot != None)
    decreases Effort(s)
  {
    if Enabled(s, Work) then Alone(Worker(s)) else s
  }

  /** Once every setter has woken it, the worker by itself ends asleep with every request handled,
      each once and in order, or, if alerted, stopped. */
  lemma {:induction false} ComesToRest(s: State)
    requires Inv(s) && s.wakes == 0
    ensures var e := Alone(s);
            && e.posted == s.posted && e.alerted == s.alerted && s.handled <= e.handled <= s.posted
            && (if s.alerted then e.pc == Stopped else e.pc == Wait && !e.event && e.handled == s.posted)
    decreases Effort(s)
  {
    if Enabled(s, Work) {
      StepKeepsInv(s, Work);
      ComesToRest(Worker(s));
    } else if s.pc == Wait {
      assert Outstanding(s) == [];
    }
  }
}
