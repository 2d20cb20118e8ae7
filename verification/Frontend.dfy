/** The Xenbus frontend: connecting and disconnecting the ring, the three handshakes, and
    FrontendSetState. Foreign calls succeed or fail, and the backend answers, in any way
    whatever; a handshake that is still waiting after `rounds` rounds reports that. */
module Frontend {
  import opened Handshake
  import opened Sequences

  // ----- The ring's connection half -----

  class Ring {
    var connected: bool
    var enabled: bool
    // Interface references, and what is obtained through them.
    var debugRefs: int
    var evtchnRefs: int
    var gnttabRefs: int
    var storeRefs: int
    var cache: bool
    var page: bool
    var grant: bool
    var channel: bool
    var callback: bool
    // What the debug callback reports.
    var dpcs: nat
    var events: nat
    var bytesRead: nat
    var bytesWritten: nat

    /** Holds nothing. */
    predicate Released()
      reads this
    {
      && !connected && debugRefs == evtchnRefs == gnttabRefs == storeRefs == 0
      && !cache && !page && !grant && !channel && !callback
    }

    /** Holds one reference to each interface and one of everything else. */
    predicate Held()
      reads this
    {
      && connected && debugRefs == evtchnRefs == gnttabRefs == storeRefs == 1
      && cache && page && grant && channel && callback
    }

    constructor ()
      ensures Released() && !enabled
    {
      connected, enabled := false, false;
      debugRefs, evtchnRefs, gnttabRefs, storeRefs := 0, 0, 0, 0;
      cache, page, grant, channel, callback := false, false, false, false, false;
      dpcs, events, bytesRead, bytesWritten := 0, 0, 0, 0;
    }

    /** RingConnect: everything if all ten steps work, and nothing if one fails. */
    method Connect(works: seq<bool>) returns (ok: bool)
      requires Released() && |works| == 10
      modifies this
      ensures if ok then Held() else Released()
      ensures enabled == old(enabled) && ok == (forall k | 0 <= k < 10 :: works[k])
    {
      var failed := 0;
      label ladder: {
        if !works[0] { failed := 1; break ladder; }
        debugRefs := debugRefs + 1;
        if !works[1] { failed := 2; break ladder; }
        evtchnRefs := evtchnRefs + 1;
        if !works[2] { failed := 3; break ladder; }
        gnttabRefs := gnttabRefs + 1;
        if !works[3] { failed := 4; break ladder; }
        storeRefs := storeRefs + 1;
        if !works[4] { failed := 5; break ladder; }      // format the cache name
        if !works[5] { failed := 6; break ladder; }
        cache := true;
        if !works[6] { failed := 7; break ladder; }
        page := true;
        if !works[7] { failed := 8; break ladder; }
        grant := true;
        if !works[8] { failed := 9; break ladder; }
        channel := true;
        if !works[9] { failed := 10; break ladder; }
        callback := true;
        connected := true;
        return true;
      }
      ok := false;
      if failed >= 10 { channel := false; }
      if failed >= 9 { grant := false; }
      if failed >= 8 { page := false; }
      if failed >= 7 { cache := false; }
      if failed >= 5 { storeRefs := storeRefs - 1; }
      if failed >= 4 { gnttabRefs := gnttabRefs - 1; }
      if failed >= 3 { evtchnRefs := evtchnRefs - 1; }
      if failed >= 2 { debugRefs := debugRefs - 1; }
    }

    /** RingDisconnect. */
    method Disconnect()
      requires Held()
      modifies this
      ensures Released() && enabled == old(enabled)
      ensures dpcs == events == bytesRead == bytesWritten == 0
    {
      connected := false;
      callback := false;
      dpcs, events, bytesRead, bytesWritten := 0, 0, 0, 0;
      channel := false;
      grant := false;
      page := false;
      cache := false;
      ReleaseInterfaces();
    }

    method ReleaseInterfaces()
      modifies this`storeRefs, this`gnttabRefs, this`evtchnRefs, this`debugRefs
      ensures storeRefs == old(storeRefs) - 1 && gnttabRefs == old(gnttabRefs) - 1
      ensures evtchnRefs == old(evtchnRefs) - 1 && debugRefs == old(debugRefs) - 1
    {
      storeRefs := storeRefs - 1;
      gnttabRefs := gnttabRefs - 1;
      evtchnRefs := evtchnRefs - 1;
      debugRefs := debugRefs - 1;
    }
  }

  // ----- States and the way between them -----

  datatype State = UNKNOWN | CLOSED | PREPARED | CONNECTED | ENABLED

  predicate Attached(s: State) {
    s == PREPARED || s == CONNECTED || s == ENABLED
  }

  predicate Linked(s: State) {
    s == CONNECTED || s == ENABLED
  }

  /** One turn of FrontendSetState's loop when its sub-operation succeeds. */
  function Turn(from: State, to: State): State
    requires from != to
  {
    match from
    case UNKNOWN => PREPARED
    case CLOSED => if to == UNKNOWN then UNKNOWN else PREPARED
    case PREPARED => if Linked(to) then CONNECTED else CLOSED
    case CONNECTED => if to == ENABLED then ENABLED else CLOSED
    case ENABLED => CONNECTED
  }

  /** Turns left to the target; the way down always passes through CLOSED. */
  function Distance(from: State, to: State): nat {
    if from == to then 0
    else match from
      case UNKNOWN => (match to case ENABLED => 3 case CONNECTED => 2 case CLOSED => 2 case _ => 1)
      case CLOSED => (match to case ENABLED => 3 case CONNECTED => 2 case _ => 1)
      case PREPARED => (match to case ENABLED => 2 case UNKNOWN => 2 case _ => 1)
      case CONNECTED => (match to case PREPARED => 2 case UNKNOWN => 2 case _ => 1)
      case ENABLED => (match to case PREPARED => 3 case UNKNOWN => 3 case CLOSED => 2 case _ => 1)
  }

  /** From every state, every target is exactly Distance turns away, at most three. */
  lemma TurnsReachTarget(from: State, to: State)
    ensures Distance(from, to) <= 3
    ensures from != to ==> Distance(Turn(from, to), to) == Distance(from, to) - 1
    ensures Distance(from, to) == 0 <==> from == to
  {
    match from {
      case UNKNOWN => case CLOSED => case PREPARED => case CONNECTED => case ENABLED =>
    }
  }

  /** By state: down goes through CONNECTED and CLOSED, up through PREPARED and CONNECTED. */
  lemma TurnByState(to: State)
    ensures to != UNKNOWN ==> Turn(UNKNOWN, to) == PREPARED
    ensures to != CLOSED ==> Turn(CLOSED, to) == if to == UNKNOWN then UNKNOWN else PREPARED
    ensures to != PREPARED ==> Turn(PREPARED, to) == if to == CONNECTED || to == ENABLED then CONNECTED else CLOSED
    ensures to != CONNECTED ==> Turn(CONNECTED, to) == if to == ENABLED then ENABLED else CLOSED
    ensures to != ENABLED ==> Turn(ENABLED, to) == CONNECTED
  {
  }

  // ----- What the foreign calls do -----

  /** How one transaction of FrontendConnect goes: it cannot be started, the ring's details cannot
      be written, the store asks for a retry, refuses, or accepts. */
  datatype Attempt = NotStarted | NotWritten | Busy | Refused | Accepted

  /** The calls of one FrontendPrepare and one FrontendConnect. */
  datatype Calls = Calls(store: bool, path: bool, watch: bool, debug: bool, callback: bool,
                         ring: seq<bool>, attempts: seq<Attempt>)

  type World = c: Calls | |c.ring| == 10 && |c.attempts| == 11
    witness Calls(true, true, true, true, true, seq(10, _ => true), seq(11, _ => Accepted))

  predicate PrepareWorks(c: World) {
    c.store && c.path && c.watch
  }

  /** One of the first eleven attempts is accepted, and all before it are busy. */
  predicate StoreAccepts(attempts: seq<Attempt>)
    requires |attempts| == 11
  {
    exists k :: 0 <= k < 11 && attempts[k] == Accepted && forall j | 0 <= j < k :: attempts[j] == Busy
  }

  predicate RingWorks(c: World) {
    forall k | 0 <= k < 10 :: c.ring[k]
  }

  predicate ConnectWorks(c: World) {
    c.debug && c.callback && RingWorks(c) && StoreAccepts(c.attempts)
  }

  datatype Outcome = Reached | Failed | StillWaiting

  // ----- The frontend -----

  /** Neither reads nor commits. */
  ghost predicate Quiet(t: Trace, t': Trace) {
    LastRead(t') == LastRead(t) && Committed(t') == Committed(t)
  }

  class Frontend {
    const ring: Ring
    var state: State
    var online: bool
    var watch: bool
    var backendPath: bool
    var name: bool
    var protocol: bool
    var debugRefs: int
    var debugCallback: bool
    var storeRefs: int
    /** References of the console ABI, and what the first of them registers. */
    var references: int
    var suspendRefs: int
    var suspendCallback: bool
    var ejectRequests: nat
    ghost var trace: Trace

    /** The trace is safe and agrees with the fields. */
    ghost predicate Told()
      reads this
    {
      Safe(trace) && Online(trace) == online
    }

    /** Held between FrontendPrepare and FrontendClose. */
    predicate HoldsBackend()
      reads this
    {
      watch && backendPath && storeRefs == 1
    }

    predicate NoBackend()
      reads this
    {
      !watch && !backendPath && storeRefs == 0
    }

    /** Held between FrontendConnect and FrontendDisconnect. */
    predicate HoldsLink()
      reads this, ring
    {
      ring.Held() && debugRefs == 1 && debugCallback
    }

    predicate NoLink()
      reads this, ring
    {
      ring.Released() && debugRefs == 0 && !debugCallback && !name && !protocol
    }

    /** Resources follow the state. */
    ghost predicate Valid()
      reads this, ring
    {
      && Told()
      && (if Attached(state) then HoldsBackend() && online else NoBackend())
      && (if Linked(state) then HoldsLink() && Committed(trace) else NoLink() && !Committed(trace))
      && (ring.enabled <==> state == ENABLED)
    }

    constructor (ring: Ring)
      requires ring.Released() && !ring.enabled
      ensures Valid() && this.ring == ring && state == UNKNOWN && references == suspendRefs == 0 && !suspendCallback
    {
      this.ring := ring;
      state, online, watch, backendPath, name, protocol := UNKNOWN, false, false, false, false, false;
      debugRefs, debugCallback, storeRefs := 0, false, 0;
      references, suspendRefs, suspendCallback, ejectRequests, trace := 0, 0, false, 0, [];
    }

    ghost method Record(e: Event)
      requires Told() && Allowed(trace, e) && !e.GoOnline? && !e.GoOffline?
      modifies this`trace
      ensures Told() && trace == old(trace) + [e]
      ensures LastRead(trace) == if e.Read? then e.state else LastRead(old(trace))
      ensures Committed(trace) == (e.Commit? || (!e.Revoke? && Committed(old(trace))))
    {
      Append(trace, e);
      trace := trace + [e];
    }

    /** FrontendSetOnline. */
    method SetOnline()
      requires Told()
      modifies this`online, this`trace
      ensures Told() && online && trace == old(trace) + [GoOnline]
      ensures Quiet(old(trace), trace)
    {
      Append(trace, GoOnline);
      trace := trace + [GoOnline];
      online := true;
    }

    /** FrontendSetOffline: also asks for the device to be ejected. */
    method SetOffline()
      requires Told()
      modifies this`online, this`ejectRequests, this`trace
      ensures Told() && !online && trace == old(trace) + [GoOffline]
      ensures ejectRequests == old(ejectRequests) + 1
      ensures Quiet(old(trace), trace)
    {
      Append(trace, GoOffline);
      trace := trace + [GoOffline];
      online := false;
      ejectRequests := ejectRequests + 1;
    }

    /** FrontendSetXenbusState: publish, and on Closed to a backend that is gone, go off line. */
    method SetXenbusState(s: XenbusState, backendOnline: bool)
      requires Told() && online && Allowed(trace, Publish(s))
      modifies this`online, this`ejectRequests, this`trace
      ensures Told() && online == (s != Closed || backendOnline)
      ensures trace == old(trace) + if online then [Publish(s)] else [Publish(s), GoOffline]
      ensures ejectRequests == old(ejectRequests) + (if online then 0 else 1)
      ensures LastRead(trace) == LastRead(old(trace)) && Committed(trace) == Committed(old(trace))
    {
      ghost var t := trace;
      Record(Publish(s));
      if s == Closed && !backendOnline {
        SetOffline();
        assert t + [Publish(s)] + [GoOffline] == t + [Publish(s), GoOffline];
      }
    }

    /** FrontendWaitForBackendXenbusStateChange: read at least once, and again until the state
        differs from `old_` or time runs out, `patience` reads later. A read that fails counts as
        Unknown. */
    method AwaitChange(old_: XenbusState, patience: nat) returns (s: XenbusState, ghost polls: nat)
      requires Told() && online
      modifies this`trace
      ensures Told() && LastRead(trace) == s && Committed(trace) == Committed(old(trace))
      ensures trace == old(trace) + Polls(old_, polls) + [Read(s)]
      ensures polls <= patience && (s == old_ ==> polls == patience)
    {
      s, polls := *, 0;
      var left := patience;
      ghost var t := trace;
      assert t + Polls(old_, 0) == t;
      Record(Read(s));
      while s == old_ && left > 0
        invariant Told() && LastRead(trace) == s && Committed(trace) == Committed(t)
        invariant trace == t + Polls(old_, polls) + [Read(s)] && 0 <= polls && polls + left == patience
      {
        s := *;
        polls := polls + 1;
        Record(Read(s));
        left := left - 1;
        assert t + Polls(old_, polls - 1) + [Read(old_)] == t + Polls(old_, polls);
      }
    }

    // ----- Closing -----

    /** The handshake of FrontendClose: announce Closing, then Closed, until the backend is
        Closed; being off line ends it. */
    method AwaitClosed(rounds: nat) returns (returned: bool, ghost talk: seq<Round>)
      requires Told()
      modifies this`online, this`ejectRequests, this`trace
      ensures Told() && (online ==> old(online)) && Committed(trace) == Committed(old(trace))
      ensures trace == old(trace) + Talk(talk) && AllFit(ToClose, talk)
      ensures returned && online ==> LastRead(trace) == Closed
      ensures !returned ==> |talk| == rounds
      ensures Answered(old(trace), trace, Read(Closing), Publish(Closed))
      ensures Answered(old(trace), trace, Read(Connected), Publish(Closing))
    {
      ghost var t := trace;
      var s: XenbusState, left: nat := Unknown, rounds;
      talk, returned := [], true;
      while s != Closed && online && returned
        invariant Told() && (online ==> old(online)) && Committed(trace) == Committed(t)
        invariant trace == t + Talk(talk) && AllFit(ToClose, talk)
        invariant Heard(talk) == s && left + |talk| == rounds && (!returned ==> left == 0)
        invariant s == Closed ==> LastRead(trace) == Closed
        decreases left, returned
      {
        if left == 0 {
          returned := false;
        } else {
          left := left - 1;
          ghost var r;
          s, r := CloseRound(s);
          TalkSnoc(t, talk, r);
          AllFitSnoc(ToClose, talk, r);
          talk := talk + [r];
        }
      }
      ClosingAnswers(t, talk, Closing);
      ClosingAnswers(t, talk, Connected);
    }

    method CloseRound(old_: XenbusState) returns (s: XenbusState, ghost r: Round)
      requires Told() && online
      modifies this`online, this`ejectRequests, this`trace
      ensures Told() && Committed(trace) == Committed(old(trace)) && LastRead(trace) == s
      ensures r.state == s && Fits(ToClose, r)
      ensures trace == old(trace) + Polls(old_, r.polls) + [Read(s)] + r.reply
    {
      var patience: nat, backendOnline: bool := *, *;
      ghost var polls;
      s, polls := AwaitChange(old_, patience);
      ghost var read := trace;
      match s {
        case Closing => SetXenbusState(Closed, backendOnline);
        case Closed => assert read == read + [];
        case _ => SetXenbusState(Closing, backendOnline);
      }
      ghost var reply := if s == Closed then [] else if s != Closing then [Publish(Closing)]
                         else if backendOnline then [Publish(Closed)] else [Publish(Closed), GoOffline];
      r := Round(polls, s, reply);
    }

    /** FrontendClose. On return the backend is released, and it was last read as Closed unless
        the frontend went off line. */
    method Close(rounds: nat) returns (returned: bool, ghost talk: seq<Round>)
      requires Told() && HoldsBackend()
      modifies this`watch, this`backendPath, this`storeRefs, this`online, this`ejectRequests, this`trace
      ensures Told() && (online ==> old(online)) && Committed(trace) == Committed(old(trace))
      ensures trace == old(trace) + Talk(talk) && AllFit(ToClose, talk)
      ensures returned ==> NoBackend() && (online ==> LastRead(trace) == Closed)
      ensures !returned ==> |talk| == rounds
    {
      watch := false;
      returned, talk := AwaitClosed(rounds);
      if returned {
        backendPath := false;
        storeRefs := storeRefs - 1;
      }
    }

    // ----- Preparing -----

    /** The handshake of FrontendPrepare: wait for InitWait, announcing Initialising. */
    method AwaitInitWait(rounds: nat) returns (outcome: Outcome, ghost talk: seq<Round>)
      requires Told() && online
      modifies this`online, this`ejectRequests, this`trace
      ensures Told() && Committed(trace) == Committed(old(trace))
      ensures trace == old(trace) + Talk(talk) && AllFit(ToPrepare, talk)
      ensures outcome == Reached ==> online && LastRead(trace) == InitWait
      ensures outcome == Failed ==> !online && Heard(talk) == Closed
      ensures outcome == StillWaiting ==> |talk| == rounds
      ensures Answered(old(trace), trace, Read(Closed), Publish(Closed))
      ensures Answered(old(trace), trace, Read(Initialising), Publish(Initialising))
    {
      ghost var t := trace;
      var s: XenbusState, left: nat := Unknown, rounds;
      talk, outcome := [], Reached;
      while s != InitWait && outcome == Reached
        invariant Told() && Committed(trace) == Committed(t)
        invariant trace == t + Talk(talk) && AllFit(ToPrepare, talk)
        invariant Heard(talk) == s && left + |talk| == rounds
        invariant s == InitWait ==> outcome == Reached && online && LastRead(trace) == InitWait
        invariant !online ==> s == Closed
        invariant (outcome == Failed ==> !online) && (outcome == StillWaiting ==> left == 0)
        decreases left, outcome == Reached
      {
        if !online {
          outcome := Failed;
        } else if left == 0 {
          outcome := StillWaiting;
        } else {
          left := left - 1;
          ghost var r;
          s, r := PrepareRound(s);
          TalkSnoc(t, talk, r);
          AllFitSnoc(ToPrepare, talk, r);
          talk := talk + [r];
        }
      }
      PreparingAnswers(t, talk, Closed);
      PreparingAnswers(t, talk, Initialising);
    }

    /** What FrontendPrepare does about a backend found Closed. */
    method GiveUp(backendOnline: bool)
      requires Told() && online && LastRead(trace) == Closed
      modifies this`online, this`ejectRequests, this`trace
      ensures Told() && !online && LastRead(trace) == Closed && Committed(trace) == Committed(old(trace))
      ensures trace == old(trace) + if backendOnline then [Publish(Closed), GoOffline]
                                    else [Publish(Closed), GoOffline, GoOffline]
    {
      ghost var t := trace;
      SetXenbusState(Closed, backendOnline);
      SetOffline();
      assert t + [Publish(Closed)] + [GoOffline] == t + [Publish(Closed), GoOffline];
      assert t + [Publish(Closed), GoOffline] + [GoOffline] == t + [Publish(Closed), GoOffline, GoOffline];
    }

    method PrepareRound(old_: XenbusState) returns (s: XenbusState, ghost r: Round)
      requires Told() && online
      modifies this`online, this`ejectRequests, this`trace
      ensures Told() && Committed(trace) == Committed(old(trace)) && LastRead(trace) == s
      ensures r.state == s && Fits(ToPrepare, r) && online == (s != Closed)
      ensures trace == old(trace) + Polls(old_, r.polls) + [Read(s)] + r.reply
    {
      var patience: nat, backendOnline: bool := *, *;
      ghost var polls;
      s, polls := AwaitChange(old_, patience);
      ghost var read := trace;
      match s {
        case InitWait => assert read == read + [];
        case Closed => GiveUp(backendOnline);
        case _ => SetXenbusState(Initialising, backendOnline);
      }
      ghost var reply := if s == InitWait then [] else if s != Closed then [Publish(Initialising)]
                         else if backendOnline then [Publish(Closed), GoOffline]
                         else [Publish(Closed), GoOffline, GoOffline];
      r := Round(polls, s, reply);
    }

    /** FrontendPrepare between going on line and its last two ways out. */
    method PrepareOnline(rounds: nat, calls: World) returns (outcome: Outcome, ghost talk: seq<Round>)
      requires Told() && online && !watch && !backendPath
      modifies this`watch, this`backendPath, this`online, this`ejectRequests, this`trace
      ensures Told() && Committed(trace) == Committed(old(trace))
      ensures trace == old(trace) + Talk(talk) && AllFit(ToPrepare, talk)
      ensures outcome == Reached ==> watch && backendPath && online && LastRead(trace) == InitWait
      ensures outcome == Reached ==> calls.path && calls.watch
      ensures outcome == Failed ==> !watch && !backendPath && (!calls.path || !calls.watch || Heard(talk) == Closed)
      ensures outcome == StillWaiting ==> |talk| == rounds
    {
      talk := [];
      if !calls.path {
        return Failed, talk;
      }
      backendPath := true;
      outcome, talk := AwaitInitWait(rounds);
      if outcome == StillWaiting {
        return;
      }
      if outcome == Reached && calls.watch {
        watch := true;
        return;
      }
      backendPath := false;
      outcome := Failed;
    }

    /** FrontendPrepare: it works if its calls do and the backend is not found Closed. */
    method Prepare(rounds: nat, calls: World) returns (outcome: Outcome, ghost talk: seq<Round>)
      requires Told() && NoBackend()
      modifies this`watch, this`backendPath, this`storeRefs, this`online, this`ejectRequests, this`trace
      ensures Told() && Committed(trace) == Committed(old(trace))
      ensures AllFit(ToPrepare, talk)
      ensures !calls.store ==> trace == old(trace)
      ensures calls.store ==>
                trace == old(trace) + ([GoOnline] + Talk(talk)) + (if outcome == Failed then [GoOffline] else [])
      ensures outcome == Reached ==> HoldsBackend() && online && LastRead(trace) == InitWait && PrepareWorks(calls)
      ensures outcome == Failed ==> NoBackend() && (calls.store ==> !online) && (!calls.store ==> online == old(online))
      ensures outcome == Failed ==> !PrepareWorks(calls) || Heard(talk) == Closed
      ensures outcome == StillWaiting ==> |talk| == rounds && calls.store
    {
      talk := [];
      if !calls.store {
        return Failed, talk;
      }
      storeRefs := storeRefs + 1;
      outcome, talk := GoOnlineAndPrepare(rounds, calls);
      if outcome == Failed {
        storeRefs := storeRefs - 1;
      }
    }

    method GoOnlineAndPrepare(rounds: nat, calls: World) returns (outcome: Outcome, ghost talk: seq<Round>)
      requires Told() && !watch && !backendPath
      modifies this`watch, this`backendPath, this`online, this`ejectRequests, this`trace
      ensures Told() && Committed(trace) == Committed(old(trace)) && AllFit(ToPrepare, talk)
      ensures trace == old(trace) + ([GoOnline] + Talk(talk)) + (if outcome == Failed then [GoOffline] else [])
      ensures outcome == Reached ==> watch && backendPath && online && LastRead(trace) == InitWait
      ensures outcome == Reached ==> calls.path && calls.watch
      ensures outcome == Failed ==>
                !watch && !backendPath && !online && (!calls.path || !calls.watch || Heard(talk) == Closed)
      ensures outcome == StillWaiting ==> |talk| == rounds
    {
      SetOnline();
      outcome, talk := PrepareOnline(rounds, calls);
      Assoc(old(trace), [GoOnline], Talk(talk));
      if outcome == Failed {
        SetOffline();
      }
    }

    // ----- Connecting -----

    /** The transaction loop of FrontendConnect: port and ring-ref written and committed
        together, retried while the store is busy, eleven times at most. */
    method StoreRing(answers: seq<Attempt>) returns (ok: bool, attempts: nat)
      requires Told() && online && !Committed(trace) && |answers| == 11
      modifies this`trace
      ensures Told() && ok == Committed(trace) && ok == StoreAccepts(answers)
      ensures attempts <= 11 && forall j | 0 <= j < attempts - 1 :: answers[j] == Busy
      ensures !ok && attempts < 11 ==>
                answers[attempts] == NotStarted || (attempts > 0 && answers[attempts - 1] != Busy)
      ensures trace == old(trace) + (if ok then [Commit] else [])
    {
      attempts := 0;
      ok := false;
      var retry := true;
      while retry
        invariant Told() && ok == Committed(trace) && trace == old(trace) + (if ok then [Commit] else [])
        invariant attempts <= 11 && (retry ==> attempts <= 10 && !ok)
        invariant forall j | 0 <= j < attempts - 1 :: answers[j] == Busy
        invariant retry && attempts > 0 ==> answers[attempts - 1] == Busy
        invariant ok ==> attempts > 0 && answers[attempts - 1] == Accepted
        invariant !retry && !ok ==> attempts > 0 && answers[attempts - 1] != Accepted
        invariant !retry && !ok && attempts < 11 ==> answers[attempts - 1] != Busy
        decreases 11 - attempts, retry
      {
        var answer := answers[attempts];
        if answer == NotStarted {
          return;
        }
        attempts := attempts + 1;
        ok := answer == Accepted;
        if ok {
          Record(Commit);
        }
        retry := answer == Busy && attempts <= 10;
      }
    }

    /** The handshake of FrontendConnect: announce Connected to a backend in InitWait and wait
        for its Connected. */
    method AwaitConnected(rounds: nat) returns (outcome: Outcome, ghost talk: seq<Round>)
      requires Told() && online && Committed(trace)
      modifies this`online, this`ejectRequests, this`trace
      ensures Told() && Committed(trace)
      ensures trace == old(trace) + Talk(talk) && AllFit(ToConnect, talk)
      ensures outcome == Reached ==> online && LastRead(trace) == Connected
      ensures outcome == Failed ==> !online && talk != [] && Heard(talk) in {Unknown, Closing, Closed}
      ensures outcome == StillWaiting ==> |talk| == rounds
      ensures Answered(old(trace), trace, Read(InitWait), Publish(Connected))
      ensures Answered(old(trace), trace, Read(Closing), GoOffline)
      ensures Answered(old(trace), trace, Read(Closed), GoOffline)
    {
      ghost var t := trace;
      var s: XenbusState, left: nat := Unknown, rounds;
      talk, outcome := [], Reached;
      while s != Connected && outcome == Reached
        invariant Told() && Committed(trace)
        invariant trace == t + Talk(talk) && AllFit(ToConnect, talk)
        invariant Heard(talk) == s && left + |talk| == rounds
        invariant s == Connected ==> outcome == Reached && online && LastRead(trace) == Connected
        invariant !online ==> talk != [] && s in {Unknown, Closing, Closed}
        invariant (outcome == Failed ==> !online) && (outcome == StillWaiting ==> left == 0)
        decreases left, outcome == Reached
      {
        if !online {
          outcome := Failed;
        } else if left == 0 {
          outcome := StillWaiting;
        } else {
          left := left - 1;
          ghost var r;
          s, r := ConnectRound(s);
          TalkSnoc(t, talk, r);
          AllFitSnoc(ToConnect, talk, r);
          talk := talk + [r];
        }
      }
      ConnectingAnswers(t, talk, InitWait);
      ConnectingAnswers(t, talk, Closing);
      ConnectingAnswers(t, talk, Closed);
    }

    method ConnectRound(old_: XenbusState) returns (s: XenbusState, ghost r: Round)
      requires Told() && online && Committed(trace)
      modifies this`online, this`ejectRequests, this`trace
      ensures Told() && Committed(trace) && LastRead(trace) == s
      ensures r.state == s && Fits(ToConnect, r) && online == (s !in {Unknown, Closing, Closed})
      ensures trace == old(trace) + Polls(old_, r.polls) + [Read(s)] + r.reply
    {
      var patience: nat, backendOnline: bool := *, *;
      ghost var polls;
      s, polls := AwaitChange(old_, patience);
      ghost var read := trace;
      match s {
        case InitWait => SetXenbusState(Connected, backendOnline);
        case Connected =>
        case Unknown => SetOffline();
        case Closing => SetOffline();
        case Closed => SetOffline();
        case _ =>
      }
      assert read == read + [];
      ghost var reply := if s == InitWait then [Publish(Connected)]
                         else if s in {Unknown, Closing, Closed} then [GoOffline] else [];
      r := Round(polls, s, reply);
    }

    /** FrontendConnect once the ring is there: its details in the store, and the handshake. */
    method StoreAndAwait(rounds: nat, answers: seq<Attempt>) returns (outcome: Outcome, ghost talk: seq<Round>)
      requires Told() && online && !Committed(trace) && |answers| == 11
      modifies this`online, this`ejectRequests, this`trace
      ensures Told() && AllFit(ToConnect, talk) && Committed(trace) == StoreAccepts(answers)
      ensures trace == old(trace) + if StoreAccepts(answers) then [Commit] + Talk(talk) else []
      ensures outcome == Reached ==> StoreAccepts(answers) && online && LastRead(trace) == Connected
      ensures outcome == Failed && StoreAccepts(answers) ==>
                !online && talk != [] && Heard(talk) in {Unknown, Closing, Closed}
      ensures outcome == StillWaiting ==> StoreAccepts(answers) && |talk| == rounds
    {
      talk := [];
      var ok, attempts := StoreRing(answers);
      if !ok {
        return Failed, talk;
      }
      outcome, talk := AwaitConnected(rounds);
      Assoc(old(trace), [Commit], Talk(talk));
    }

    /** FrontendConnect once the debug callback is there. */
    method ConnectRing(rounds: nat, calls: World) returns (outcome: Outcome, ghost talk: seq<Round>)
      requires Told() && online && ring.Released() && !Committed(trace)
      modifies this`online, this`ejectRequests, this`trace, ring
      ensures Told() && ring.enabled == old(ring.enabled) && AllFit(ToConnect, talk)
      ensures outcome == Reached ==> ring.Held() && online && Committed(trace) && LastRead(trace) == Connected
      ensures outcome == Failed ==> ring.Released() && !Committed(trace)
      ensures trace == old(trace)
                       + (if RingWorks(calls) && StoreAccepts(calls.attempts) then [Commit] + Talk(talk) else [])
                       + (if RingWorks(calls) && outcome == Failed then [Revoke] else [])
      ensures outcome != Failed ==> RingWorks(calls) && StoreAccepts(calls.attempts)
      ensures outcome == Failed && RingWorks(calls) && StoreAccepts(calls.attempts) ==>
                talk != [] && Heard(talk) in {Unknown, Closing, Closed}
      ensures outcome == StillWaiting ==> |talk| == rounds
    {
      talk := [];
      var ok := ring.Connect(calls.ring);
      if !ok {
        return Failed, talk;
      }
      outcome, talk := StoreAndAwait(rounds, calls.attempts);
      if outcome == Failed {
        ring.Disconnect();
        Record(Revoke);
      }
    }

    /** FrontendConnect: it works if its calls do and the backend is not found gone. */
    method Connect(rounds: nat, calls: World) returns (outcome: Outcome, ghost talk: seq<Round>)
      requires Told() && online && NoLink() && !Committed(trace)
      modifies this`debugRefs, this`debugCallback, this`name, this`protocol
      modifies this`online, this`ejectRequests, this`trace, ring
      ensures Told() && ring.enabled == old(ring.enabled) && old(trace) <= trace
      ensures outcome == Reached ==>
                HoldsLink() && online && Committed(trace) && LastRead(trace) == Connected && ConnectWorks(calls)
      ensures outcome == Failed ==> NoLink() && !Committed(trace)
      ensures outcome == Failed ==> !ConnectWorks(calls) || (talk != [] && Heard(talk) in {Unknown, Closing, Closed})
      ensures outcome == StillWaiting ==> |talk| == rounds && ConnectWorks(calls)
      ensures ConnectWorks(calls) ==>
                && AllFit(ToConnect, talk)
                && trace == old(trace) + ([Commit] + Talk(talk)) + (if outcome == Failed then [Revoke] else [])
    {
      talk := [];
      if !calls.debug {
        return Failed, talk;
      }
      debugRefs := debugRefs + 1;
      outcome := Failed;
      if calls.callback {
        debugCallback := true;
        outcome, talk := ConnectRing(rounds, calls);
        if outcome == Reached {
          name, protocol := *, *;            // whichever of the two could be read and copied
          return;
        }
        if outcome == StillWaiting {
          return;
        }
        debugCallback := false;
      }
      debugRefs := debugRefs - 1;
    }

    /** FrontendDisconnect. */
    method Disconnect()
      requires Told() && HoldsLink() && Allowed(trace, Revoke)
      modifies this`debugRefs, this`debugCallback, this`name, this`protocol, this`trace, ring
      ensures Told() && NoLink() && !Committed(trace) && ring.enabled == old(ring.enabled)
      ensures trace == old(trace) + [Revoke]
    {
      protocol := false;
      name := false;
      ring.Disconnect();
      Record(Revoke);
      debugCallback := false;
      debugRefs := debugRefs - 1;
    }

    // ----- FrontendSetState -----

    /** One turn of FrontendSetState's loop: the state's branch of its switch. Each arm the
        source marks ASSERT(FALSE) has source and target equal, which the loop excludes. */
    method TakeTurn(target: State, rounds: nat, calls: World) returns (outcome: Outcome)
      requires Valid() && state != target
      modifies this`state, this`watch, this`backendPath, this`storeRefs, this`online, this`ejectRequests
      modifies this`debugRefs, this`debugCallback, this`name, this`protocol, this`trace, ring
      ensures Told() && old(trace) <= trace
      ensures outcome != StillWaiting ==> Valid()
      ensures outcome == Reached ==> state == Turn(old(state), target)
      ensures outcome == Failed ==> state in {UNKNOWN, CLOSED} && target != UNKNOWN
      ensures outcome == Failed ==> !PrepareWorks(calls) || !ConnectWorks(calls) || Gone(old(trace), trace)
      ensures outcome == StillWaiting ==> Reads(trace) >= Reads(old(trace)) + rounds
    {
      match state {
        case UNKNOWN => outcome := TurnPrepare(rounds, calls);
        case CLOSED =>
          if target == UNKNOWN {
            state, outcome := UNKNOWN, Reached;
          } else {
            outcome := TurnPrepare(rounds, calls);
          }
        case PREPARED =>
          if Linked(target) {
            outcome := TurnConnect(rounds, calls);
          } else {
            outcome := TurnClose(rounds);
          }
        case CONNECTED =>
          if target == ENABLED {
            ring.enabled := true;            // RingEnable always succeeds
            state, outcome := ENABLED, Reached;
          } else {
            outcome := TurnClose(rounds);
          }
        case ENABLED =>
          ring.enabled := false;
          state, outcome := CONNECTED, Reached;
      }
    }

    method TurnPrepare(rounds: nat, calls: World) returns (outcome: Outcome)
      requires Valid() && state in {UNKNOWN, CLOSED}
      modifies this`state, this`watch, this`backendPath, this`storeRefs, this`online, this`ejectRequests, this`trace
      ensures Told() && (outcome != StillWaiting ==> Valid()) && old(trace) <= trace
      ensures outcome == Failed ==> !PrepareWorks(calls) || Gone(old(trace), trace)
      ensures outcome == StillWaiting ==> Reads(trace) >= Reads(old(trace)) + rounds
      ensures state == if outcome == Reached then PREPARED else old(state)
    {
      ghost var talk;
      ghost var t := trace;
      outcome, talk := Prepare(rounds, calls);
      if calls.store {
        TalkInside(t, [GoOnline], talk, if outcome == Failed then [GoOffline] else []);
      }
      if outcome == Reached {
        state := PREPARED;
      }
    }

    method TurnConnect(rounds: nat, calls: World) returns (outcome: Outcome)
      requires Valid() && state == PREPARED
      modifies this`state, this`watch, this`backendPath, this`storeRefs, this`online, this`ejectRequests
      modifies this`debugRefs, this`debugCallback, this`name, this`protocol, this`trace, ring
      ensures Told() && (outcome != StillWaiting ==> Valid()) && old(trace) <= trace
      ensures outcome == Failed ==> !ConnectWorks(calls) || Gone(old(trace), trace)
      ensures outcome == StillWaiting ==> Reads(trace) >= Reads(old(trace)) + rounds
      ensures outcome == Reached ==> state == CONNECTED
      ensures outcome == Failed ==> state == CLOSED
    {
      ghost var talk, t := [], trace;
      outcome, talk := Connect(rounds, calls);
      ghost var before := trace;
      if ConnectWorks(calls) {
        TalkInside(t, [Commit], talk, if outcome == Failed then [Revoke] else []);
      }
      if outcome == Reached {
        state := CONNECTED;
      } else if outcome == Failed {
        var returned;
        returned, talk := Close(rounds);
        TalkAlone(before, talk);
        ReadsGrow(t, before);
        if Gone(t, before) {
          GoneLater(t, t, before, trace);
        }
        if returned { state := CLOSED; } else { outcome := StillWaiting; }
      }
    }

    /** FrontendClose, and FrontendDisconnect when there is a link to take down. */
    method TurnClose(rounds: nat) returns (outcome: Outcome)
      requires Valid() && state in {PREPARED, CONNECTED}
      modifies this`state, this`watch, this`backendPath, this`storeRefs, this`online, this`ejectRequests
      modifies this`debugRefs, this`debugCallback, this`name, this`protocol, this`trace, ring
      ensures Told() && (outcome != StillWaiting ==> Valid()) && outcome != Failed && old(trace) <= trace
      ensures outcome == Reached ==> state == CLOSED
      ensures outcome == StillWaiting ==> Reads(trace) >= Reads(old(trace)) + rounds
    {
      ghost var t := trace;
      var returned;
      ghost var talk;
      returned, talk := Close(rounds);
      TalkAlone(t, talk);
      if !returned {
        return StillWaiting;
      }
      var linked := state == CONNECTED;
      state := CLOSED;
      if linked {
        Disconnect();
      }
      outcome := Reached;
    }

    /** FrontendSetState. It takes exactly the turns Distance promises, reaches the target or
        stops at UNKNOWN or CLOSED, fails only if a foreign call did or the backend was read as
        gone, and never on the way to UNKNOWN. */
    method SetState(target: State, rounds: nat, calls: World) returns (outcome: Outcome, turns: nat)
      requires Valid()
      modifies this`state, this`watch, this`backendPath, this`storeRefs, this`online, this`ejectRequests
      modifies this`debugRefs, this`debugCallback, this`name, this`protocol, this`trace, ring
      ensures Told() && turns <= Distance(old(state), target) <= 3 && old(trace) <= trace
      ensures outcome != StillWaiting ==> Valid()
      ensures outcome == Reached ==> state == target && turns == Distance(old(state), target)
      ensures outcome == Failed ==> state in {UNKNOWN, CLOSED} && target != UNKNOWN
      ensures outcome == Failed ==> !PrepareWorks(calls) || !ConnectWorks(calls) || Gone(old(trace), trace)
      ensures outcome == StillWaiting ==> Reads(trace) >= Reads(old(trace)) + rounds
    {
      ghost var t := trace;
      turns := 0;
      outcome := Reached;
      TurnsReachTarget(state, target);
      while state != target
        invariant Valid() && outcome == Reached && t <= trace
        invariant turns + Distance(state, target) == Distance(old(state), target)
        decreases Distance(state, target)
      {
        TurnsReachTarget(state, target);
        turns := turns + 1;
        ghost var before := trace;
        outcome := TakeTurn(target, rounds, calls);
        ReadsGrow(t, before);
        if Gone(before, trace) {
          GoneLater(t, before, trace, trace);
        }
        if outcome != Reached {
          return;
        }
      }
    }

    // ----- Suspend, resume and the console ABI -----

    /** The first ABI reference registers for suspend; without one the frontend is UNKNOWN. */
    ghost predicate Registered()
      reads this, ring
    {
      && Valid() && references >= 0
      && (references == 0 ==> state == UNKNOWN)
      && suspendRefs == (if references == 0 then 0 else 1)
      && (suspendCallback <==> references != 0)
    }

    /** FrontendSuspendCallback: bring the frontend down; __FrontendResume's assertion holds. */
    method SuspendCallback(rounds: nat) returns (returned: bool)
      requires Registered()
      modifies this`state, this`watch, this`backendPath, this`storeRefs, this`online, this`ejectRequests
      modifies this`debugRefs, this`debugCallback, this`name, this`protocol, this`trace, ring
      ensures returned ==> Registered() && state == UNKNOWN
      ensures !returned ==> Reads(trace) >= Reads(old(trace)) + rounds
    {
      var calls: World := *;
      var outcome, _ := SetState(UNKNOWN, rounds, calls);
      returned := outcome != StillWaiting;
      if returned {
        assert state == UNKNOWN;
      }
    }

    /** FrontendAbiAcquire, up to its wait for the eject thread. */
    method AbiAcquire(acquires: bool, registers: bool) returns (ok: bool)
      requires Registered()
      modifies this`references, this`suspendRefs, this`suspendCallback
      ensures Registered() && references == old(references) + (if ok then 1 else 0)
      ensures ok == (old(references) > 0 || (acquires && registers))
    {
      references := references + 1;
      if references != 1 {
        return true;
      }
      if acquires {
        suspendRefs := suspendRefs + 1;
        assert state == UNKNOWN;             // __FrontendResume
        if registers {
          suspendCallback := true;
          return true;
        }
        suspendRefs := suspendRefs - 1;      // __FrontendSuspend finds nothing to do
      }
      references := references - 1;
      ok := false;
    }

    /** FrontendAbiRelease: the last reference brings the frontend down. */
    method AbiRelease(rounds: nat) returns (returned: bool)
      requires Registered() && references > 0
      modifies this`references, this`suspendRefs, this`suspendCallback
      modifies this`state, this`watch, this`backendPath, this`storeRefs, this`online, this`ejectRequests
      modifies this`debugRefs, this`debugCallback, this`name, this`protocol, this`trace, ring
      ensures returned ==> Registered() && references == old(references) - 1
      ensures returned && references > 0 ==> state == old(state)
      ensures !returned ==> Reads(trace) >= Reads(old(trace)) + rounds
    {
      references := references - 1;
      if references != 0 {
        return true;
      }
      suspendCallback := false;
      var calls: World := *;
      var outcome, _ := SetState(UNKNOWN, rounds, calls);
      if outcome == StillWaiting {
        return false;
      }
      suspendRefs := suspendRefs - 1;
      returned := true;
    }
  }
}
