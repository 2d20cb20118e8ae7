/** The conversation between the frontend and a remote backend through the store, as a trace of
    events, and what it means for a trace to be safe. */
module Handshake {

  /** XenbusState; a stored number outside the enumeration reads as Invalid. */
  datatype XenbusState =
    | Unknown | Initialising | InitWait | Initialised | Connected | Closing | Closed
    | Reconfiguring | Reconfigured | Invalid

  /** What happens at the frontend: it reads the backend's state, writes its own, commits port
      and ring-ref in one transaction, takes the ring away, and goes on or off line. */
  datatype Event =
    | Read(state: XenbusState)
    | Publish(state: XenbusState)
    | Commit
    | Revoke
    | GoOnline
    | GoOffline

  type Trace = seq<Event>

  function Front(t: Trace): Trace
    requires t != []
  {
    t[..|t| - 1]
  }

  function Last(t: Trace): Event
    requires t != []
  {
    t[|t| - 1]
  }

  /** The backend state read most recently. */
  function LastRead(t: Trace): XenbusState {
    if t == [] then Unknown else if Last(t).Read? then Last(t).state else LastRead(Front(t))
  }

  predicate Online(t: Trace) {
    t != [] && (Last(t).GoOnline? || (!Last(t).GoOffline? && Online(Front(t))))
  }

  /** Port and ring-ref of the present ring are in the store. */
  predicate Committed(t: Trace) {
    t != [] && (Last(t).Commit? || (!Last(t).Revoke? && Committed(Front(t))))
  }

  /** May `e` happen after `t`? */
  predicate Allowed(t: Trace, e: Event) {
    match e
    case Publish(state) =>
      && Online(t)
      && (state == Connected ==> Committed(t) && LastRead(t) == InitWait)
      && (state == Closed ==> LastRead(t) == Closing || LastRead(t) == Closed)
    case Revoke => Online(t) && Committed(t) ==> LastRead(t) == Closed
    case _ => true
  }

  predicate Safe(t: Trace) {
    t == [] || (Safe(Front(t)) && Allowed(Front(t), Last(t)))
  }

  /** Since `t` the backend was read as gone, or could not be read. */
  ghost predicate Gone(t: Trace, t': Trace) {
    exists k | |t| <= k < |t'| :: t'[k] in {Read(Unknown), Read(Closing), Read(Closed)}
  }

  lemma GoneLater(t: Trace, t1: Trace, t2: Trace, t': Trace)
    requires t <= t1 <= t2 <= t' && Gone(t1, t2)
    ensures Gone(t, t')
  {
    var k :| |t1| <= k < |t2| && t2[k] in {Read(Unknown), Read(Closing), Read(Closed)};
    assert t'[k] == t2[k];
  }

  lemma Append(t: Trace, e: Event)
    ensures Front(t + [e]) == t && Last(t + [e]) == e
  {
  }

  // ----- What safety says, in terms of positions -----

  lemma {:induction false} SafeAt(t: Trace, i: nat)
    requires Safe(t) && i < |t|
    ensures Allowed(t[..i], t[i])
    decreases |t|
  {
    if i == |t| - 1 {
    } else {
      SafeAt(Front(t), i);
      assert Front(t)[..i] == t[..i];
    }
  }

  lemma {:induction false} LastReadAt(t: Trace) returns (j: int)
    ensures -1 <= j < |t|
    ensures j < 0 ==> LastRead(t) == Unknown
    ensures j >= 0 ==> t[j] == Read(LastRead(t))
    ensures forall k | j < k < |t| :: !t[k].Read?
  {
    if t == [] {
      j := -1;
    } else if Last(t).Read? {
      j := |t| - 1;
    } else {
      j := LastReadAt(Front(t));
    }
  }

  lemma {:induction false} CommitAt(t: Trace) returns (j: int)
    requires Committed(t)
    ensures 0 <= j < |t| && t[j] == Commit && forall k | j < k < |t| :: !t[k].Revoke?
  {
    if Last(t).Commit? {
      j := |t| - 1;
    } else {
      j := CommitAt(Front(t));
    }
  }

  lemma {:induction false} OnlineAt(t: Trace) returns (j: int)
    requires Online(t)
    ensures 0 <= j < |t| && t[j] == GoOnline && forall k | j < k < |t| :: !t[k].GoOffline?
  {
    if Last(t).GoOnline? {
      j := |t| - 1;
    } else {
      j := OnlineAt(Front(t));
    }
  }

  /** Every time Connected is published, port and ring-ref were committed before and not revoked
      since, and the last thing read from the backend is InitWait. */
  lemma ConnectedOnlyWhenReady(t: Trace, i: nat) returns (commit: int, read: int)
    requires Safe(t) && i < |t| && t[i] == Publish(Connected)
    ensures 0 <= commit < i && t[commit] == Commit && forall k | commit < k < i :: !t[k].Revoke?
    ensures 0 <= read < i && t[read] == Read(InitWait) && forall k | read < k < i :: !t[k].Read?
  {
    SafeAt(t, i);
    commit := CommitAt(t[..i]);
    read := LastReadAt(t[..i]);
  }

  /** Every time Closed is published, the backend was last read as Closing or Closed. */
  lemma ClosedOnlyAfterBackend(t: Trace, i: nat) returns (read: int)
    requires Safe(t) && i < |t| && t[i] == Publish(Closed)
    ensures 0 <= read < i && t[read] in {Read(Closing), Read(Closed)}
    ensures forall k | read < k < i :: !t[k].Read?
  {
    SafeAt(t, i);
    read := LastReadAt(t[..i]);
  }

  /** Nothing is published while off line. */
  lemma PublishesOnlyOnline(t: Trace, i: nat) returns (on: int)
    requires Safe(t) && i < |t| && t[i].Publish?
    ensures 0 <= on < i && t[on] == GoOnline && forall k | on < k < i :: !t[k].GoOffline?
  {
    SafeAt(t, i);
    on := OnlineAt(t[..i]);
  }

  lemma {:induction false} CommittedSince(t: Trace, j: nat)
    requires j < |t| && t[j] == Commit && forall k | j < k < |t| :: !t[k].Revoke?
    ensures Committed(t)
    decreases |t|
  {
    if j < |t| - 1 {
      CommittedSince(Front(t), j);
    }
  }

  lemma {:induction false} OnlineSince(t: Trace, j: nat)
    requires j < |t| && t[j] == GoOnline && forall k | j < k < |t| :: !t[k].GoOffline?
    ensures Online(t)
    decreases |t|
  {
    if j < |t| - 1 {
      OnlineSince(Front(t), j);
    }
  }

  /** Every time a ring whose details are in the store is taken away on line, whatever the
      backend was told of it, the backend was last read as Closed. */
  lemma RevokedOnlyAfterClosed(t: Trace, i: nat, commit: nat, on: nat) returns (read: int)
    requires Safe(t) && i < |t| && t[i] == Revoke
    requires commit < i && t[commit] == Commit && forall k | commit < k < i :: !t[k].Revoke?
    requires on < i && t[on] == GoOnline && forall k | on < k < i :: !t[k].GoOffline?
    ensures 0 <= read < i && t[read] == Read(Closed) && forall k | read < k < i :: !t[k].Read?
  {
    SafeAt(t, i);
    CommittedSince(t[..i], commit);
    OnlineSince(t[..i], on);
    read := LastReadAt(t[..i]);
  }

  // ----- Rounds of a handshake -----

  /** One round: the state already known read again this often, then this one, then this reply. */
  datatype Round = Round(polls: nat, state: XenbusState, reply: Trace)

  function Polls(s: XenbusState, n: nat): Trace {
    if n == 0 then [] else Polls(s, n - 1) + [Read(s)]
  }

  /** The state known after these rounds; before the first it is Unknown. */
  function Heard(talk: seq<Round>): XenbusState {
    if talk == [] then Unknown else talk[|talk| - 1].state
  }

  function Talk(talk: seq<Round>): Trace {
    if talk == [] then []
    else
      var before, r := talk[..|talk| - 1], talk[|talk| - 1];
      Talk(before) + Polls(Heard(before), r.polls) + [Read(r.state)] + r.reply
  }

  lemma TalkSnoc(start: Trace, talk: seq<Round>, r: Round)
    ensures start + Talk(talk + [r]) == start + Talk(talk) + Polls(Heard(talk), r.polls) + [Read(r.state)] + r.reply
    ensures Heard(talk + [r]) == r.state
  {
    assert (talk + [r])[..|talk|] == talk;
  }

  lemma {:induction false} PollsRead(s: XenbusState, n: nat)
    ensures |Polls(s, n)| == n && forall k | 0 <= k < n :: Polls(s, n)[k] == Read(s)
  {
    if n > 0 {
      PollsRead(s, n - 1);
    }
  }

  /** Every round is there in the trace, its reply directly behind its read. */
  lemma {:induction false} RoundIsThere(talk: seq<Round>, k: nat) returns (i: nat)
    requires k < |talk|
    ensures i + 1 + |talk[k].reply| <= |Talk(talk)|
    ensures Talk(talk)[i] == Read(talk[k].state) && Talk(talk)[i + 1..i + 1 + |talk[k].reply|] == talk[k].reply
    decreases |talk|
  {
    var before, r := talk[..|talk| - 1], talk[|talk| - 1];
    var front := Talk(before) + Polls(Heard(before), r.polls);
    if k == |talk| - 1 {
      i := |front|;
    } else {
      i := RoundIsThere(before, k);
      assert Talk(talk)[i + 1..i + 1 + |talk[k].reply|] == Talk(before)[i + 1..i + 1 + |talk[k].reply|];
    }
  }

  // ----- What the frontend answers in each handshake -----

  datatype Purpose = ToPrepare | ToConnect | ToClose

  /** A backend that is gone takes the frontend off line: found Closed while preparing, and closing,
      closed or unreadable while connecting. Closed told to a backend that is not there does too. */
  predicate Fits(p: Purpose, r: Round) {
    match p
    case ToPrepare =>
      if r.state == InitWait then r.reply == []
      else if r.state == Closed then
        r.reply == [Publish(Closed), GoOffline] || r.reply == [Publish(Closed), GoOffline, GoOffline]
      else r.reply == [Publish(Initialising)]
    case ToConnect =>
      if r.state == InitWait then r.reply == [Publish(Connected)]
      else if r.state in {Unknown, Closing, Closed} then r.reply == [GoOffline]
      else r.reply == []
    case ToClose =>
      if r.state == Closing then r.reply == [Publish(Closed)] || r.reply == [Publish(Closed), GoOffline]
      else if r.state == Closed then r.reply == []
      else r.reply == [Publish(Closing)]
  }

  predicate AllFit(p: Purpose, talk: seq<Round>) {
    forall k | 0 <= k < |talk| :: Fits(p, talk[k])
  }

  lemma AllFitSnoc(p: Purpose, talk: seq<Round>, r: Round)
    requires AllFit(p, talk) && Fits(p, r)
    ensures AllFit(p, talk + [r])
  {
  }

  lemma RepliesDoNotRead(p: Purpose, r: Round)
    requires Fits(p, r)
    ensures forall j | 0 <= j < |r.reply| :: !r.reply[j].Read?
  {
  }

  /** Every read in the trace of a state other than Unknown is of some round's state. */
  lemma {:induction false} ReadIsHeard(p: Purpose, talk: seq<Round>, i: nat) returns (k: nat)
    requires AllFit(p, talk) && i < |Talk(talk)| && Talk(talk)[i].Read? && Talk(talk)[i].state != Unknown
    ensures k < |talk| && talk[k].state == Talk(talk)[i].state
    decreases |talk|
  {
    var n := |talk| - 1;
    var before, r := talk[..n], talk[n];
    var a, b := Talk(before), Polls(Heard(before), r.polls);
    PollsRead(Heard(before), r.polls);
    RepliesDoNotRead(p, r);
    forall j | |a| + |b| < j < |Talk(talk)|
      ensures !Talk(talk)[j].Read?
    {
      assert Talk(talk)[j] == r.reply[j - |a| - |b| - 1];
    }
    if i < |a| {
      k := ReadIsHeard(p, before, i);
    } else if i < |a| + |b| {
      assert Talk(talk)[i] == b[i - |a|];
      k := n - 1;
    } else {
      k := n;
    }
  }

  /** If the first event occurs between the two traces, so does the second. */
  ghost predicate Answered(t: Trace, t': Trace, e: Event, answer: Event) {
    (exists k :: |t| <= k < |t'| && t'[k] == e) ==> exists k :: |t| <= k < |t'| && t'[k] == answer
  }

  lemma RoundsAnswer(p: Purpose, t: Trace, talk: seq<Round>, s: XenbusState, answer: Event)
    requires AllFit(p, talk) && s != Unknown && forall r: Round | Fits(p, r) && r.state == s :: answer in r.reply
    ensures Answered(t, t + Talk(talk), Read(s), answer)
  {
    var t' := t + Talk(talk);
    if i :| |t| <= i < |t'| && t'[i] == Read(s) {
      var j := AnswerPlace(p, talk, s, answer, i - |t|);
      assert t'[|t| + j] == answer;
    }
  }

  lemma AnswerPlace(p: Purpose, talk: seq<Round>, s: XenbusState, answer: Event, i: nat) returns (j: nat)
    requires AllFit(p, talk) && s != Unknown && forall r: Round | Fits(p, r) && r.state == s :: answer in r.reply
    requires i < |Talk(talk)| && Talk(talk)[i] == Read(s)
    ensures j < |Talk(talk)| && Talk(talk)[j] == answer
  {
    var k := ReadIsHeard(p, talk, i);
    var at := RoundIsThere(talk, k);
    var reply := talk[k].reply;
    assert Fits(p, talk[k]);
    var m :| 0 <= m < |reply| && reply[m] == answer;
    j := at + 1 + m;
    assert Talk(talk)[at + 1..at + 1 + |reply|][m] == answer;
  }

  /** Preparing: whatever is read other than InitWait is answered, Closed by Closed and the others
      by Initialising. */
  lemma PreparingAnswers(t: Trace, talk: seq<Round>, s: XenbusState)
    requires AllFit(ToPrepare, talk) && s != Unknown && s != InitWait
    ensures Answered(t, t + Talk(talk), Read(s), Publish(if s == Closed then Closed else Initialising))
  {
    RoundsAnswer(ToPrepare, t, talk, s, Publish(if s == Closed then Closed else Initialising));
  }

  /** Connecting: InitWait is answered by Connected, and a backend that is gone by going off line. */
  lemma ConnectingAnswers(t: Trace, talk: seq<Round>, s: XenbusState)
    requires AllFit(ToConnect, talk) && s in {InitWait, Closing, Closed}
    ensures Answered(t, t + Talk(talk), Read(s), if s == InitWait then Publish(Connected) else GoOffline)
  {
    RoundsAnswer(ToConnect, t, talk, s, if s == InitWait then Publish(Connected) else GoOffline);
  }

  /** Closing: Closing is answered by Closed, everything else but Closed by Closing. */
  lemma ClosingAnswers(t: Trace, talk: seq<Round>, s: XenbusState)
    requires AllFit(ToClose, talk) && s != Unknown && s != Closed
    ensures Answered(t, t + Talk(talk), Read(s), Publish(if s == Closing then Closed else Closing))
  {
    RoundsAnswer(ToClose, t, talk, s, Publish(if s == Closing then Closed else Closing));
  }

  /** Reads of the backend's state so far. */
  function Reads(t: Trace): nat {
    if t == [] then 0 else Reads(Front(t)) + if Last(t).Read? then 1 else 0
  }

  lemma {:induction false} ReadsConcat(a: Trace, b: Trace)
    ensures Reads(a + b) == Reads(a) + Reads(b)
    decreases |b|
  {
    if b == [] {
      assert a + b == a;
    } else {
      assert Front(a + b) == a + Front(b) && Last(a + b) == Last(b);
      ReadsConcat(a, Front(b));
    }
  }

  lemma ReadsGrow(t: Trace, t': Trace)
    requires t <= t'
    ensures Reads(t) <= Reads(t')
  {
    assert t' == t + t'[|t|..];
    ReadsConcat(t, t'[|t|..]);
  }

  lemma {:induction false} TalkReads(talk: seq<Round>)
    ensures Reads(Talk(talk)) >= |talk|
  {
    if talk != [] {
      var before, r := talk[..|talk| - 1], talk[|talk| - 1];
      TalkReads(before);
      ReadsConcat(Talk(before), Polls(Heard(before), r.polls));
      ReadsConcat(Talk(before) + Polls(Heard(before), r.polls), [Read(r.state)]);
      ReadsConcat(Talk(before) + Polls(Heard(before), r.polls) + [Read(r.state)], r.reply);
      assert Front([Read(r.state)]) == [];
    }
  }

  lemma TalkAlone(t: Trace, talk: seq<Round>)
    ensures t <= t + Talk(talk) && Reads(t + Talk(talk)) >= Reads(t) + |talk|
  {
    TalkReads(talk);
    ReadsConcat(t, Talk(talk));
  }

  /** A handshake within a longer stretch: its rounds are reads, and a last state that means the
      backend is gone shows. */
  lemma TalkInside(t: Trace, before: Trace, talk: seq<Round>, after: Trace)
    ensures t <= t + (before + Talk(talk)) + after
    ensures Reads(t + (before + Talk(talk)) + after) >= Reads(t) + |talk|
    ensures talk != [] && Heard(talk) in {Unknown, Closing, Closed} ==> Gone(t, t + (before + Talk(talk)) + after)
  {
    TalkReads(talk);
    ReadsConcat(before, Talk(talk));
    ReadsConcat(t, before + Talk(talk));
    ReadsConcat(t + (before + Talk(talk)), after);
    if talk != [] && Heard(talk) in {Unknown, Closing, Closed} {
      var i := RoundIsThere(talk, |talk| - 1);
      assert (t + (before + Talk(talk)) + after)[|t| + |before| + i] == Talk(talk)[i];
    }
  }
}
