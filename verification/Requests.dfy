/** Read and write requests (IRPs), their replies, and the reference for what one undisturbed
    pass over a queue does. */
module Requests {
  import opened Word32
  import opened SharedRing
  import opened Sequences

  datatype Major = Read | Write | Other

  /** `data` is the system buffer of a write; `length` is Parameters.Read/Write.Length. */
  datatype Irp = Irp(id: nat, major: Major, file: nat, length: u32, data: seq<byte>)

  datatype Status = Success | Cancelled

  /** A completed request; IoStatus.Information is |bytes|. */
  datatype Reply = Reply(irp: Irp, status: Status, bytes: seq<byte>)

  predicate WellFormed(irp: Irp) {
    irp.major == Write ==> |irp.data| == irp.length
  }

  /** All bytes moved by a sequence of replies, in order: Buffer[..Information] concatenated. */
  function Moved(replies: seq<Reply>): seq<byte> {
    if replies == [] then [] else replies[0].bytes + Moved(replies[1..])
  }

  function Owners(replies: seq<Reply>): seq<Irp> {
    if replies == [] then [] else [replies[0].irp] + Owners(replies[1..])
  }

  lemma {:induction false} MovedConcat(a: seq<Reply>, b: seq<Reply>)
    ensures Moved(a + b) == Moved(a) + Moved(b)
    ensures Owners(a + b) == Owners(a) + Owners(b)
    decreases |a|
  {
    if a == [] {
      assert a + b == b;
    } else {
      assert (a + b)[1..] == a[1..] + b;
      MovedConcat(a[1..], b);
    }
  }

  lemma MovedAppend(replies: seq<Reply>, r: Reply)
    ensures Moved(replies + [r]) == Moved(replies) + r.bytes
    ensures Owners(replies + [r]) == Owners(replies) + [r.irp]
  {
    MovedConcat(replies, [r]);
    assert Moved([r]) == r.bytes + [] && Owners([r]) == [r.irp] + [];
  }

  /** What a pass over the read queue does when `stream` is available: each request in turn
      takes what it can; the pass ends at an empty queue, an empty stream, or a request of
      length zero, which goes back to the head. */
  datatype Pass = Pass(done: seq<Reply>, rest: seq<Irp>)

  function ServeReads(pending: seq<Irp>, stream: seq<byte>): Pass
    decreases |pending|
  {
    if pending == [] || stream == [] || pending[0].length == 0 then Pass([], pending)
    else
      var n := Min(pending[0].length, |stream|);
      var later := ServeReads(pending[1..], stream[n..]);
      Pass([Reply(pending[0], Success, stream[..n])] + later.done, later.rest)
  }

  lemma ServeReadsStep(pending: seq<Irp>, stream: seq<byte>)
    requires pending != [] && stream != [] && pending[0].length != 0
    ensures var n := Min(pending[0].length, |stream|);
            var reply := Reply(pending[0], Success, stream[..n]);
            var pass, later := ServeReads(pending, stream), ServeReads(pending[1..], stream[n..]);
            pass == Pass([reply] + later.done, later.rest)
            && Moved(pass.done) == stream[..n] + Moved(later.done)
  {
    var n := Min(pending[0].length, |stream|);
    OwnersCons(Reply(pending[0], Success, stream[..n]), ServeReads(pending[1..], stream[n..]).done);
  }

  /** Every read of the pass but the last is filled, and the last too unless the stream ran out. */
  lemma {:induction false} OnlyLastReadIsShort(pending: seq<Irp>, stream: seq<byte>, k: nat)
    requires k < |ServeReads(pending, stream).done|
    ensures var done := ServeReads(pending, stream).done;
            |done[k].bytes| == done[k].irp.length || (k + 1 == |done| && Moved(done) == stream)
    decreases k
  {
    var n := Min(pending[0].length, |stream|);
    ServeReadsStep(pending, stream);
    if k > 0 {
      OnlyLastReadIsShort(pending[1..], stream[n..], k - 1);
    } else {
      ServeReadsSound(pending[1..], stream[n..]);
    }
  }

  /** The same for the write queue with `room` free slots. */
  function ServeWrites(pending: seq<Irp>, room: nat): Pass
    decreases |pending|
  {
    if pending == [] || room == 0 || |pending[0].data| == 0 then Pass([], pending)
    else
      var n := Min(|pending[0].data|, room);
      var later := ServeWrites(pending[1..], room - n);
      Pass([Reply(pending[0], Success, pending[0].data[..n])] + later.done, later.rest)
  }

  lemma ServeWritesStep(pending: seq<Irp>, room: nat)
    requires pending != [] && room != 0 && pending[0].data != []
    ensures var n := Min(|pending[0].data|, room);
            var reply := Reply(pending[0], Success, pending[0].data[..n]);
            var pass, later := ServeWrites(pending, room), ServeWrites(pending[1..], room - n);
            pass == Pass([reply] + later.done, later.rest)
            && Moved(pass.done) == pending[0].data[..n] + Moved(later.done)
  {
    var n := Min(|pending[0].data|, room);
    OwnersCons(Reply(pending[0], Success, pending[0].data[..n]), ServeWrites(pending[1..], room - n).done);
  }

  lemma OwnersCons(r: Reply, replies: seq<Reply>)
    ensures Owners([r] + replies) == [r.irp] + Owners(replies)
    ensures Moved([r] + replies) == r.bytes + Moved(replies)
  {
    assert ([r] + replies)[1..] == replies;
  }

  /** A pass serves a first part of the queue in order, moves a first part of the stream, and
      stops early only when the stream is used up or a zero-length request is at the head. */
  lemma {:induction false} ServeReadsSound(pending: seq<Irp>, stream: seq<byte>)
    ensures PassOver(ServeReads(pending, stream), pending, stream)
    decreases |pending|
  {
    if !(pending == [] || stream == [] || pending[0].length == 0) {
      var n := Min(pending[0].length, |stream|);
      ServeReadsSound(pending[1..], stream[n..]);
      ServeReadsStep(pending, stream);
      PassOverStep(ServeReads(pending[1..], stream[n..]), pending, stream, n);
    }
  }

  predicate PassOver(p: Pass, pending: seq<Irp>, stream: seq<byte>) {
    && Owners(p.done) + p.rest == pending
    && Moved(p.done) <= stream
    && (p.rest != [] ==> p.rest[0].length == 0 || Moved(p.done) == stream)
    && (forall r | r in p.done :: r.status == Success && 0 < |r.bytes| <= r.irp.length)
  }

  lemma PassOverStep(later: Pass, pending: seq<Irp>, stream: seq<byte>, n: nat)
    requires pending != [] && 0 < n <= |stream| && n <= pending[0].length
    requires PassOver(later, pending[1..], stream[n..])
    ensures PassOver(Pass([Reply(pending[0], Success, stream[..n])] + later.done, later.rest), pending, stream)
  {
    OwnersCons(Reply(pending[0], Success, stream[..n]), later.done);
    PrefixCons(stream, n, Moved(later.done));
    Assoc([pending[0]], Owners(later.done), later.rest);
  }

  lemma PrefixCons(stream: seq<byte>, n: nat, more: seq<byte>)
    requires n <= |stream|
    ensures more <= stream[n..] ==> stream[..n] + more <= stream
    ensures more == stream[n..] ==> stream[..n] + more == stream
  {
  }

  /** A pass over the write queue serves a first part in order and never exceeds the room; it
      stops early only when the room is used up or an empty write is at the head. */
  lemma {:induction false} ServeWritesSound(pending: seq<Irp>, room: nat)
    ensures var p := ServeWrites(pending, room);
            && Owners(p.done) + p.rest == pending
            && |Moved(p.done)| <= room
            && (p.rest != [] ==> |p.rest[0].data| == 0 || |Moved(p.done)| == room)
    decreases |pending|
  {
    if !(pending == [] || room == 0 || |pending[0].data| == 0) {
      var n := Min(|pending[0].data|, room);
      var later := ServeWrites(pending[1..], room - n);
      ServeWritesSound(pending[1..], room - n);
      OwnersCons(Reply(pending[0], Success, pending[0].data[..n]), later.done);
      assert [pending[0]] + (Owners(later.done) + later.rest) == [pending[0]] + Owners(later.done) + later.rest;
    }
  }

  /** Every reply of the pass reports a non-empty first part of its write, and every one but
      the last reports the whole write. */
  lemma {:induction false} OnlyLastWriteIsCut(pending: seq<Irp>, room: nat, k: nat)
    requires k < |ServeWrites(pending, room).done|
    ensures var done := ServeWrites(pending, room).done; var r := done[k];
            r.status == Success && r.bytes != [] && r.bytes <= r.irp.data
            && (r.bytes == r.irp.data || (k + 1 == |done| && |Moved(done)| == room))
    decreases k
  {
    var n := Min(|pending[0].data|, room);
    ServeWritesStep(pending, room);
    if k > 0 {
      OnlyLastWriteIsCut(pending[1..], room - n, k - 1);
    } else {
      ServeWritesSound(pending[1..], room - n);
    }
  }

  // ----- Cancellation by file -----

  /** RingCsqPeekNextIrp's test: no context matches everything. */
  predicate Matches(irp: Irp, file: Option<nat>) {
    file.None? || irp.file == file.value
  }

  function Keep(queue: seq<Irp>, file: Option<nat>): seq<Irp> {
    if queue == [] then []
    else (if Matches(queue[0], file) then [] else [queue[0]]) + Keep(queue[1..], file)
  }

  function CancelReplies(queue: seq<Irp>, file: Option<nat>): seq<Reply> {
    if queue == [] then []
    else (if Matches(queue[0], file) then [Reply(queue[0], Cancelled, [])] else [])
         + CancelReplies(queue[1..], file)
  }

  /** Keep and CancelReplies split the queue: nothing lost and nothing twice. */
  lemma {:induction false} CancelSplitsQueue(queue: seq<Irp>, file: Option<nat>)
    ensures multiset(Keep(queue, file)) + multiset(Owners(CancelReplies(queue, file))) == multiset(queue)
  {
    if queue != [] {
      CancelSplitsQueue(queue[1..], file);
      assert multiset(queue) == multiset{queue[0]} + multiset(queue[1..]) by {
        assert queue == [queue[0]] + queue[1..];
      }
      var later, kept := CancelReplies(queue[1..], file), Keep(queue[1..], file);
      if Matches(queue[0], file) {
        assert Keep(queue, file) == [] + kept == kept;
        OwnersCons(Reply(queue[0], Cancelled, []), later);
      } else {
        assert CancelReplies(queue, file) == [] + later == later;
      }
    }
  }

  /** Survivors are exactly the requests of other files; the others are told so with no bytes. */
  lemma {:induction false} CancelIsSelective(queue: seq<Irp>, file: Option<nat>)
    ensures forall irp :: irp in Keep(queue, file) <==> irp in queue && !Matches(irp, file)
    ensures forall r | r in CancelReplies(queue, file) ::
              Matches(r.irp, file) && r.status == Cancelled && r.bytes == []
    ensures file.None? ==> Keep(queue, file) == []
  {
    if queue != [] {
      CancelIsSelective(queue[1..], file);
    }
  }

  /** On closing a file: what stays is exactly what belongs to other files. */
  lemma {:induction false} CloseKeepsOthers(queue: seq<Irp>, f: nat)
    ensures forall irp :: irp in Keep(queue, Some(f)) <==> irp in queue && irp.file != f
  {
    if queue != [] {
      CloseKeepsOthers(queue[1..], f);
    }
  }

  /** And what is cancelled exactly what belongs to it, as many times as it is queued, each with
      the reply of a cancelled request. */
  lemma {:induction false} CloseCancelsFile(queue: seq<Irp>, f: nat)
    ensures forall r | r in CancelReplies(queue, Some(f)) :: r.irp.file == f && r.status == Cancelled && r.bytes == []
    ensures forall irp :: multiset(Owners(CancelReplies(queue, Some(f))))[irp]
                       == if irp.file == f then multiset(queue)[irp] else 0
  {
    if queue != [] {
      CloseCancelsFile(queue[1..], f);
      var c, later := queue[0], CancelReplies(queue[1..], Some(f));
      assert queue == [c] + queue[1..];
      if c.file == f {
        OwnersCons(Reply(c, Cancelled, []), later);
        assert CancelReplies(queue, Some(f)) == [Reply(c, Cancelled, [])] + later;
        assert Owners(CancelReplies(queue, Some(f))) == [c] + Owners(later);
      } else {
        assert CancelReplies(queue, Some(f)) == [] + later == later;
      }
    }
  }

  /** With no file given everything goes. */
  lemma {:induction false} CancelAllCancelsAll(queue: seq<Irp>)
    ensures Keep(queue, None) == [] && Owners(CancelReplies(queue, None)) == queue
  {
    if queue != [] {
      CancelAllCancelsAll(queue[1..]);
      OwnersCons(Reply(queue[0], Cancelled, []), CancelReplies(queue[1..], None));
    }
  }

  /** Order is kept: cut the queue anywhere, and the survivors of the front part still precede
      those of the back part; so do the replies. */
  lemma {:induction false} CancelKeepsOrder(front: seq<Irp>, back: seq<Irp>, file: Option<nat>)
    ensures Keep(front + back, file) == Keep(front, file) + Keep(back, file)
    ensures CancelReplies(front + back, file) == CancelReplies(front, file) + CancelReplies(back, file)
    decreases |front|
  {
    if front == [] {
      assert front + back == back;
    } else {
      assert (front + back)[1..] == front[1..] + back;
      CancelKeepsOrder(front[1..], back, file);
      var hit := Matches(front[0], file);
      var k := if hit then [] else [front[0]];
      var c := if hit then [Reply(front[0], Cancelled, [])] else [];
      Assoc(k, Keep(front[1..], file), Keep(back, file));
      Assoc(c, CancelReplies(front[1..], file), CancelReplies(back, file));
    }
  }

  /** Removing the first match leaves the same survivors and one reply fewer to make. */
  lemma {:induction false} RemoveFirstMatch(queue: seq<Irp>, file: Option<nat>, i: nat)
    requires i < |queue| && Matches(queue[i], file)
    requires forall j | 0 <= j < i :: !Matches(queue[j], file)
    ensures Keep(queue[..i] + queue[i + 1..], file) == Keep(queue, file)
    ensures CancelReplies(queue, file)
            == [Reply(queue[i], Cancelled, [])] + CancelReplies(queue[..i] + queue[i + 1..], file)
    decreases i
  {
    if i == 0 {
      assert queue[..0] + queue[1..] == queue[1..];
    } else {
      RemoveFirstMatch(queue[1..], file, i - 1);
      var shorter := queue[..i] + queue[i + 1..];
      assert shorter[0] == queue[0];
      assert shorter[1..] == queue[1..][..i - 1] + queue[1..][i..];
    }
  }

  lemma {:induction false} NoMatch(queue: seq<Irp>, file: Option<nat>)
    requires forall j | 0 <= j < |queue| :: !Matches(queue[j], file)
    ensures Keep(queue, file) == queue && CancelReplies(queue, file) == []
  {
    if queue != [] {
      NoMatch(queue[1..], file);
    }
  }

  // ----- Queues as histories: the posted, less the cancelled -----

  predicate Distinct(irps: seq<Irp>) {
    forall i, j | 0 <= i < j < |irps| :: irps[i].id != irps[j].id
  }

  /** The posted requests that were not cancelled, in posting order. */
  function Live(posted: seq<Irp>, cancelled: set<nat>): seq<Irp> {
    if posted == [] then []
    else (if posted[0].id in cancelled then [] else [posted[0]]) + Live(posted[1..], cancelled)
  }

  function Without(irps: seq<Irp>, id: nat): seq<Irp> {
    if irps == [] then []
    else (if irps[0].id == id then [] else [irps[0]]) + Without(irps[1..], id)
  }

  lemma {:induction false} LiveConcat(a: seq<Irp>, b: seq<Irp>, cancelled: set<nat>)
    ensures Live(a + b, cancelled) == Live(a, cancelled) + Live(b, cancelled)
    decreases |a|
  {
    if a == [] {
      assert a + b == b;
    } else {
      assert (a + b)[1..] == a[1..] + b;
      LiveConcat(a[1..], b, cancelled);
      var head := if a[0].id in cancelled then [] else [a[0]];
      Assoc(head, Live(a[1..], cancelled), Live(b, cancelled));
    }
  }

  lemma {:induction false} WithoutConcat(a: seq<Irp>, b: seq<Irp>, id: nat)
    ensures Without(a + b, id) == Without(a, id) + Without(b, id)
    decreases |a|
  {
    if a == [] {
      assert a + b == b;
    } else {
      assert (a + b)[1..] == a[1..] + b;
      WithoutConcat(a[1..], b, id);
      var head := if a[0].id == id then [] else [a[0]];
      Assoc(head, Without(a[1..], id), Without(b, id));
    }
  }

  lemma {:induction false} WithoutAbsent(irps: seq<Irp>, id: nat)
    requires forall irp | irp in irps :: irp.id != id
    ensures Without(irps, id) == irps
  {
    if irps != [] {
      WithoutAbsent(irps[1..], id);
    }
  }

  lemma {:induction false} LiveAfterCancel(posted: seq<Irp>, cancelled: set<nat>, id: nat)
    ensures Live(posted, cancelled + {id}) == Without(Live(posted, cancelled), id)
  {
    if posted != [] {
      LiveAfterCancel(posted[1..], cancelled, id);
      var head := if posted[0].id in cancelled then [] else [posted[0]];
      WithoutConcat(head, Live(posted[1..], cancelled), id);
      assert Without(head, id) == if posted[0].id in cancelled + {id} then [] else [posted[0]];
    }
  }

  lemma {:induction false} LiveIsSelection(posted: seq<Irp>, cancelled: set<nat>)
    ensures forall irp :: irp in Live(posted, cancelled) <==> irp in posted && irp.id !in cancelled
    ensures Distinct(posted) ==> Distinct(Live(posted, cancelled))
  {
    if posted != [] {
      LiveIsSelection(posted[1..], cancelled);
    }
  }

  lemma DistinctParts(a: seq<Irp>, b: seq<Irp>, id: nat)
    requires Distinct(a + b) && exists irp | irp in b :: irp.id == id
    ensures forall irp | irp in a :: irp.id != id
  {
    var j :| 0 <= j < |b| && b[j].id == id;
    forall irp | irp in a
      ensures irp.id != id
    {
      var i :| 0 <= i < |a| && a[i] == irp;
      assert (a + b)[i] == irp && (a + b)[|a| + j] == b[j];
    }
  }

  lemma {:induction false} WithoutAt(irps: seq<Irp>, i: nat)
    requires Distinct(irps) && i < |irps|
    ensures Without(irps, irps[i].id) == irps[..i] + irps[i + 1..]
    decreases i
  {
    var rest := irps[1..];
    CutAt(irps, i);
    if i == 0 {
      WithoutAbsent(rest, irps[0].id);
    } else {
      WithoutAt(rest, i - 1);
    }
  }

  lemma CutAt(irps: seq<Irp>, i: nat)
    requires i < |irps|
    ensures i == 0 ==> irps[..i] + irps[i + 1..] == irps[1..]
    ensures i > 0 ==> irps[..i] + irps[i + 1..] == [irps[0]] + (irps[1..][..i - 1] + irps[1..][i..])
  {
  }
}
