/** The console ring object: request queues, byte counters and the poller (RingPoll and its
    callers), each method run without interference. PumpRun lets the same steps interleave. */
module ConsoleRing {
  import opened Word32
  import opened SharedRing
  import opened Requests
  import opened Sequences

  datatype PutStatus = Pending | NotSupported

  /** The counters a polling loop advances. */
  datatype Tally = Tally(completed: seq<Reply>, total: u32, index: u32)

  /** A polling loop part way: `done` replies made, the pass `now` still to do. */
  ghost predicate Progress(done: seq<Reply>, pass: Pass, now: Pass, start: Tally, tally: Tally) {
    && now.rest == pass.rest && done + now.done == pass.done
    && tally == Tally(start.completed + done, Add(start.total, |Moved(done)|), Add(start.index, |Moved(done)|))
  }

  class Ring {
    const page: SharedPage
    var enabled: bool
    var read: seq<Irp>
    var write: seq<Irp>
    var bytesRead: u32
    var bytesWritten: u32
    /** Every completion, oldest first. */
    var completed: seq<Reply>
    /** Times the event channel was unmasked. */
    var unmasks: nat

    ghost predicate Valid()
      reads this, page
    {
      page.Valid() && (forall irp | irp in write :: WellFormed(irp) && irp.major == Write)
    }

    constructor (page: SharedPage)
      requires page.Valid()
      ensures Valid() && this.page == page && !enabled && read == write == [] && completed == []
      ensures bytesRead == bytesWritten == 0
    {
      this.page := page;
      enabled, read, write, completed := false, [], [], [];
      bytesRead, bytesWritten, unmasks := 0, 0, 0;
    }

    /** RingPutQueue: append to the queue of the request's kind. */
    method PutQueue(irp: Irp) returns (status: PutStatus)
      requires Valid() && WellFormed(irp)
      modifies this`read, this`write
      ensures Valid()
      ensures status == Pending <==> irp.major != Other
      ensures read == if irp.major == Read then old(read) + [irp] else old(read)
      ensures write == if irp.major == Write then old(write) + [irp] else old(write)
    {
      match irp.major
      case Read => read := read + [irp]; status := Pending;
      case Write => write := write + [irp]; status := Pending;
      case Other => status := NotSupported;
    }

    /** RingCsqPeekNextIrp from the head: index of the first match, or the length. */
    static method PeekNext(queue: seq<Irp>, file: Option<nat>) returns (i: nat)
      ensures i <= |queue|
      ensures i < |queue| ==> Matches(queue[i], file)
      ensures forall j | 0 <= j < i :: !Matches(queue[j], file)
      ensures i < |queue| && file.Some? ==> queue[i].file == file.value
    {
      i := 0;
      while i < |queue|
        invariant i <= |queue|
        invariant forall j | 0 <= j < i :: !Matches(queue[j], file)
      {
        if Matches(queue[i], file) {
          return;
        }
        i := i + 1;
      }
    }

    /** One loop of __RingCancelRequests: remove and cancel first matches until there is none. */
    static method Drain(queue: seq<Irp>, file: Option<nat>) returns (kept: seq<Irp>, replies: seq<Reply>)
      ensures kept == Keep(queue, file)
      ensures replies == CancelReplies(queue, file)
    {
      kept, replies := queue, [];
      while true
        invariant Keep(kept, file) == Keep(queue, file)
        invariant replies + CancelReplies(kept, file) == CancelReplies(queue, file)
        decreases |kept|
      {
        var i := PeekNext(kept, file);
        if i == |kept| {
          NoMatch(kept, file);
          break;
        }
        RemoveFirstMatch(kept, file, i);
        var reply, shorter := Reply(kept[i], Cancelled, []), kept[..i] + kept[i + 1..];
        assert replies + ([reply] + CancelReplies(shorter, file)) == replies + [reply] + CancelReplies(shorter, file);
        replies := replies + [reply];
        kept := shorter;
      }
    }

    /** __RingCancelRequests: drain the matching requests of both queues. */
    method CancelRequests(file: Option<nat>)
      requires Valid()
      modifies this`read, this`write, this`completed
      ensures Valid()
      ensures read == Keep(old(read), file) && write == Keep(old(write), file)
      ensures completed == old(completed) + CancelReplies(old(read), file) + CancelReplies(old(write), file)
    {
      var kept, replies := Drain(read, file);
      read, completed := kept, completed + replies;
      CancelIsSelective(write, file);
      kept, replies := Drain(write, file);
      write, completed := kept, completed + replies;
    }

    /** RingClose. */
    method Close(file: nat)
      requires Valid()
      modifies this`read, this`write, this`completed
      ensures Valid()
      ensures read == Keep(old(read), Some(file)) && write == Keep(old(write), Some(file))
      ensures completed == old(completed) + CancelReplies(old(read), Some(file)) + CancelReplies(old(write), Some(file))
      ensures forall irp :: irp in read <==> irp in old(read) && irp.file != file
      ensures forall irp :: irp in write <==> irp in old(write) && irp.file != file
    {
      CloseKeepsOthers(read, file);
      CloseKeepsOthers(write, file);
      CancelRequests(Some(file));
    }

    /** Bytes the first loop of RingPoll can fetch. */
    ghost function Incoming(): seq<byte>
      requires Valid()
      reads this, page, page.input
    {
      Peek(page.input[..], page.inCons, Sub(page.inProd, page.inCons))
    }

    /** First loop of RingPoll: afterwards the queue, the replies, the counter and the index
        are those of one pass over everything that was available. */
    method PollReads()
      requires Valid()
      modifies this`read, this`bytesRead, this`completed, page`inCons
      ensures Valid()
      ensures var pass := ServeReads(old(read), old(Incoming()));
              && read == pass.rest
              && completed == old(completed) + pass.done
              && bytesRead == Add(old(bytesRead), |Moved(pass.done)|)
              && page.inCons == Add(old(page.inCons), |Moved(pass.done)|)
    {
      ghost var start := Tally(completed, bytesRead, page.inCons);
      ghost var pass, done := ServeReads(read, Incoming()), [];
      ProgressStart(pass, start);
      while true
        invariant Progress(done, pass, ServeReads(read, Incoming()), start, Tally(completed, bytesRead, page.inCons))
        decreases |read|
      {
        if read == [] {
          ProgressEnd(done, pass, Pass([], []), start, Tally(completed, bytesRead, page.inCons));
          break;
        }
        var irp := read[0];
        ghost var now, cons := Tally(completed, bytesRead, page.inCons), page.inCons;
        ghost var stream := Incoming();
        ghost var passNow := ServeReads(read, stream);
        read := read[1..];
        var buffer := new byte[irp.length];
        var n := page.CopyFromRead(buffer, irp.length);
        if n == 0 {
          read := [irp] + read;
          NothingMoved(cons, bytesRead);
          assert passNow == Pass([], read);
          ProgressEnd(done, pass, passNow, start, now);
          break;
        }
        var reply := Reply(irp, Success, buffer[..n]);
        FetchStep(page.input[..], cons, page.inProd, n);
        assert buffer[..n] == stream[..n];
        ProgressStep(done, pass, passNow, ServeReads(read, Incoming()), reply, start, now);
        bytesRead := Add(bytesRead, n);
        completed := completed + [reply];
        done := done + [reply];
      }
    }

    /** Second loop of RingPoll. */
    method PollWrites()
      requires Valid()
      modifies this`write, this`bytesWritten, this`completed, page`outProd, page.output
      ensures Valid()
      ensures var pass := ServeWrites(old(write), Room(old(page.outProd), page.outCons, OUT_SIZE));
              && write == pass.rest
              && completed == old(completed) + pass.done
              && bytesWritten == Add(old(bytesWritten), |Moved(pass.done)|)
              && page.outProd == Add(old(page.outProd), |Moved(pass.done)|)
              && page.output[..] == Poke(old(page.output[..]), old(page.outProd), Moved(pass.done))
    {
      ghost var start, output0 := Tally(completed, bytesWritten, page.outProd), page.output[..];
      ghost var pass, done := ServeWrites(write, Room(page.outProd, page.outCons, OUT_SIZE)), [];
      ProgressStart(pass, start);
      while true
        invariant Valid()
        invariant Progress(done, pass, ServeWrites(write, Room(page.outProd, page.outCons, OUT_SIZE)), start,
                           Tally(completed, bytesWritten, page.outProd))
        invariant page.output[..] == Poke(output0, start.index, Moved(done))
        decreases |write|
      {
        if write == [] {
          ProgressEnd(done, pass, Pass([], []), start, Tally(completed, bytesWritten, page.outProd));
          break;
        }
        var irp := write[0];
        ghost var now, prod := Tally(completed, bytesWritten, page.outProd), page.outProd;
        ghost var passNow := ServeWrites(write, Room(prod, page.outCons, OUT_SIZE));
        write := write[1..];
        var buffer := new byte[irp.length](k requires 0 <= k < |irp.data| => irp.data[k]);
        assert buffer[..] == irp.data;
        var n := page.CopyToWrite(buffer, irp.length);
        if n == 0 {
          write := [irp] + write;
          StoredNothing(page.output[..], prod, buffer[..0]);
          NothingMoved(prod, bytesWritten);
          assert passNow == Pass([], write);
          ProgressEnd(done, pass, passNow, start, now);
          break;
        }
        var reply := Reply(irp, Success, buffer[..n]);
        AdvanceRoom(prod, page.outCons, OUT_SIZE, n);
        ProgressStep(done, pass, passNow, ServeWrites(write, Room(page.outProd, page.outCons, OUT_SIZE)),
                     reply, start, now);
        MovedAppend(done, reply);
        PokeSplit(output0, start.index, Moved(done), buffer[..n]);
        bytesWritten := Add(bytesWritten, n);
        completed := completed + [reply];
        done := done + [reply];
      }
    }

    /** RingDpc: one RingPoll when enabled, since that never asks for another; the event channel is
        unmasked in any case. */
    method Dpc()
      requires Valid()
      modifies this`read, this`bytesRead, this`write, this`bytesWritten, this`completed, this`unmasks
      modifies page`inCons, page`outProd, page.output
      ensures Valid()
      ensures unmasks == old(unmasks) + 1
      ensures !enabled ==>
                && unchanged(this`read) && unchanged(this`bytesRead) && unchanged(this`write)
                && unchanged(this`bytesWritten) && unchanged(this`completed)
                && unchanged(page) && unchanged(page.output)
      ensures enabled ==>
                var fetched := ServeReads(old(read), old(Incoming()));
                var stored := ServeWrites(old(write), Room(old(page.outProd), page.outCons, OUT_SIZE));
                && read == fetched.rest && write == stored.rest
                && completed == old(completed) + fetched.done + stored.done
                && bytesRead == Add(old(bytesRead), |Moved(fetched.done)|)
                && bytesWritten == Add(old(bytesWritten), |Moved(stored.done)|)
                && page.inCons == Add(old(page.inCons), |Moved(fetched.done)|)
                && page.outProd == Add(old(page.outProd), |Moved(stored.done)|)
                && page.output[..] == Poke(old(page.output[..]), old(page.outProd), Moved(stored.done))
    {
      if enabled {
        PollReads();
        PollWrites();
      }
      unmasks := unmasks + 1;
    }
  }

  lemma ProgressStart(pass: Pass, start: Tally)
    ensures Progress([], pass, pass, start, start)
  {
    NothingMoved(start.index, start.total);
    assert [] + pass.done == pass.done && start.completed + [] == start.completed;
  }

  lemma ProgressEnd(done: seq<Reply>, pass: Pass, now: Pass, start: Tally, tally: Tally)
    requires Progress(done, pass, now, start, tally) && now.done == []
    ensures pass == Pass(done, now.rest)
    ensures tally == Tally(start.completed + pass.done, Add(start.total, |Moved(pass.done)|),
                           Add(start.index, |Moved(pass.done)|))
  {
    assert done + [] == done;
  }

  lemma ProgressStep(done: seq<Reply>, pass: Pass, now: Pass, later: Pass, reply: Reply, start: Tally, tally: Tally)
    requires Progress(done, pass, now, start, tally)
    requires now == Pass([reply] + later.done, later.rest)
    ensures var n := |reply.bytes|;
            Progress(done + [reply], pass, later, start,
                     Tally(tally.completed + [reply], Add(tally.total, n), Add(tally.index, n)))
  {
    MovedAppend(done, reply);
    AddTwice(start.total, |Moved(done)|, |reply.bytes|);
    AddTwice(start.index, |Moved(done)|, |reply.bytes|);
    assert done + [reply] + later.done == done + ([reply] + later.done);
  }

  lemma StoredNothing(ring: seq<byte>, prod: u32, data: seq<byte>)
    requires ring != [] && data == []
    ensures Poke(ring, prod, data) == ring
  {
  }

  lemma NothingMoved(index: u32, total: u32)
    ensures Add(index, 0) == index && Add(total, 0) == total
  {
  }
}
