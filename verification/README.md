# Xen console driver: a verified model

This project models the Windows paravirtual console driver for Xen, and the monitor and login
programs beside it, in Dafny, and proves what they promise. `dafny verify dfyconfig.toml` checks it.

| file | models |
|---|---|
| `Word32.dfy`, `Sequences.dfy` | 32-bit indices that wrap; shared helpers |
| `SharedRing.dfy`, `Spsc.dfy` | the two byte rings of the shared page: the copy loops, and the protocol between a driver and a backend that interleave at every memory access |
| `Requests.dfy`, `ConsoleRing.dfy`, `PumpRun.dfy` | read and write requests pumped through the rings: what one pass does, the driver's loops, and all actors interleaved |
| `HoldOff.dfy` | the notification hold-off of the request/response ring header |
| `Handshake.dfy`, `Frontend.dfy` | the frontend's five states, its resources, and its conversation with the backend |
| `Lifecycle.dfy`, `Effects.dfy`, `Devices.dfy` | the bus device and its consoles: reconciliation with the store, reference counts, PnP states, power; what each handler does, field by field; the device objects |
| `ThreadLife.dfy`, `PowerSlot.dfy`, `Stream.dfy` | worker threads: who frees them, their mailboxes, the stream queue |
| `Tty.dfy` | the login program's line editor and what its echo shows |
| `MultiSz.dfy`, `Tokeniser.dfy`, `IntrusiveList.dfy` | packed string lists, in-place tokens, circular lists |

Protocols are step relations: each access to shared memory is one step, a run is any sequence of
enabled steps, and the main theorems speak of every state of every run. Code that changes objects
in place is a class whose methods are proved against functions on values (`Frontend`, `Devices`,
`ConsoleRing`, `Tty`, `IntrusiveList`); the properties are then lemmas about those functions. Calls
out of the driver succeed or fail arbitrarily, and a remote backend answers anything.

What the proofs brought to light:

- A bus device removed while its previous state is not Started leaves its children listed
  (`Lifecycle.RemoveFinishes`). It can still be destroyed if and only if each of them is missing and
  not yet deleted (`Lifecycle.CanEndIff`); one removed before it was started never is
  (`Lifecycle.RemovedBeforeStart`).
- A device that went missing is not suspended by the bus's power-down but is resumed by its
  power-up. The balance of its console references survives an event if and only if the event does
  not power the bus down past such a device (`Lifecycle.BalanceKeptIff`,
  `Lifecycle.PowerDownBalancedIff`), which can happen (`Lifecycle.MissingChildUnbalanced`).
- A stream's requests are left waiting by exactly two things (`Stream.AwakeIffNotStranding`):
  cancelling a refused request in front of one that could be served, until something else wakes the
  worker (`Stream.CancelCanStrand`), and a worker whose start-up calls fail, which nobody is told of
  (`Stream.StartUpCanFail`).
- A device whose name begins the name of an unsupported device is treated as unsupported too
  (`Devices.UnsupportedIff`).
- The store directory's decoder reads past the end of an empty list (`MultiSz.EmptyListMisread`),
  and the registry's encoder fails exactly for blocks of 65536 bytes or more
  (`MultiSz.AnsiToMultiSz`). Its decoder hands on exactly the strings of at most 32766 characters
  whole (`MultiSz.CountedIsExactIff`).

## Model

| member | source | states |
|---|---|---|
| `Word32.MaskIsRemainder` | include/xen/public/io/console.h:32 | masking an index with a ring's size less one is the remainder that the model uses, for both rings |
| `Word32.WordsWrap` | include/xen/public/io/console.h:30 | sums and differences of indices wrap at 4294967296 |
| `SharedRing.SharedPage.CopyFromRead` | src/xencons/ring.c:355-407 | for index values of any kind: moves min(length, in_prod − in_cons) bytes, the same ones a byte-at-a-time loop would, touches nothing behind them, and advances in_cons by as many modulo 2^32 |
| `SharedRing.SharedPage.CopyToWrite` | src/xencons/ring.c:409-461 | the same for the output ring; with inconsistent indices later bytes overwrite earlier ones as the byte-at-a-time loop would have them |
| `SharedRing.PeekChunk` | src/xencons/ring.c:386-398 | a contiguous copy out of the ring that stops at its end is that many single-byte reads |
| `SharedRing.PokeChunk` | src/xencons/ring.c:440-452 | a contiguous copy into the ring that stops at its end is that many single-byte stores |
| `Spsc.StepKeepsInv` | src/xencons/ring.c:355-461 | every snapshot, copy and publish of either side, with however stale a view of the other's index, keeps: wrapped indices stand for the stream positions, every byte not yet read sits in its slot, and no more than the ring's size is outstanding |
| `Spsc.RunIsFifo` | include/xen/public/io/console.h:30-39 | in every state of every interleaving of both sides the bytes received are a prefix of the bytes sent: none lost, duplicated, reordered or overwritten unread |
| `Spsc.StepRefinesStream` | src/xencons/ring.c:355-461 | each step leaves the two unbounded streams alone, or appends to the sent one, or appends to the received one the next bytes of the sent |
| `Spsc.RunConsumerIsCopyFromRead` | src/xencons/ring.c:370-407 | the read side's protocol steps, run without interference, are the copy routine |
| `Spsc.RunProducerIsCopyToWrite` | src/xencons/ring.c:424-461 | the write side's protocol steps, run without interference, are the copy routine |
| `Requests.ServeReadsSound` | src/xencons/ring.c:475-512 | a pass serves a first part of the queue in order with a first part of the stream, and stops early only when the stream is used up or a zero-length read is at the head |
| `Requests.ServeWritesSound` | src/xencons/ring.c:514-547 | a pass over the writes serves a first part in order within the room, and stops early only when the room is used up or an empty write is at the head |
| `Requests.OnlyLastWriteIsCut` | src/xencons/ring.c:514-547 | each reply covers a non-empty first part of its write, and the whole of it except where the last used up the room |
| `Requests.OnlyLastReadIsShort` | src/xencons/ring.c:475-512 | each read of a pass but the last is filled, and the last too unless the available bytes ran out |
| `Requests.CloseKeepsOthers` | src/xencons/ring.c:137-170 | what stays queued when a file is closed is exactly what belongs to other files |
| `Requests.CloseCancelsFile` | src/xencons/ring.c:213-262 | what is cancelled is exactly what belongs to the file, as often as it was queued, with no bytes |
| `Requests.CancelAllCancelsAll` | src/xencons/ring.c:237-262 | without a file everything is cancelled, in order |
| `Requests.CancelSplitsQueue` | src/xencons/ring.c:237-262 | cancellation neither loses nor doubles a request |
| `Requests.CancelIsSelective` | src/xencons/ring.c:137-170 | the survivors are exactly the requests of other files; the others complete as cancelled with no bytes; without a file nothing survives |
| `Requests.CancelKeepsOrder` | src/xencons/ring.c:237-262 | survivors keep their order, and so do the cancelled |
| `ConsoleRing.Ring.PutQueue` | src/xencons/ring.c:311-353 | a request joins the end of the queue of its kind; other kinds are refused |
| `ConsoleRing.Ring.PeekNext` | src/xencons/ring.c:137-170 | finds the first request of the file given, or the first of all without one |
| `ConsoleRing.Ring.CancelRequests` | src/xencons/ring.c:237-262 | removes from both queues exactly the matching requests and completes each once |
| `ConsoleRing.Ring.Close` | src/xencons/ring.c:301-309 | what is left queued is exactly what belongs to other files; the file's own requests complete once each as cancelled |
| `ConsoleRing.Ring.PollReads` | src/xencons/ring.c:475-512 | an undisturbed first loop is one pass over all bytes available: queue, completions, byte counter and index |
| `ConsoleRing.Ring.PollWrites` | src/xencons/ring.c:514-547 | an undisturbed second loop is one pass over the room available, and the ring holds the bytes moved |
| `ConsoleRing.Ring.Dpc` | src/xencons/ring.c:552-595 | polls once if enabled, otherwise leaves rings, queues and counters alone, and unmasks the channel in either case |
| `PumpRun.EventKeepsInv` | src/xencons/ring.c:463-547 | posting, cancelling, each small step of the poller and each step of the backend keep the end-to-end invariant |
| `PumpRun.RunDelivers` | src/xencons/ring.c:463-547 | in every state of every run: replies come in posting order, head re-insertion notwithstanding; the bytes of completed reads are the first bytes the backend produced, the bytes it consumed are the first of completed writes (and of the write being completed), and the counters are their number modulo 2^32 |
| `PumpRun.EveryRequestOnce` | src/xencons/ring.c:100-122 | a posted request is exactly one of completed, held by the poller, queued and cancelled |
| `PumpRun.ReadStopsDry` | src/xencons/ring.c:488-499 | the first loop puts a request back only when its last snapshot is used up or the request's length is zero |
| `PumpRun.WriteStopsFull` | src/xencons/ring.c:524-535 | the second loop puts a request back only when its last snapshot shows no room or the write is empty |
| `PumpRun.PollerNeverStuck` | src/xencons/ring.c:463-547 | from every reachable state the poller has its next step |
| `PumpRun.UndisturbedReads` | src/xencons/ring.c:475-512 | the poller's small steps, with nothing in between, end where the first loop's pass does |
| `PumpRun.UndisturbedWrites` | src/xencons/ring.c:514-547 | and where the second loop's pass does |
| `PumpRun.UndisturbedPoll` | src/xencons/ring.c:463-547 | a whole poll with nothing in between is the pass over the reads and then the pass over the writes |
| `PumpRun.PollGoesThroughBoth` | src/xencons/ring.c:463-547 | in every run, from the start of a poll to any later idle moment the poller has been through both loops, and left each with its queue empty, its last snapshot used up, or a request of length zero at the head |
| `HoldOff.NotifyIffSteppedOnto` | include/xen/public/io/ring.h:280-298 | the unsigned comparison of the push macros holds if and only if the push stepped onto the event index, for any three 32-bit words |
| `HoldOff.FrontRing.PushRequestsAndCheckNotify` | include/xen/public/io/ring.h:280-288 | publishes the private index and answers whether the push stepped onto the event index |
| `HoldOff.BackRing.PushResponsesAndCheckNotify` | include/xen/public/io/ring.h:290-298 | the same for responses |
| `HoldOff.BackRing.FinalCheckForRequests` | include/xen/public/io/ring.h:300-306 | reports the unconsumed requests, moves the event index only when there were none, and then every push past the consumer's index steps onto it |
| `HoldOff.FrontRing.FinalCheckForResponses` | include/xen/public/io/ring.h:308-314 | the same for responses, of which there are then none |
| `HoldOff.BackTestIsExact` | include/xen/public/io/ring.h:196-209 | under flow control the test for unconsumed requests reads the true count req_prod − req_cons |
| `HoldOff.FrontTestsAreExact` | include/xen/public/io/ring.h:182-195 | and so do the front end's two tests |
| `HoldOff.OverflowNeverFires` | include/xen/public/io/ring.h:233-238 | the overflow checks never accuse a front end that follows the protocol |
| `HoldOff.OverflowFiresIff` | include/xen/public/io/ring.h:233-238 | they fire exactly when more than the ring's size is outstanding, or all of it |
| `HoldOff.UnconsumedIsBounded` | include/xen/public/io/ring.h:196-209 | whatever index the front end publishes, the back end is told of no more requests than the ring can answer |
| `HoldOff.PushMoves` | include/xen/public/io/ring.h:280-298 | the single steps of a push, undisturbed, are the macro |
| `HoldOff.CheckMoves` | include/xen/public/io/ring.h:300-314 | and those of a final check: it stops at work, and otherwise arms the event and looks again before it sleeps |
| `HoldOff.StepKeepsInv` | include/xen/public/io/ring.h:280-314 | every memory access of either side keeps flow control and the sleeper's guarantee |
| `HoldOff.RunLosesNothing` | include/xen/public/io/ring.h:251-278 | in every interleaving of pushes and final checks, 32-bit wrap included: an entry waiting for a sleeping consumer has raised a notification or its producer is about to |
| `HoldOff.NextPushNotifies` | include/xen/public/io/ring.h:280-314 | in every run: after a final check that found nothing, the next non-empty push reaches its event check with the answer yes and raises a notification, however many steps lie between, as long as the consumer sleeps |
| `Handshake.ConnectedOnlyWhenReady` | src/xencons/frontend.c:761-823 | in a safe trace, Connected is published only after port and ring-ref were committed and not revoked since, with the backend last read as InitWait |
| `Handshake.ClosedOnlyAfterBackend` | src/xencons/frontend.c:594-614 | Closed is published only when the backend was last read as Closing or Closed |
| `Handshake.PublishesOnlyOnline` | src/xencons/frontend.c:387-417 | nothing is published while off line |
| `Handshake.RevokedOnlyAfterClosed` | src/xencons/frontend.c:594-614 | a ring whose details are in the store is taken away on line only after the backend was last read as Closed, whether or not Connected was ever published |
| `Handshake.RoundIsThere` | src/xencons/frontend.c:594-614 | every round of a handshake is in the trace, the reply directly behind the read it answers |
| `Handshake.ReadIsHeard` | src/xencons/frontend.c:594-614 | and every read of a state other than Unknown belongs to a round of that state |
| `Handshake.PreparingAnswers` | src/xencons/frontend.c:643-672 | while preparing, Closed is answered by Closed and every other state but InitWait by Initialising |
| `Handshake.ConnectingAnswers` | src/xencons/frontend.c:796-823 | while connecting, InitWait is answered by Connected, and a backend that is gone by going off line |
| `Handshake.ClosingAnswers` | src/xencons/frontend.c:594-614 | while closing, Closing is answered by Closed and every other state but Closed by Closing |
| `Frontend.Ring.Connect` | src/xencons/ring.c:682-847 | acquires everything if all ten steps work, and nothing if one fails |
| `Frontend.Ring.Disconnect` | src/xencons/ring.c:897-950 | gives everything back and resets the counters |
| `Frontend.TurnsReachTarget` | src/xencons/frontend.c:951-1103 | from any state any target is at most three turns away and each turn brings it one nearer |
| `Frontend.TurnByState` | src/xencons/frontend.c:966-1090 | each turn by state: down through CONNECTED and CLOSED, up through PREPARED and CONNECTED |
| `Frontend.Frontend.SetXenbusState` | src/xencons/frontend.c:387-417 | publishes one state, and goes off line exactly on Closed to a backend that is gone |
| `Frontend.Frontend.AwaitChange` | src/xencons/frontend.c:419-511 | reads the backend at least once and stops at a state other than the one it was given, or else only when time has run out |
| `Frontend.Frontend.Close` | src/xencons/frontend.c:579-621 | on return the watch, path and store reference are gone and the backend was last read as Closed unless the frontend went off line |
| `Frontend.Frontend.AwaitClosed` | src/xencons/frontend.c:590-614 | round by round: Closing is answered by Closed, any other state but Closed by Closing; the wait ends with the backend read as Closed or the frontend off line, or has taken all its rounds |
| `Frontend.Frontend.AwaitInitWait` | src/xencons/frontend.c:643-672 | round by round: Closed is answered by Closed and going off line, any other state but InitWait by Initialising; the wait ends in InitWait, or off line after Closed, or has taken all its rounds |
| `Frontend.Frontend.AwaitConnected` | src/xencons/frontend.c:817-846 | round by round: InitWait is answered by Connected, a backend that is gone by going off line, any other state by nothing; the wait ends with the backend Connected, or off line because it was gone, or has taken all its rounds |
| `Frontend.Frontend.Prepare` | src/xencons/frontend.c:623-705 | holds watch, path and one store reference with the backend in InitWait, or nothing at all, and then only because a foreign call failed or the backend was gone |
| `Frontend.Frontend.StoreRing` | src/xencons/frontend.c:771-812 | commits if and only if one of the first eleven transactions is accepted and all before it were busy; it tries no further than that |
| `Frontend.Frontend.Connect` | src/xencons/frontend.c:731-889 | ring, debug reference and callback all held, or none, and then only because a foreign call failed or the backend was gone |
| `Frontend.Frontend.Disconnect` | src/xencons/frontend.c:891-914 | gives them all back |
| `Frontend.Frontend.SetState` | src/xencons/frontend.c:951-1103 | whatever happens: reaches the target in exactly the promised number of turns or stops at UNKNOWN or CLOSED, and that only because one of its calls failed or the backend was read as gone and never on the way to UNKNOWN; keeps resources in step with the state and the trace safe |
| `Frontend.Frontend.SuspendCallback` | src/xencons/frontend.c:1105-1138 | after it the state is UNKNOWN, which is what the resume path asserts |
| `Frontend.Frontend.AbiAcquire` | src/xencons/frontend.c:1308-1368 | one more reference, exactly if there was one already or both calls work, and otherwise everything as before |
| `Frontend.Frontend.AbiRelease` | src/xencons/frontend.c:1370-1406 | the last reference brings the frontend down and unregisters it |
| `Lifecycle.NextKeepsInv` | src/xencons/fdo.c:608-702 | every handler keeps: references = listed children + 1 until the bus is removed, deleted implies missing, ids never reused, and the power balance; and loses no device |
| `Lifecycle.RunKeepsInv` | src/xencons/fdo.c:2955-3150 | so it holds in every state of every run from creation |
| `Lifecycle.RunNeverTurnsBack` | src/xencons/pdo.c:99-133 | between any two moments of a run missing and deleted are never undone, the cancel handlers' restore included, and no device vanishes without being destroyed |
| `Lifecycle.DestroyedOnce` | src/xencons/fdo.c:3185-3248 | a device is destroyed at most once; the bus only with an empty list, no references and state Deleted |
| `Lifecycle.PowerBalance` | src/xencons/fdo.c:1355-1365 | for every listed device not missing, Acquire less Release is one in D0 and none in D3; a missing one is over by the power-downs that passed it over |
| `Lifecycle.PowerDownBalancedIff` | src/xencons/fdo.c:1413-1425 | from a balanced bus in D0, powering down keeps the balance if and only if no listed child is missing |
| `Lifecycle.BalanceKeptIff` | src/xencons/fdo.c:1355-1365 | of all handlers exactly those upset the balance that power the bus down past a child that is missing or, on removal, awaits its own |
| `Lifecycle.RunBalanced` | src/xencons/fdo.c:1355-1440 | a run without such an event is balanced throughout |
| `Lifecycle.MissingChildUnbalanced` | src/xencons/fdo.c:1421-1423 | started, surprise-removed and powered down, a bus is unbalanced |
| `Lifecycle.RemoveFinishes` | src/xencons/fdo.c:1670-1749 | the removal destroys the bus at once if and only if the list was empty, or the previous state was Started and no child awaits its own removal |
| `Lifecycle.LeftBehind` | src/xencons/fdo.c:1684-1749 | a child left behind that is not missing, or is deleted, keeps the removed bus from ever being destroyed |
| `Lifecycle.CanEndIff` | src/xencons/fdo.c:1684-1749 | once the bus is removed, some sequence of events still ends in its destruction if and only if every child left behind is missing and not yet deleted |
| `Lifecycle.RemovedBeforeStart` | src/xencons/fdo.c:1684-1685 | and a bus removed before it was started leaves one behind |
| `Lifecycle.ScanReconciles` | src/xencons/fdo.c:734-801 | for distinct names the sequential matching does to each child what the directory alone says, asks for exactly the listed names without a counting child, each once, and reports a loss if and only if an enumerated child went missing |
| `Lifecycle.ScanKeepsNamesDistinct` | src/xencons/fdo.c:704-810 | the scan keeps the names of counting children distinct |
| `Lifecycle.SecondScanIsIdle` | src/xencons/fdo.c:704-810 | after every creation worked, scanning the same directory again changes nothing and asks for no invalidation |
| `Effects.ScanByField` | src/xencons/fdo.c:734-789 | the scan marks missing exactly the children that are live, not the default console, without an entry and without an eject request, destroys those of them never enumerated, and leaves every other as it is |
| `Effects.InvalidateIff` | src/xencons/fdo.c:704-810 | it asks for invalidation if and only if a creation worked or such an enumerated child went missing |
| `Effects.CreatedByField` | src/xencons/pdo.c:1904-2046 | a new child is present, neither missing nor asked to eject, acquired in D0, and costs a reference |
| `Effects.HandledByField` | src/xencons/pdo.c:596-748 | what each handler but that of removal does to a child's state, missing mark and eject request; none does anything to a deleted one |
| `Effects.CancelUndoesQuery` | src/xencons/pdo.c:638-730 | a query and then its cancel give a child its state back |
| `Effects.RemoveDestroysIff` | src/xencons/pdo.c:750-795 | removal destroys a child if and only if it is missing and was surprise-removed; otherwise it stays listed, deleted if missing and enumerated if not |
| `Effects.OtherChildrenUntouched` | src/xencons/pdo.c:1257-1354 | the other handlers change that child alone |
| `Effects.RequestEjectByField` | src/xencons/pdo.c:345-360 | a request marks that child alone |
| `Effects.BusCancelUndoesQuery` | src/xencons/fdo.c:1537-1634 | a query and then its cancel give the bus its state back; a cancel of anything else does nothing |
| `Effects.StartByField` | src/xencons/fdo.c:1479-1535 | starting acquires every child, or changes nothing |
| `Effects.StopByField` | src/xencons/fdo.c:1572-1598 | stopping releases, from D0, every child neither missing nor deleted |
| `Effects.PowerByField` | src/xencons/fdo.c:2157-2197 | a power change does the one or the other, and nothing if there is none |
| `Effects.SurpriseByField` | src/xencons/fdo.c:1635-1668 | surprise removal marks every child missing and changes nothing else of it |
| `Effects.RelationsByField` | src/xencons/fdo.c:1790-1850 | the query makes a present child enumerated unless it is missing, destroys the deleted and missing if the lower devices answered, and leaves the rest |
| `Effects.RemoveByField` | src/xencons/fdo.c:1684-1735 | removal of a started bus leaves exactly the surprise-removed children, missing, and destroys the others; of any other bus it touches none |
| `Devices.AskedByField` | src/xencons/fdo.c:770-771 | ejection is requested for exactly the children with a request that are neither missing, deleted nor the default console |
| `Devices.VisibleByField` | src/xencons/fdo.c:1799-1815 | reported are exactly the children not missing |
| `Devices.VisibleInOrder` | src/xencons/fdo.c:1799-1815 | in the order of the list |
| `Devices.Fdo.constructor` | src/xencons/fdo.c:3078-3090 | creation puts the default console in the list at once |
| `Devices.Pdo.Take` | src/xencons/fdo.c:755-768 | strikes the first entry with the name, and only that one |
| `Devices.Pdo.Reconcile` | src/xencons/fdo.c:742-793 | by fields: a live child that vanished goes missing, and is deleted if never enumerated; no other changes; the I/O manager is asked to eject a live one with a request |
| `Devices.Fdo.DropUnsupported` | src/xencons/fdo.c:950-973 | an entry is dropped if and only if its name begins an unsupported entry |
| `Devices.UnsupportedIff` | src/xencons/fdo.c:961-967 | so names that a listed name merely extends are dropped as well |
| `Devices.Fdo.ScanList` | src/xencons/fdo.c:734-789 | the first loop, over the child list as a sequence and destroying as it goes, is the pure scan; it reports a loss exactly when the scan does and asks for the ejection of exactly the children with a request, in order |
| `Devices.Fdo.CreateChild` | src/xencons/pdo.c:1904-2046 | exactly if every step works and no eject request comes first a new child is listed, resumed in D0; otherwise the bus is as it was |
| `Devices.Fdo.Enumerate` | src/xencons/fdo.c:704-810 | unless switched off, the whole scan is the Scan event of the bus, and its answer asks for invalidation exactly when a loss or a creation happened |
| `Devices.Fdo.ScanDirectory` | src/xencons/fdo.c:890-997 | one turn of the scan thread: nothing unless the bus is started; then the scan of the directory less its unsupported names |
| `Devices.ScanAsksForSupported` | src/xencons/fdo.c:791-993 | a creation is attempted for exactly the supported names in the directory that no counting child has, each once |
| `Devices.Fdo.AddPhysicalDeviceObject` | src/xencons/fdo.c:608-640 | listed and counted, and in D0 resumed; a failed resume changes nothing |
| `Devices.Fdo.RemovePhysicalDeviceObject` | src/xencons/fdo.c:642-667 | unlisted, uncounted and in D0 suspended |
| `Devices.Fdo.Destroy` | src/xencons/pdo.c:2048-2069 | a deleted, missing child leaves the list and gives its references back |
| `Devices.Fdo.D0ToD3` | src/xencons/fdo.c:1397-1440 | every listed child that is neither missing nor deleted is suspended |
| `Devices.Fdo.D3ToD0` | src/xencons/fdo.c:1306-1394 | every listed child is resumed, or nothing happens |
| `Devices.Fdo.StartDevice` | src/xencons/fdo.c:1479-1535 | the start handler is its event |
| `Devices.Fdo.StopDevice` | src/xencons/fdo.c:1572-1598 | the stop handler is its event |
| `Devices.Fdo.QueryOrCancel` | src/xencons/fdo.c:1537-1634 | the query handlers set the pending state and the cancel handlers take it back, only if it is still the one pending |
| `Devices.Fdo.SurpriseRemoval` | src/xencons/fdo.c:1635-1668 | every child goes missing |
| `Devices.Fdo.RemoveDevice` | src/xencons/fdo.c:1670-1749 | children awaiting their own removal stay, the others are destroyed once each, and the last reference ends the bus |
| `Devices.Fdo.QueryDeviceRelations` | src/xencons/fdo.c:1751-1875 | reports exactly the children not missing, in list order, marks new ones enumerated, and reaps the deleted |
| `Devices.Fdo.SetDevicePower` | src/xencons/fdo.c:2157-2197 | a power request is its event |
| `Devices.Fdo.DispatchChild` | src/xencons/pdo.c:1257-1354 | a handler of one child changes that child alone, and the bus goes with its last reference |
| `ThreadLife.StepKeepsInv` | src/xencons/thread.c:101-225 | reference count, pending free and both parties' positions always agree; the join's assertion holds |
| `ThreadLife.FreedExactlyOnce` | src/xencons/thread.c:120-225 | whatever fails and whoever is last: never freed twice, never touched once freed, freed by the time both are through |
| `ThreadLife.EndsFreed` | src/xencons/thread.c:101-225 | from every reachable state the steps run out with the object freed exactly once |
| `PowerSlot.StepKeepsInv` | src/xencons/fdo.c:2613-2668 | every shared access of poster, alerter and worker keeps the mailbox in order |
| `PowerSlot.NoRequestStranded` | src/xencons/fdo.c:2727-2783 | requests are handled in posting order, none twice; the worker sleeps on a clear event only with nothing left to do or a wake on its way, and stops only once alerted |
| `PowerSlot.ComesToRest` | src/xencons/pdo.c:1409-1447 | once every setter has woken it the worker ends asleep with everything handled exactly once, or, alerted, stopped |
| `Stream.AwakeIffNotStranding` | src/xencons/stream.c:217-327 | of all steps exactly two kinds break the promise that a sleeping worker has nothing to do and a stopped one was told to stop: cancelling a refused head request in front of one that could be served, and a start-up call that fails unasked |
| `Stream.NothingStranded` | src/xencons/stream.c:72-94 | in a run with neither of the two no unblocked head request waits on a sleeping worker, and none on one that gave up |
| `Stream.CancelCanStrand` | src/xencons/stream.c:98-107 | that cancellation can happen |
| `Stream.StartUpCanFail` | src/xencons/stream.c:217-231 | and so can that failure, with a request waiting that the console could serve |
| `Stream.NothingServedAfterStop` | src/xencons/stream.c:328-347 | after which nothing is ever served |
| `Stream.ServedInOrder` | src/xencons/stream.c:200-340 | over every run requests are served in posting order, each at most once, none lost: served, held, queued and cancelled make up the posted |
| `Stream.AnswersAreByKind` | src/xencons/stream.c:268-288 | reads are held up by what CanRead says and writes by what CanWrite says |
| `Stream.WokenBeginsPass` | src/xencons/stream.c:246-258 | woken, the worker clears the event and begins a pass, or stops if it was told to |
| `Stream.PassServesPrefix` | src/xencons/stream.c:262-326 | left alone a pass serves the longest unblocked front of the queue and puts the rest back as it was |
| `Stream.Queue.Drain` | src/xencons/stream.c:262-326 | whatever the console answers from one request to the next: all up to the first refusal are served in order, the rest stays as it was |
| `Stream.Queue.CancelAll` | src/xencons/stream.c:412-434 | the queue ends empty, each request completed once as cancelled, in order |
| `Tty.Stream.GetLine` | src/tty/tty.c:216-289 | for every way of chunking: the buffer holds the edit of the whole input, no chunk but the last filled the line, the rest is not read, and it fails only when input ran out |
| `Tty.Stream.TakeChunk` | src/tty/tty.c:244-275 | one chunk, the rest thrown away once the line is full |
| `Tty.Stream.TakeCharacter` | src/tty/tty.c:245-271 | one character stored, deleted or ignored, and what is echoed for it |
| `Tty.EditByCode` | src/tty/tty.c:245-288 | 127 takes the last character away, 3 and 13 are kept and end the line, everything else is kept, and a full line takes no more |
| `Tty.GlyphByCode` | src/tty/tty.c:247-271 | codes below 32 show as a caret and the letter 64 above, save 3 and 13, which do not show |
| `Tty.EditConcat` | src/tty/tty.c:234-284 | editing does not depend on where the input is cut |
| `Tty.EchoShowsLine` | src/tty/tty.c:244-271 | replayed on a row of unbounded width, the echo shows exactly the prompt and the rendering of the kept characters, cursor at its end, blanks behind, for every input however much of it has come |
| `Tty.DeletedLeavesNoTrace` | src/tty/tty.c:252-261 | a character and its deletion leave the line as it was |
| `MultiSz.AnsiToMultiSz` | src/xencons/registry.c:1484-1535 | succeeds if and only if the block fits sixteen bits of bytes; then the capacity assertion holds throughout and the block is filled exactly |
| `MultiSz.EncodeTakesUnits` | src/xencons/registry.c:1495-1497 | the size computed first is the size written |
| `MultiSz.EncodedAt` | src/xencons/registry.c:1515-1530 | each string stands in the block at its place with a zero character behind, and another ends the block |
| `MultiSz.UpcaseByCode` | src/xencons/util.h:358-367 | the letters a to z become those 32 below, everything else stays |
| `MultiSz.MultiSzToAnsi` | src/xencons/registry.c:1021-1081 | for any terminated block: returns its strings as counted strings if and only if every allocation succeeds, and otherwise frees those that did; the assertion fails exactly for lengths the 16-bit sizes cannot hold |
| `MultiSz.CountedIsExactIff` | src/xencons/registry.c:1053-1070 | a string comes out whole with its own counts if and only if it has at most 32766 characters |
| `MultiSz.RoundTripIff` | src/xencons/registry.c:1021-1081 | decoding gives back the encoded list if and only if its strings are non-empty and free of NULs |
| `MultiSz.EncodeDecode` | src/xencons/registry.c:1484-1535 | encoding a decoded block gives the block back |
| `MultiSz.MultiSzToUpcaseAnsi` | src/xencons/fdo.c:812-875 | for any block with two NULs in a row: returns the strings in upper case if and only if every allocation succeeds, and otherwise frees those that did; every copy stays within its block if and only if every string is shorter than 65535 |
| `MultiSz.SegmentsAreStrings` | src/xencons/fdo.c:826-840 | on a list of at least one string both decoders find the same strings |
| `MultiSz.EmptyListMisread` | src/xencons/fdo.c:826-840 | on an empty list they do not |
| `MultiSz.DirectoryRoundTrip` | src/xencons/fdo.c:812-875 | an encoded directory of at least one name decodes to its names |
| `Tokeniser.StrTok` | src/xencons/util.h:278-317 | returns the first token at or after the context, overwrites at most the delimiter behind it, and leaves the context where exactly the remaining tokens follow |
| `Tokeniser.NullForever` | src/xencons/util.h:302-303 | after NULL it keeps returning NULL and writes nothing |
| `Tokeniser.SpansAreTheTokens` | src/xencons/util.h:278-317 | the tokens are exactly the maximal stretches without delimiters, from left to right |
| `Tokeniser.Tokens` | src/xencons/util.h:319-356 | calling until NULL yields all tokens of the original text in order, all still readable in the buffer |
| `Tokeniser.FindOption` | src/xencons/registry.c:1388-1404 | finds the first option of the original text that begins with the prefix, or that there is none |
| `IntrusiveList.InsertTailList` | src/monitor/monitor.c:279-288 | the new entry is last, the ring well formed |
| `IntrusiveList.RemoveEntryList` | src/monitor/monitor.c:290-306 | the others stay a well-formed ring in their order |
| `IntrusiveList.RotateTo` | src/monitor/monitor.c:270-306 | a ring read from any of its entries is a ring |
| `IntrusiveList.AppendTailList` | src/xencons/console.c:411-415 | a ring without a head joins the end of a list |
| `IntrusiveList.Counted.Add` | src/monitor/monitor.c:1158-1182 | appended and counted |
| `IntrusiveList.Counted.Remove` | src/monitor/monitor.c:1184-1222 | removes the first entry with the handle, and only that one |
| `IntrusiveList.Counted.RemoveAll` | src/monitor/monitor.c:1340-1369 | each entry destroyed once, in order, and the list empty |
| `IntrusiveList.Counted.WaitForPipes` | src/monitor/monitor.c:1063-1109 | the array has room for exactly the connections' threads and the server's |
| `IntrusiveList.Counted.Search` | src/xencons/console.c:134-160 | the first entry with the handle, or none |
| `IntrusiveList.Console.Splice` | src/xencons/console.c:405-418 | all handles move in order to a list of their own, the console's is left empty |
| `IntrusiveList.Console.D0ToD3` | src/xencons/console.c:392-429 | and each is destroyed once, in order |

## Left out

- ConsoleRing.Ring.PollReads: without interference only; PumpRun has the interleavings. Requests are values and their system buffers are copied, so a caller that changes a buffer while its request is queued is not seen.
- ConsoleRing.Ring.Dpc: the result of the event channel's Unmask is ignored, as the code does, so whether an event is serviced again is not modelled, and the driver never notifies the backend from ring.c.
- ConsoleRing.Ring.CancelRequests: the race with the I/O manager's own cancellation is in PumpRun, where a request is cancelled by its id.
- PumpRun.RunDelivers: one poller at a time, since RingPoll takes no lock of its own. A zero-length request is put back at the head and holds up its queue; that is kept as the code has it.
- SharedRing.SharedPage.CopyFromRead: the indices are read once, as the code does, and the other side writes between calls only; Spsc lets it write at any point. Memory is sequentially consistent, the barriers being taken to make it so.
- Frontend.Frontend.SetState: a handshake whose backend does not move is reported as still waiting after a given number of rounds, since the code waits for ever. The frontend's spin lock is not modelled (AbiRelease takes it and then calls SetState, which takes it again).
- Frontend.Frontend.TakeTurn: the power handlers that would ask for CONNECTED and ENABLED have those calls commented out (src/xencons/frontend.c:1416 and 1429); the states are modelled all the same.
- Frontend.Frontend.AbiAcquire: ends before the wait for the eject thread.
- Frontend.Frontend.AbiRelease: ends before the wake of the eject thread and the wait for it.
- Frontend.Ring.Disconnect: the page is given back; that it is zeroed first is not stated.
- Frontend.Ring.Connect: the ring object is in two halves, its connection here and its queues in ConsoleRing; the store's read of the backend and all hypercalls succeed or fail at will.
- HoldOff.RunLosesNothing: the users of the macros check for free requests before adding one and answer only what they took, as the header asks of them; request contents are not modelled.
- Lifecycle.PowerBalance: for missing children it gives the surplus by the ledger of power-downs that passed them over, because FdoD0ToD3 does and FdoD3ToD0 does not; the condition is in BalanceKeptIff.
- Lifecycle.RemoveFinishes: handlers are atomic, so what happens to the reference count between releasing the mutex and the test behind it is not modelled.
- Devices.Fdo.D3ToD0: the resume of a listed child succeeds, as the code asserts.
- Devices.Fdo.StartDevice: creating the scan thread, and undoing it, is folded into the one outcome.
- Devices.Fdo.StopDevice: stopping the scan thread is not modelled.
- Devices.Fdo.RemovePhysicalDeviceObject: the wake of the scan thread is not modelled.
- Devices.Fdo.RemoveDevice: the scan awaited first, stopping the scan thread, and the gap between releasing the mutex and the last test are not modelled.
- Devices.Fdo.QueryDeviceRelations: the scan awaited before the report is a separate event here.
- Devices.Fdo.ScanList: the child list is a sequence, so the walk with a saved next pointer over linked entries is not modelled.
- Devices.Fdo.DispatchChild: a child's own device power state, its system power state and its power threads' lives are not modelled.
- Stream.NothingStranded: once WakeupAdd succeeded the console announces through the event every time it becomes ready, which is the contract of the interface this relies on.
- PowerSlot.ComesToRest: what handling a power request does is not modelled there.
- Tty.Stream.GetLine: characters above 127 are outside the model, because iscntrl is undefined for them where char is signed; writes to the terminal succeed.
- MultiSz.MultiSzToAnsi: what a buffer holds after its assertion failed is not stated; characters are those the two character sets share.
- MultiSz.MultiSzToUpcaseAnsi: the result is stated when every copy stayed within its block.
- Tokeniser.FindOption: the copy of the option handed to the caller is not modelled.
- IntrusiveList.Counted.WaitForPipes: the waiting itself, critical sections and a failed allocation are not modelled.
- Pool, MDLs, the registry's Zw calls, pipes, processes, logon and service control appear only as calls that may fail.
- Device text and ID strings, name tables, IOCTL property replies, version stamping in the store, logging, build scripts and INF files.
- RegistryAnsiToSz, RegistryCreateKey's walk down a path, and the query handlers that only forward a request.
