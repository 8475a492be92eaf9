# USB/IP over WebSocket: the session engine

`src/usbws_session.c` makes a blocking byte-stream socket (send, receive, shut down) out of a
callback-driven, message-framed WebSocket that an application thread and a service thread
share.  This project models that engine, the intrusive list it queues frames in, and the
loops that drive it, and proves what every run of it keeps.

| module | what it is |
|---|---|
| `ByteStream` | frames read back as one byte stream; the copy of `usbws_recv` as written and as meant |
| `IntrusiveList` | the circular doubly linked list of `src/usbws_util.h`, on the heap |
| `ReceiveQueue` | the receive side of a session: a class over that list, with a ledger of nodes and of bytes |
| `SessionState` | one session as a value, and what each callback makes of it |
| `Session` | `struct usbws_session` as a class, each function proved against that account |
| `SendProtocol` | one session as a transition system: sender, requests, callbacks, in any interleaving |
| `SendContents` | runs of that system that differ only in the bytes they send |
| `KeepAlive` | the same with a clock, under the health checks of the service loop |
| `Broadcast` | any number of sessions, where each send asks all of them |
| `Receiver` | calls of `usbws_recv` as a transition system, with the frames and endings that come between |
| `EndToEnd` | a sender and a receiver joined by an ordered channel that may re-frame |
| `Wakeup` | the two condition variables, with lock, test, wait, set and signal as separate steps |
| `ClientStart` | the rendezvous between `usbws_client_open` and the client thread |
| `SendRace` | the unlocked stores and tests that `SendProtocol` takes as one step, and what writes between them do |
| `Service` | the loops over all sessions, the context and the service loop |

How the environment enters:

- `lws_write` takes between 0 and all of the data it is given; how many bytes is a parameter
  of every write (`accept`).  What it returns for a ping is a parameter too (`sent`), failure
  included.  A failed write of data (-1) is in the one-step account only:
  `SessionState.WriteExactlyWhenAccepted` shows that it alone breaks a send.
- A writable callback arrives only if one was asked for; asking again before it arrives
  changes nothing.
- Time is an integer that callbacks bring with them and that does not run back.
- Where a method of `Session` waits, what other threads do meanwhile is a parameter: one
  batch of events for each point at which the lock is not held.  If the batches run out while
  it sleeps, it says so instead of waiting on.
- One thread sends and one receives on a session.  `Wakeup.NoLostWakeupExactlyWhen` shows
  that the code needs this.

## What the proofs say about the code

Most of what the engine is for holds in every run.  Where it does not, the exact condition is
proved.

- **The receive copy.** The `memcpy` at `src/usbws_session.c:438-439` reads from the start of
  the frame instead of at `recv_offset`, and bounds the copy by `len` instead of by
  `len - total`.  How far the traversal moves is right all the same (`ByteStream.DrainTakes`).
  What reaches the caller is right for every content exactly when the read starts at a frame
  boundary and no frame but the first straddles the end of the request
  (`ByteStream.LiteralExactlyWhen`), and the caller's buffer is overrun exactly when one does
  (`ByteStream.LiteralOverrunsExactlyWhen`).  A whole run of calls delivers the stream and
  stays within its buffers, whatever the bytes are, exactly when this holds at each of its
  traversals (`Receiver.FaithfulExactlyWhen`).  The stream theorems are about such runs, and
  a run with the meant copy is always one.
- **Sending again after a failed send.** A send that returns -1 leaves `send_buf` set, and the
  next one overwrites it.  In a run what is on the wire is a prefix of all the buffers handed
  over, whatever their bytes are, exactly when no byte is written once a buffer was published
  over unsent bytes (`SendContents.PrefixExactlyWhen`).  Seen from the caller, the next send,
  until another is published, is right for every buffer exactly when all that was handed over
  before has been written (`SendProtocol.NextSendRightExactlyWhen`); `SendProtocol.FailedSend`
  reaches states in which it has not.
- **Unlocked publication.** The three stores of `usbws_send` and the early test in
  `usbws_handle_send_request` leave gaps.  In a run every send puts its buffer on the wire once
  and returns its length, and no copy is wild, exactly when no critical section falls where it
  does harm (`SendRace.SendsExactExactlyWhen`).  Runs reach all of it: a first send that
  returns 0 with nothing written in a session that lasts (`SendRace.FirstSendReturnsZero`), and
  copies of a negative length (`SendRace.StaleRequest`, `SendRace.TornPublication`).
- **Keep-alive thresholds.** Silence is always noticed before a session is given up exactly for
  intervals P of at most 60 seconds.  If each ping that a check asks for is written within W
  seconds of that check, and each ping written is answered within R seconds, the peer is kept in
  every run exactly when P+W+R is at most 60; the default interval of 60 leaves no time at all.
  Nothing in the code bounds W: a ping gives way to data, waits for a callback, or is refused,
  and without such a bound no interval is short enough however fast the peer answers
  (`KeepAlive.AnsweringPeerKeptExactlyWhen`).  In particular a peer to which data is being sent
  can be given up without ever having been sent a ping (`KeepAlive.GivenUpUnpinged`).
- **Wake-ups.** `pthread_cond_signal` is enough exactly when no two threads wait on one
  condition.
- **Client start.** The value of `started` is not reset when a client opens again, so a socket
  means an established connection exactly when no earlier open left it positive, and a failure
  means that this connection was stopped exactly when none left it negative; an earlier open
  can leave either (`ClientStart.LeavesStarted`).  And an opener sleeps on if the client thread
  goes without any callback.

## Model

| member | source | states |
|---|---|---|
| ByteStream.StreamSnoc | src/usbws_session.c:128-141 | a frame that joins the queue joins the end of the byte stream, wherever the reader stands |
| ByteStream.DrainTakesPrefix | src/usbws_session.c:429-449 | with the meant copy a traversal takes exactly the first min(wanted, available) bytes off the stream and leaves the rest, for any framing and offset |
| ByteStream.DrainTakes | src/usbws_session.c:429-449 | with either copy, what a traversal passes over comes off the front of the stream, and the offset stays inside the first frame or zero |
| ByteStream.DrainFills | src/usbws_session.c:429-449 | with either copy, the caller's buffer grows by as many bytes as were passed over |
| ByteStream.DrainStops | src/usbws_session.c:429-449 | a traversal that leaves the request unmet leaves the queue empty |
| ByteStream.DrainDelivers | src/usbws_session.c:429-449 | wherever the copy is right, the bytes copied are the bytes taken and stay within the request |
| ByteStream.LiteralFrame | src/usbws_session.c:437-441 | the literal copy takes its bytes from the start of the frame, as many as are unread of it up to the length of the request |
| ByteStream.LiteralAgrees | src/usbws_session.c:437-441 | the literal copy does what the meant one does from a frame boundary when no later frame straddles the end of the request |
| ByteStream.LiteralExactlyWhen | src/usbws_session.c:437-441 | for given frame lengths and offset, the literal copy is right for every content if and only if that condition holds |
| ByteStream.LiteralOverrunsExactlyWhen | src/usbws_session.c:437-441 | the literal copy writes beyond the caller's buffer if and only if a frame straddles its end |
| ByteStream.LiteralDiffers | src/usbws_session.c:437-441 | two one-byte reads of one frame get its first byte twice; a three-byte read gets four bytes |
| IntrusiveList.InitListHead | src/usbws_util.h:66-70 | makes the empty ring |
| IntrusiveList.ListAdd | src/usbws_util.h:72-80 | links the new entry between two others, both ways |
| IntrusiveList.ListAddTail | src/usbws_util.h:82-85 | on a ring of any length, appends to the sequence of entries and keeps the links mutually inverse |
| IntrusiveList.ListUnlink | src/usbws_util.h:87-91 | joins two entries, both ways |
| IntrusiveList.ListDel | src/usbws_util.h:93-96 | removes the entry at any position from the sequence and keeps the ring; the entry's own links stay |
| IntrusiveList.ListDelFirst | src/usbws_session.c:430-433 | removing the first entry leaves the tail of the sequence |
| IntrusiveList.ListEmpty | src/usbws_util.h:98-101 | true exactly when there are no entries |
| IntrusiveList.RingDeterminesEntries | src/usbws_util.h:58-60 | the links alone fix the sequence of entries |
| ReceiveQueue.RecvQueue.Enqueue | src/usbws_session.c:129-140 | adds exactly one fresh node behind the older ones, which stay; every node ever allocated is queued, freed or unlinked, and no byte is unaccounted for |
| ReceiveQueue.RecvQueue.RemoveFirst | src/usbws_session.c:432-433 | one node leaves the queue for the freed or for the unlinked ones |
| ReceiveQueue.RecvQueue.TakeFrom | src/usbws_session.c:430-448 | the loop body does one step of the value-level traversal, and says when to break |
| ReceiveQueue.SuffixMeans | src/usbws_session.c:429-449 | what a traversal is said to leave linked are the last entries of what was, in order |
| ReceiveQueue.RecvQueue.Walk | src/usbws_session.c:429-449 | the safe traversal ends as the value-level one does, reads through no freed node, visits the nodes in order, frees exactly what it unlinks, and leaves the unvisited suffix linked |
| ReceiveQueue.RecvQueue.Traverse | src/usbws_session.c:429-449 | the same from any state of the queue: a suffix of the nodes stays linked, and every node and byte is still accounted for once |
| ReceiveQueue.RecvQueue.UnlinkAll | src/usbws_session.c:84-86 | visits every node once, in order, and leaves the list empty with nothing freed |
| ReceiveQueue.RecvQueue.Close | src/usbws_session.c:83-87 | drops exactly the unread rest of the stream; bytes queued are bytes taken plus bytes dropped |
| SessionState.WriteExactlyWhenAccepted | src/usbws_session.c:149-176 | one write keeps "on the wire is exactly the buffer up to the offset" if and only if it did not fail |
| SessionState.HandleWritesOrKeeps | src/usbws_session.c:303-371 | every event writes the next chunk of the pending buffer or leaves the send alone |
| SessionState.HandleKeepsSending | src/usbws_session.c:303-371 | every event keeps a send exact and its offset only grows |
| SessionState.HandleKeepsChunksBounded | src/usbws_session.c:145-157 | no event writes a data message of more than 1500 bytes |
| SessionState.HandleKeepsCredit | src/usbws_session.c:149-264 | no event makes or loses the right to write, or leaves a ping or a requested buffer beside an unused one |
| SessionState.HandleNeverRevives | src/usbws_session.c:22-51 | no event sets `cont` again |
| SessionState.ClosesExactlyWhenEnded | src/usbws_session.c:266-371 | a close is asked for and -1 answered by exactly the checks that find the session ended or silent for the interval and 60 seconds and the pongs that find it ended; else the answer is what a request has put on the wire, or 0; `cont` is cleared by such silence, a shutdown and a close |
| SessionState.HeardSessionLeftAlone | src/usbws_session.c:272-301 | a check changes nothing with pings switched off, within the interval, or while a ping is outstanding and there is time |
| SessionState.QuietSessionPinged | src/usbws_session.c:231-301 | a check of a session quiet for the interval sends a ping with a credit, spends it, and leaves one pending without |
| SessionState.SilentSessionClosed | src/usbws_session.c:272-301 | a check of an ended or silent session ends and closes it, with a ping |
| SessionState.IdleCallbackKeepsCredit | src/usbws_session.c:247-264 | a callback with nothing to write writes nothing, keeps the credit and asks for no other |
| SessionState.WritesExactlyForReason | src/usbws_session.c:149-301 | an event writes one message, behind the others, if there is data and a credit, a pending ping at a callback, or a credit at a check that pings or closes; and none otherwise |
| SessionState.PublishBegins | src/usbws_session.c:391-394 | a publication and its request begin an exact send, whatever was published before, and its sender may sleep |
| Session.Session.constructor | src/usbws_session.c:22-33 | an established session has no credit, one callback requested, and a receive side with nothing in it |
| Session.Session.Discontinue | src/usbws_session.c:35-51 | clears `cont` and changes nothing else |
| Session.Session.SendData | src/usbws_session.c:149-176 | the fields and the wire become those of the value-level write, a failed write included |
| Session.Session.HandleSendRequest | src/usbws_session.c:178-204 | writes only with a buffer and a credit, returns what was sent, and else wakes the service thread |
| Session.Session.WritePing | src/usbws_session.c:210-229 | spends the credit, and marks the ping outstanding if it was taken, for every return of the library |
| Session.Session.SendPing | src/usbws_session.c:231-245 | a ping that cannot go out now, or of which nothing was taken, is left pending; one that failed is not |
| Session.Session.HandleWritable | src/usbws_session.c:247-264 | the fields and the wire become those of the value-level callback, of which the lemmas above speak; returns what was sent |
| Session.Session.CheckSession | src/usbws_session.c:272-301 | closes an ended or silent session, asks for a ping of a quiet one, with the answer the callback gives |
| Session.Session.HandlePong | src/usbws_session.c:346-355 | an answered ping refreshes the stamp; an ended session is closed instead |
| Session.Session.HandleRecv | src/usbws_session.c:121-143 | a binary frame joins the end of the queue and of the stream, any other only refreshes the stamp |
| Session.Session.Close | src/usbws_session.c:76-90 | the queue is empty, the unread bytes are dropped, `cont` is cleared |
| Session.Session.HandleOther | src/usbws_session.c:341-371 | the callbacks that leave the queue alone do on the heap what they do to the value, with their answers |
| Session.Session.HandleSession | src/usbws_session.c:303-371 | each callback does on the heap what it does to the value and to the reader, with its answer; the queue gains the binary frames, loses all at a close, and forgets no node |
| Session.Session.Interfere | src/usbws_session.c:303-371 | a batch of events happens to the session one by one; it is a run of the reader, keeps a send exact, and forgets no node |
| Session.Session.Publish | src/usbws_session.c:391-394 | an exact send of the whole buffer has begun, and if bytes remain a callback is coming |
| Session.Session.AwaitSent | src/usbws_session.c:396-400 | the wait ends when the buffer is gone or the session has ended, and not before, whatever events come |
| Session.Session.Send | src/usbws_session.c:384-406 | whatever events come meanwhile: -1 exactly if the session has ended by then; a count is the whole length with the buffer released and written once; a sender asleep has a callback coming and no event left |
| Session.Session.AwaitFrame | src/usbws_session.c:420-428 | goes on only with a frame queued or the session ended |
| Session.Session.TakeFrames | src/usbws_session.c:429-452 | the locked traversal and the tests after it are the reader's step of module Receiver, and end the call when all that was asked for has come, or some without `all` |
| Session.Session.ReadOnce | src/usbws_session.c:420-452 | one turn of the outer loop waits and then is that step or gives up, and it makes headway |
| Session.Session.ReadInto | src/usbws_session.c:419-453 | the loop, with others acting between its unlocking and its test, ends with the request met, the call failed, or the session ended |
| Session.Session.Recv | src/usbws_session.c:408-456 | whatever events come meanwhile, a call is a run of the reader of module Receiver that begins this call, with its length and flag, and no other; a count with `all` set that is short, or without it zero, means the session ended; it returns as many bytes as it took off the queue, and with right copies no more than asked for; a reader asleep has no event left and a request not met |
| SendProtocol.InvKept | src/usbws_session.c:149-264 | every step of sender, requests and callbacks keeps all the invariants below |
| SendProtocol.SendExactness | src/usbws_session.c:149-204 | in every run chunks are at most 1500 bytes, the wire is exactly the buffer up to the offset after what was there before, no byte is unaccounted for, and without a failed send the wire is a prefix of all buffers, and at rest all of them |
| SendProtocol.ReturnExactness | src/usbws_session.c:396-405 | a send returns a count exactly while the session lasts, and then the buffer's length, with the buffer released and all of it on the wire |
| SendProtocol.BytesConserved | src/usbws_session.c:149-176 | bytes handed over are written, still to go, or overwritten |
| SendContents.PrefixExactlyWhen | src/usbws_session.c:384-406 | in a run what is on the wire is a prefix of all buffers handed over, whatever their bytes are, if and only if no byte is written after a publication over unsent bytes |
| SendProtocol.NextSendRightExactlyWhen | src/usbws_session.c:384-406 | from any rest, what the next send puts on the wire, until another is published, leaves a prefix of the buffers handed over there, for every buffer and continuation, if and only if all handed over before was written |
| SendProtocol.FailedSend | src/usbws_session.c:396-404 | a send can fail with any part of its first chunk written |
| SendProtocol.ResendSkips | src/usbws_session.c:391-404 | after that the next send puts its first byte where an unsent one was due |
| SendProtocol.WireGrows | src/usbws_session.c:149-176 | what is on the wire stays there |
| SendProtocol.RequestWritesNextChunk | src/usbws_session.c:178-192 | a request leaves a session with no buffer or no credit as it is, and else writes in one message as many of the next 1500 bytes as the library takes, for its credit, and releases the buffer at its end |
| SendProtocol.CallbackOutstanding | src/usbws_session.c:384-406 | in every run a sender that has asked can leave if and only if its buffer is gone or the session has ended, and otherwise has a callback coming |
| SendProtocol.WritableAdvances | src/usbws_session.c:247-257 | a callback whose write takes a byte brings the end nearer, and another is requested |
| SendProtocol.FinishesWithin | src/usbws_session.c:149-264 | with writes taken whole, each writable callback brings a pending buffer one chunk nearer its end, in any run without a new publication |
| SendProtocol.SendFinishesWithin | src/usbws_session.c:384-406 | from its publication a buffer is written whole, in place, and released after at most ceil(len/1500) callbacks (one for an empty buffer), whatever sender, other senders and service thread do between them |
| SendProtocol.CreditConserved | src/usbws_session.c:149-264 | in every run credit and request exclude each other, each callback pays for exactly one write, no ping waits beside a credit, and solicited pongs match pings |
| SendProtocol.PingsKept | src/usbws_session.c:210-301 | every step keeps pings written less pongs received equal to `pinged`, never together with a pending one |
| SendProtocol.DeferredPingSettled | src/usbws_session.c:255-261 | the next callback sends a pending ping or puts data in its place |
| SendProtocol.StepsWriteForReason | src/usbws_session.c:149-301 | in every run a step writes one message if it is an event with one of those reasons, and none otherwise |
| SendProtocol.AskedPingFate | src/usbws_session.c:247-301 | a check of a quiet session asks for a ping, and in every run from there, until a pong, it is outstanding or pending, or data took its place, or the library refused it |
| KeepAlive.CheckWatched | src/usbws_session.c:272-301 | a health check keeps every bound below |
| KeepAlive.NoticedExactlyWhen | src/usbws_session.c:272-301 | in every run a check noticed the silence before the session is given up, if and only if the interval is at most 60 |
| KeepAlive.SilenceBoundExactlyWhen | src/usbws_session.c:272-301 | a bound on the silence when a session is given up holds in every run if and only if it is at least 2P+59 |
| KeepAlive.AnsweringPeerKeptExactlyWhen | src/usbws_session.c:210-355 | a peer is kept in every run in which each ping a check asks for is written within W seconds of that check and each ping written is answered within R, if and only if both bounds are given and P+W+R is at most 60 |
| KeepAlive.GivenUpUnpinged | src/usbws_session.c:247-301 | for every interval, and however fast the peer answers pings, it can be given up while data is sent to it and no ping ever was |
| KeepAlive.SilenceEndsSession | src/usbws_session.c:272-301 | in every run a session that lasts was silent for less than P+60 seconds at its last check and for at most 2P+59 now; one given up was asked to close; none that lasts was |
| Broadcast.Established | src/usbws_ctx.c:41-45 | any number of established sessions is a start for such runs |
| Broadcast.EverySessionRunsAlone | src/usbws_ctx.c:41-45 | in every run of any number of sessions, each one's history is a run of that session alone |
| Broadcast.VisitIsolated | src/usbws_session.c:178-204 | a request changes one session, and moves that one by its own next chunk or not at all |
| Broadcast.RequestReachesSender | src/usbws_session.c:394 | when the request has been round, the sender's buffer is gone or a callback is coming, or the session has ended |
| Receiver.MoveKeepsBase | src/usbws_session.c:408-456 | at every step what arrived is what was taken and what is queued, with either copy |
| Receiver.RightRunKeepsHanded | src/usbws_session.c:408-456 | in a run with right copies every moment shows the caller a prefix of what arrived, within its buffer |
| Receiver.FaithfulExactlyWhen | src/usbws_session.c:429-449 | a run of calls delivers the first bytes that arrived and overruns no buffer, whatever the bytes are, if and only if each traversal meets the frame-length condition |
| Receiver.MeantIsRight | src/usbws_session.c:437-441 | with the meant copy every run is such a run |
| Receiver.TakeGoesOn | src/usbws_session.c:429-453 | after a traversal a call goes on if and only if it is short of its length and either wants all or has nothing; otherwise it returns all it has copied |
| Receiver.QuitReturns | src/usbws_session.c:419-455 | a call fails if the end finds it waiting, and returns all it has copied if the end finds it between traversals |
| Receiver.TestedBeforeWaiting | src/usbws_session.c:419-428 | a call waits only after the test of its loop found the session lasting, and tests anew after each traversal |
| Receiver.NothingAfterTheEnd | src/usbws_session.c:419-428 | in every run after the session has ended nothing more is taken, so a failed call leaves no hole before later bytes |
| Receiver.HappensByMoves | src/usbws_session.c:303-371 | what each callback does to the reader is a run of its steps |
| EndToEnd.StreamDelivered | src/usbws_session.c:384-456 | in every run with right copies, what was received is a prefix of what was written and, unless a buffer was overwritten, of what was handed to send; when all has arrived and been read it is all of it |
| EndToEnd.DeliveredIsPrefix | src/usbws_session.c:408-456 | wherever the copies have been right, the delivered bytes are a prefix of the sender's wire |
| Wakeup.NoLostWakeupExactlyWhen | src/usbws_session.c:35-51 | in every run a thread asleep after the end is about to be signalled, if and only if no two threads wait on one condition |
| Wakeup.NobodySleepsAfterTeardown | src/usbws_session.c:333-337 | once one discontinuer is through, nobody sleeps or is about to, then or ever after |
| Wakeup.NobodyStuckAfterTeardown | src/usbws_session.c:333-337 | and from then on a thread in its wait loop can take its own next step, or the holder of its lock can, and that brings it out of the loop or the lock nearer to free |
| Wakeup.LoopEndsAfterTeardown | src/usbws_session.c:333-337 | no step takes such a thread further from being out, and each of its own, at most three, takes it nearer |
| Wakeup.LeavesForReason | src/usbws_session.c:396-428 | a thread leaves its wait loop only from a test that found the session ended or its condition met, and sleeps only from one that did not |
| Wakeup.InsideHoldsLock | src/usbws_session.c:396-428 | and it does so only while it holds the lock of its condition |
| Wakeup.SleepersHaveReason | src/usbws_session.c:384-428 | a sleeper has something to wait for: completions and arrivals are not slept through |
| Wakeup.InvKept | src/usbws_session.c:35-51 | every step of waiters, discontinuers and notifiers keeps the locks, `cont` and the sleepers consistent |
| ClientStart.NoReportSleptThrough | src/usbws_client.c:71-90 | an opener sleeps after a report only while its signal is still to come |
| ClientStart.SocketMeansEstablishedExactlyWhen | src/usbws_client.c:71-194 | a socket is returned only after the established callback, in every run, if and only if `started` was not positive before |
| ClientStart.FailureMeansStoppedExactlyWhen | src/usbws_client.c:71-194 | the open fails only after this connection was stopped, in every run, if and only if `started` was not negative before |
| ClientStart.LeavesStarted | src/usbws_client.c:71-194 | a first open can leave `started` at 1 and at -1 |
| ClientStart.SleepsOnOnlyUnreported | src/usbws_client.c:25-90 | an opener asleep when the client thread is gone was never reported to |
| ClientStart.CanSleepOnForever | src/usbws_client.c:25-90 | such a run exists and only a spurious wake-up can follow |
| SendRace.SendsExactExactlyWhen | src/usbws_session.c:178-406 | with the stores and the test as separate steps, in every run that came to rest each send was exact and no copy wild, if and only if no critical section fell where it does harm |
| SendRace.WriteIsSendData | src/usbws_session.c:149-176 | where the three fields fit together a write here is the write of the coarser models |
| SendRace.FirstSendReturnsZero | src/usbws_session.c:391-405 | a run reaches a first send that returns 0 with nothing written |
| SendRace.StaleRequest | src/usbws_session.c:183-191 | a run reaches a request that, with the buffer gone and returned, is about to copy a negative length |
| SendRace.TornPublication | src/usbws_session.c:391-393 | a run reaches a callback between the first two stores of a send that finds the new buffer with length zero and the old offset |
| Service.RequestSend | src/usbws_ctx.c:41-45 | every session gets the request once and answers for itself |
| Service.HealthCheck | src/usbws_ctx.c:35-39 | every session is checked once |
| Service.ChecksFollowTurns | src/usbwsd.c:262-267 | there is one check for each call of the library before the first that failed, up to and including the first during which the context was stopped |
| Service.ChecksInOrder | src/usbwsd.c:262-267 | the checks are made one by one, each on what the one before has left |
| Service.ChecksLeave | src/usbwsd.c:262-267 | they leave no lasting session whose peer was silent for P+60 seconds at the last, nor one silent for P without a ping outstanding, pending or refused |
| Service.ChecksSpaced | src/usbwsd.c:235-272 | the computed timeout in milliseconds keeps checks at most the interval apart on the clock of seconds |
| Service.ServedRunIsSpaced | src/usbwsd.c:235-272 | a session whose checks are those of the loop runs as module KeepAlive assumes |
| Service.Serve | src/usbwsd.c:235-272 | the loop checks every session at those times, that far apart, and leaves them so; a stopped context makes no check |
| Service.Daemon | src/usbwsd.c:235-272 | the interval option, or 60 seconds, is the spacing of the checks |

## Left out

- A failed write of data (-1) in whole runs: the library is taken to accept between 0 and all bytes; the one-step lemma SessionState.WriteExactlyWhenAccepted says what a failure does.
- Allocation failure, in `usbws_handle_recv` and elsewhere.
- Send buffers that are NULL or of negative length, and receive requests of negative length.
- The multiplication of the interval by 1000 as a C `int`, which overflows above 2147483 seconds, and negative intervals; `difftime` truncated to `int`.
- SendProtocol.SendExactness: takes the three stores of a publication, and a request's test with its critical section, as one step each; module SendRace is about the steps in between.
- SendRace.SendsExactExactlyWhen: the session lasts and sends no pings, and nothing is said of what the program does after a copy from outside its buffer.
- Session.Session.Discontinue: the two signals are no part of it; module Wakeup is about them.
- Session.Session.SendData: the completion signal is no part of it; module Wakeup is about it.
- Session.Session.HandleSendRequest: a failed write of data is not covered, as above.
- Session.Session.HandleWritable: a failed write of data is not covered, as above.
- Session.Session.HandleSession: the hooks that start and stop a worker are left out, and taken to answer 0.
- Session.Session.Publish: its stores and its request, which visits other sessions too, are one step on this session; modules SendRace and Broadcast are about the rest.
- Session.Session.Send: waiting is cut off where the given events end.
- Session.Session.Recv: waiting is cut off where the given events end, and reading during another read of the same session is not covered.
- SendProtocol.SendFinishesWithin: assumes that each write is taken whole; with shorter writes SendProtocol.WritableAdvances gives a decreasing measure, and that callbacks come at all is the library's part.
- Wakeup.NobodySleepsAfterTeardown: the join itself is not a step; it comes after the discontinuer is through, and that the worker then ends is up to the worker.
- ClientStart.SocketMeansEstablishedExactlyWhen: the client is a transition system over values, not a class; freeing of the socket and of the client is not modelled.
- Service.Serve: what the library calls back between two checks is not part of it; module KeepAlive is about the session between them.
- The one-second wait of `usbws_wait_recv` before a close: it reads the queue and changes nothing.
- The library's reaction to a close and to a cancelled service call, and all else inside libwebsockets and the USB/IP library, whose messages are opaque bytes.
- The health of client sessions: the client loop makes no health checks, so the keep-alive bounds are about the service side.
- Memory ordering below lock and condition-variable granularity, and fairness of the scheduler.
- Options, URLs, proxies, SSL modes, pid files, signals, daemonising, peer names, logging and Windows shims: plumbing that would only add easy members.
