/** `struct usbws_session` on the heap and the functions of src/usbws_session.c that
    change it in place, each proved against its value-level account.

    Where a function waits, what other threads do meanwhile is a parameter: one batch of
    events for every point at which the lock is not held.  When the batches run out while
    the function sleeps, it reports that it is still asleep. */
module Session {
  import opened ByteStream
  import opened IntrusiveList
  import opened ReceiveQueue
  import opened SessionState
  import opened Receiver

  datatype SendResult = Sent(n: nat) | SendFailed | SendAsleep
  datatype RecvResult = Received(data: seq<byte>) | RecvFailed | RecvAsleep(partial: seq<byte>)
  /** Where one turn of the loop of usbws_recv leaves the call. */
  datatype Turn = Again | Enough | GaveUp | StillAsleep

  function CallOf(turn: Turn, len: nat, all: bool, out: seq<byte>): Call {
    match turn
    case Again => Call.Reading(len, all, out, false)
    case StillAsleep => Call.Reading(len, all, out, true)
    case _ => NoCall
  }

  class Session {
    var cont: bool
    var writable: bool
    var pinged: bool
    var pingPending: bool
    var stamp: int
    var sendBuf: Option<seq<byte>>
    var sendLen: int
    var sendOffset: int
    const recv: RecvQueue

    // what the library holds for this connection
    var requested: bool
    var wire: seq<Message>
    var closeAsked: bool

    // what calls of Recv returned
    ghost var delivered: seq<byte>

    function View(): State
      reads this
    {
      State(cont, writable, pinged, pingPending, stamp, sendBuf, sendLen, sendOffset, requested, wire, closeAsked)
    }

    /** The receive side during `call`, as module Receiver describes it. */
    ghost function Reading(call: Call): Reader
      reads this, recv
    {
      Reader(cont, !recv.closed, recv.Frames(), recv.offset, call, recv.enqueued, recv.taken, delivered)
    }

    ghost predicate Valid()
      reads this, recv, recv.head, recv.queued, recv.freed, recv.unlinked
    {
      recv.Valid() && Consistent(View()) && (recv.closed ==> !cont)
    }

    /** usbws_session_init, and the first request for a writable callback */
    constructor (now: int)
      ensures Valid() && View() == Established(now) && Reading(NoCall) == Receiver.Fresh()
      ensures fresh(recv) && fresh(recv.head) && recv.created == {}
    {
      cont, writable, pinged, pingPending := true, false, false, false;
      stamp := now;
      sendBuf, sendLen, sendOffset := None, 0, 0;
      recv := new RecvQueue();
      requested, wire, closeAsked := true, [], false;
      delivered := [];
    }

    /** usbws_session_discontinue, and usbws_shutdown; the signals it sends are the
        subject of module Wakeup. */
    method Discontinue()
      modifies `cont
      ensures View() == old(View()).(cont := false)
    {
      cont := false;
    }

    /** __send_data */
    method SendData(sent: int)
      requires sendBuf.Some? && Consistent(View()) && -1 <= sent <= ChunkLen(View())
      modifies `sendBuf, `sendLen, `sendOffset, `writable, `requested, `wire
      ensures View() == SessionState.SendData(old(View()), sent)
    {
      var bytes := sendLen - sendOffset;
      bytes := if bytes > SEND_CONTENT then SEND_CONTENT else bytes;
      var p := sendBuf.value[sendOffset..sendOffset + bytes];
      wire := wire + [Data(if sent < 0 then [] else p[..sent])];
      sendOffset := sendOffset + sent;
      if sendOffset >= sendLen {
        sendBuf := None;
        sendLen := 0;
      }
      writable := false;
      requested := true;
    }

    /** usbws_handle_send_request; `cancel` when it wakes the service thread instead. */
    method HandleSendRequest(accept: nat) returns (ret: int, cancel: bool)
      requires Consistent(View())
      modifies `sendBuf, `sendLen, `sendOffset, `writable, `requested, `wire
      ensures View() == SessionState.HandleSendRequest(old(View()), accept)
      ensures ret == if old(sendBuf.Some? && writable) then Min(accept, old(ChunkLen(View()))) else 0
      ensures cancel <==> old(sendBuf.Some?) && ret == 0
    {
      if sendBuf.None? {
        return 0, false;
      }
      ret := 0;
      if writable {
        ret := Min(accept, ChunkLen(View()));
        SendData(ret);
      }
      cancel := ret == 0;
    }

    /** __send_ping */
    method WritePing(sent: int)
      modifies `pinged, `writable, `requested, `wire
      ensures View() == SessionState.WritePing(old(View()), sent)
    {
      wire := wire + [Ping(sent > 0)];
      if sent > 0 {
        pinged := true;
      }
      writable := false;
      requested := true;
    }

    /** usbws_send_ping */
    method SendPing(sent: int) returns (ret: int)
      modifies `pinged, `pingPending, `writable, `requested, `wire
      ensures View() == SessionState.SendPing(old(View()), sent)
      ensures ret == if old(writable) then sent else 0
    {
      ret := 0;
      if writable {
        WritePing(sent);
        ret := sent;
      }
      if ret == 0 {
        pingPending := true;
      }
    }

    /** usbws_handle_writable */
    method HandleWritable(accept: nat, sent: int) returns (ret: int)
      requires Consistent(View())
      modifies `sendBuf, `sendLen, `sendOffset, `pinged, `pingPending, `writable, `requested, `wire
      ensures View() == SessionState.HandleWritable(old(View()), accept, sent)
      ensures ret ==
        if old(sendBuf.Some?) then Min(accept, old(ChunkLen(View()))) else if old(pingPending) then sent else 0
    {
      ret := 0;
      requested := false;
      writable := true;
      if sendBuf.Some? {
        pingPending := false;
        ret := Min(accept, ChunkLen(View()));
        SendData(ret);
      } else if pingPending {
        pingPending := false;
        WritePing(sent);
        ret := sent;
      }
    }

    /** usbws_check_session; `-1` is the answer that gives the session up. */
    method CheckSession(interval: int, now: int, sent: int) returns (ret: int)
      modifies `cont, `pinged, `pingPending, `writable, `requested, `wire, `closeAsked
      ensures View() == SessionState.CheckSession(old(View()), interval, now, sent)
      ensures ret == if old(!cont) || TimesOut(old(View()), interval, now) then -1 else 0
    {
      var delta := now - stamp;
      if !cont {
        var _ := SendPing(sent);
        closeAsked := true;
        return -1;
      } else if interval == 0 {
        return 0;
      } else if delta >= interval + PING_PONG_TIMEOUT {
        Discontinue();
        var _ := SendPing(sent);
        closeAsked := true;
        return -1;
      } else if delta >= interval && !pinged {
        var _ := SendPing(sent);
      }
      return 0;
    }

    /** The LWS_CALLBACK_RECEIVE_PONG case */
    method HandlePong(now: int) returns (ret: int)
      modifies `closeAsked, `stamp, `pinged
      ensures View() == SessionState.HandlePong(old(View()), now)
      ensures ret == if cont then 0 else -1
    {
      if !cont {
        closeAsked := true;
        return -1;
      }
      stamp := now;
      pinged := false;
      return 0;
    }

    /** usbws_handle_recv and the time stamp: a binary frame joins the end of the stream,
        any other frame leaves it alone. */
    method HandleRecv(now: int, binary: bool, payload: seq<byte>)
      requires Valid() && !recv.closed
      modifies `stamp, recv`created, recv`queued, recv`enqueued, recv.head, recv.Entries()
      ensures Valid() && View() == old(View()).(stamp := now)
      ensures recv.Frames() == old(recv.Frames()) + (if binary then [payload] else [])
      ensures recv.enqueued == old(recv.enqueued) + (if binary then payload else [])
      ensures Reading(NoCall) == Happened(old(Reading(NoCall)), Receive(now, binary, payload), cont)
      ensures recv.NodesKept()
    {
      if binary {
        recv.Enqueue(payload);
      }
      stamp := now;
    }

    /** usbws_session_close */
    method Close()
      requires Valid() && !recv.closed
      modifies `cont, recv, recv.head, recv.Entries()
      ensures Valid() && recv.closed && View() == old(View()).(cont := false)
      ensures Reading(NoCall) == Happened(old(Reading(NoCall)), Event.Closed, cont)
      ensures recv.dropped == old(Stream(recv.Frames(), recv.offset)) && recv.freed == old(recv.freed)
      ensures recv.unlinked == old(recv.unlinked) + old(recv.Entries()) && recv.Entries() == {}
      ensures recv.NodesKept()
    {
      recv.Close();
      Discontinue();
    }

    /** The library calls back nothing more for a connection it has closed; requests and
        shutdowns come from the application's own threads. */
    predicate Possible(e: Event)
      reads recv
    {
      recv.closed ==> e.SendRequest? || e.Shutdown?
    }

    /** The cases of usbws_handle_session that leave the queue alone, and usbws_shutdown. */
    method HandleOther(interval: int, e: Event) returns (ret: int)
      requires Consistent(View()) && !e.Receive? && !e.Closed?
      modifies `cont, `writable, `pinged, `pingPending, `stamp, `sendBuf, `sendLen, `sendOffset,
        `requested, `wire, `closeAsked
      ensures View() == Handle(old(View()), interval, e) && ret == Answer(old(View()), interval, e)
    {
      ret := 0;
      match e {
        case Writable(accept, sent) => var _ := HandleWritable(accept, sent);
        case SendRequest(accept) =>
          var cancel;
          ret, cancel := HandleSendRequest(accept);
        case HealthCheck(now, sent) => ret := CheckSession(interval, now, sent);
        case Pong(now) => ret := HandlePong(now);
        case Shutdown => Discontinue();
      }
    }

    /** The same, as the reader sees it. */
    method HandleUnread(interval: int, e: Event) returns (ret: int)
      requires Valid() && !e.Receive? && !e.Closed?
      modifies `cont, `writable, `pinged, `pingPending, `stamp, `sendBuf, `sendLen, `sendOffset,
        `requested, `wire, `closeAsked
      ensures Valid() && View() == Handle(old(View()), interval, e) && ret == Answer(old(View()), interval, e)
      ensures Reading(NoCall) == Happened(old(Reading(NoCall)), e, cont)
    {
      ClosesExactlyWhenEnded(View(), interval, e);
      HandleKeepsConsistent(View(), interval, e);
      ret := HandleOther(interval, e);
      assert cont ==> old(cont);
    }

    /** usbws_handle_session */
    method HandleSession(interval: int, e: Event) returns (ret: int)
      requires Valid() && Possible(e)
      modifies `cont, `writable, `pinged, `pingPending, `stamp, `sendBuf, `sendLen, `sendOffset,
        `requested, `wire, `closeAsked, recv, recv.head, recv.Entries()
      ensures Valid() && View() == Handle(old(View()), interval, e) && ret == Answer(old(View()), interval, e)
      ensures Reading(NoCall) == Happened(old(Reading(NoCall)), e, cont) && recv.NodesKept()
      ensures recv.Frames() ==
        if e.Closed? then [] else old(recv.Frames()) + (if e.Receive? && e.binary then [e.payload] else [])
    {
      ret := 0;
      match e {
        case Receive(now, binary, payload) => HandleRecv(now, binary, payload);
        case Closed => Close();
        case _ => ret := HandleUnread(interval, e);
      }
    }

    /** What events act on. */
    ghost function NowScene(): Scene
      reads this, recv
    {
      Scene(View(), !recv.closed, recv.enqueued)
    }

    /** The reader has come by `moves` to where it is, and the events of `rest` still come. */
    ghost predicate Moved(how: How, moves: seq<Move>, call: Call, rest: seq<seq<Event>>)
      reads this, recv
    {
      Leads(how.start, moves, Reading(call)) && Follows(moves, how) &&
      Consistent(View()) && PlayAll(NowScene(), how.interval, rest) == how.end
    }

    /** What other threads' steps keep for a send: a session that has ended stays ended, an
        exact send stays exact, and a sender that may sleep still may. */
    twostate predicate SendKept()
      reads this
    {
      (cont ==> old(cont)) && (old(Waits(View())) ==> Waits(View())) &&
      forall base, buf :: old(Sending(View(), base, buf)) ==> Sending(View(), base, buf)
    }

    /** One event.  `before` is how the reader has moved so far. */
    method Happen(interval: int, e: Event, ghost call: Call, ghost how: How, ghost before: seq<Move>)
      returns (ghost moves: seq<Move>)
      requires Valid() && Leads(how.start, before, Reading(call)) && Follows(before, how)
      modifies `cont, `writable, `pinged, `pingPending, `stamp, `sendBuf, `sendLen, `sendOffset,
        `requested, `wire, `closeAsked, recv, recv.head, recv.Entries()
      ensures Valid() && recv.NodesKept() && SendKept() && recv.taken == old(recv.taken)
      ensures Leads(how.start, moves, Reading(call)) && Follows(moves, how)
      ensures NowScene() == Play(old(NowScene()), interval, e)
    {
      moves := before;
      if !recv.closed || e.SendRequest? || e.Shutdown? {
        ghost var r := Reading(call);
        HandleKeepsWhatMatters(View(), interval, e);
        var _ := HandleSession(interval, e);
        moves := Happens(how, before, r, e, cont);
      }
    }

    /** What the other threads do while this one does not hold the lock: the first batch. */
    method Interfere(
      interval: int, env: seq<seq<Event>>, ghost call: Call, ghost how: How, ghost before: seq<Move>)
      returns (rest: seq<seq<Event>>, ghost moves: seq<Move>)
      requires Valid() && Moved(how, before, call, env) && how.interval == interval
      modifies `cont, `writable, `pinged, `pingPending, `stamp, `sendBuf, `sendLen, `sendOffset,
        `requested, `wire, `closeAsked, recv, recv.head, recv.Entries()
      ensures Valid() && recv.NodesKept() && SendKept() && recv.taken == old(recv.taken)
      ensures Moved(how, moves, call, rest)
      ensures rest == if env == [] then [] else env[1..]
      ensures env == [] ==> View() == old(View()) && recv.queued == old(recv.queued)
    {
      moves := before;
      if env == [] {
        return [], moves;
      }
      ghost var end := PlayBatch(NowScene(), interval, env[0]);
      assert env[0][0..] == env[0];
      for i := 0 to |env[0]|
        invariant Valid() && recv.NodesKept() && SendKept() && recv.taken == old(recv.taken)
        invariant Leads(how.start, moves, Reading(call)) && Follows(moves, how)
        invariant PlayBatch(NowScene(), interval, env[0][i..]) == end
      {
        PlayNext(NowScene(), interval, env[0], i);
        moves := Happen(interval, env[0][i], call, how, moves);
      }
      rest := env[1..];
    }

    /** The same, for a thread that reads nothing. */
    method Yield(interval: int, env: seq<seq<Event>>) returns (rest: seq<seq<Event>>)
      requires Valid()
      modifies `cont, `writable, `pinged, `pingPending, `stamp, `sendBuf, `sendLen, `sendOffset,
        `requested, `wire, `closeAsked, recv, recv.head, recv.Entries()
      ensures Valid() && recv.NodesKept() && SendKept() && recv.taken == old(recv.taken)
      ensures rest == if env == [] then [] else env[1..]
      ensures PlayAll(NowScene(), interval, rest) == PlayAll(old(NowScene()), interval, env)
    {
      ghost var how := How(Reading(NoCall), [], Meant, interval, PlayAll(NowScene(), interval, env));
      ghost var moves;
      rest, moves := Interfere(interval, env, NoCall, how, []);
    }

    /** The same, for a reader that then takes its lock and looks at the queue. */
    method Look(interval: int, env: seq<seq<Event>>, ghost call: Call, ghost how: How, ghost before: seq<Move>)
      returns (rest: seq<seq<Event>>, empty: bool, ghost moves: seq<Move>)
      requires Valid() && Moved(how, before, call, env) && how.interval == interval
      modifies `cont, `writable, `pinged, `pingPending, `stamp, `sendBuf, `sendLen, `sendOffset,
        `requested, `wire, `closeAsked, recv, recv.head, recv.Entries()
      ensures Valid() && recv.NodesKept() && Moved(how, moves, call, rest) && (cont ==> old(cont))
      ensures recv.taken == old(recv.taken)
      ensures rest == (if env == [] then [] else env[1..]) && (empty <==> recv.queued == [])
      ensures env == [] ==> recv.queued == old(recv.queued)
    {
      rest, moves := Interfere(interval, env, call, how, before);
      empty := ListEmpty(recv.head, recv.queued);
    }

    /** The first half of usbws_send: publish the buffer and ask for it to be sent. */
    method Publish(buf: seq<byte>, accept: nat)
      requires Valid() && Credit(View()) && PingDeferred(View())
      modifies `sendBuf, `sendLen, `sendOffset, `writable, `requested, `wire
      ensures Valid() && Sending(View(), old(DataOf(wire)), buf) && Waits(View())
      ensures View() == SessionState.HandleSendRequest(Published(old(View()), buf), accept)
      ensures NowScene() == old(NowScene()).(s := View())
    {
      PublishBegins(View(), buf, accept);
      sendBuf := Some(buf);
      sendLen := |buf|;
      sendOffset := 0;
      assert View() == Published(old(View()), buf);
      var _, _ := HandleSendRequest(accept);
    }

    /** The wait loop of usbws_send (src/usbws_session.c:396-400), entered through its lock. */
    method AwaitSent(buf: seq<byte>, ghost base: seq<byte>, interval: int, env: seq<seq<Event>>)
      returns (rest: seq<seq<Event>>)
      requires Valid() && Sending(View(), base, buf) && Waits(View())
      modifies `cont, `writable, `pinged, `pingPending, `stamp, `sendBuf, `sendLen, `sendOffset,
        `requested, `wire, `closeAsked, recv, recv.head, recv.Entries()
      ensures Valid() && Sending(View(), base, buf) && Waits(View())
      ensures recv.NodesKept() && recv.taken == old(recv.taken)
      ensures PlayAll(NowScene(), interval, rest) == PlayAll(old(NowScene()), interval, env)
      ensures cont && sendBuf.Some? ==> rest == []
    {
      rest := Yield(interval, env);
      while cont && sendBuf.Some? && rest != []
        invariant Valid() && Sending(View(), base, buf) && Waits(View())
        invariant recv.NodesKept() && recv.taken == old(recv.taken)
        invariant PlayAll(NowScene(), interval, rest) == PlayAll(old(NowScene()), interval, env)
        decreases |rest|
      {
        rest := Yield(interval, rest);
      }
    }

    /** usbws_send: publish, and wait until the buffer is gone or the session ends.  `rest` is
        what has not happened when it returns. */
    method Send(buf: seq<byte>, accept: nat, interval: int, env: seq<seq<Event>>)
      returns (r: SendResult, rest: seq<seq<Event>>)
      requires Valid() && Credit(View()) && PingDeferred(View())
      modifies `cont, `writable, `pinged, `pingPending, `stamp, `sendBuf, `sendLen, `sendOffset,
        `requested, `wire, `closeAsked, recv, recv.head, recv.Entries()
      ensures Valid() && Waits(View()) && Sending(View(), old(DataOf(wire)), buf)
      ensures r.Sent? ==> r.n == |buf| && sendBuf.None? && DataOf(wire) == old(DataOf(wire)) + buf
      ensures r.SendFailed? <==> !cont
      ensures r.SendAsleep? ==> cont && sendBuf == Some(buf) && requested && rest == []
      ensures recv.NodesKept() && recv.taken == old(recv.taken)
      ensures var begun := SessionState.HandleSendRequest(Published(old(View()), buf), accept);
        Consistent(begun) &&
        PlayAll(NowScene(), interval, rest) == PlayAll(old(NowScene()).(s := begun), interval, env)
    {
      ghost var base := DataOf(wire);
      Publish(buf, accept);
      rest := AwaitSent(buf, base, interval, env);
      assert buf[..|buf|] == buf;
      r := if !cont then SendFailed else if sendBuf.Some? then SendAsleep else Sent(sendOffset);
    }

    /** The wait loop of usbws_recv (src/usbws_session.c:420-428), entered through its
        lock. */
    method AwaitFrame(interval: int, env: seq<seq<Event>>, ghost call: Call, ghost how: How, ghost before: seq<Move>)
      returns (rest: seq<seq<Event>>, asleep: bool, ghost moves: seq<Move>)
      requires Valid() && Moved(how, before, call, env) && how.interval == interval
      modifies `cont, `writable, `pinged, `pingPending, `stamp, `sendBuf, `sendLen, `sendOffset,
        `requested, `wire, `closeAsked, recv, recv.head, recv.Entries()
      ensures Valid() && recv.NodesKept() && Moved(how, moves, call, rest) && (cont ==> old(cont))
      ensures recv.taken == old(recv.taken)
      ensures if asleep then cont && recv.queued == [] && rest == [] else cont ==> recv.queued != []
      ensures |rest| < |env| || (rest == env == [] && recv.queued == old(recv.queued))
    {
      var empty;
      rest, empty, moves := Look(interval, env, call, how, before);
      while cont && empty && rest != []
        invariant Valid() && recv.NodesKept() && Moved(how, moves, call, rest) && (cont ==> old(cont))
        invariant recv.taken == old(recv.taken)
        invariant empty <==> recv.queued == []
        invariant |rest| < |env| || (rest == env == [] && recv.queued == old(recv.queued))
        decreases |rest|
      {
        rest, empty, moves := Look(interval, rest, call, how, moves);
      }
      asleep := cont && empty;
    }

    /** The same, from the test of the outer loop on. */
    method EnterWait(
      len: nat, all: bool, out: seq<byte>, interval: int, env: seq<seq<Event>>, ghost how: How, ghost before: seq<Move>)
      returns (rest: seq<seq<Event>>, asleep: bool, ghost moves: seq<Move>)
      requires Valid() && cont && how.interval == interval
      requires Moved(how, before, Call.Reading(len, all, out, false), env)
      modifies `cont, `writable, `pinged, `pingPending, `stamp, `sendBuf, `sendLen, `sendOffset,
        `requested, `wire, `closeAsked, recv, recv.head, recv.Entries()
      ensures Valid() && recv.NodesKept() && recv.taken == old(recv.taken)
      ensures Moved(how, moves, Call.Reading(len, all, out, true), rest)
      ensures if asleep then cont && recv.queued == [] && rest == [] else cont ==> recv.queued != []
      ensures |rest| < |env| || (rest == env == [] && recv.queued == old(recv.queued))
    {
      moves := OneMore(how, before, Reading(Call.Reading(len, all, out, false)), Enter);
      rest, asleep, moves := AwaitFrame(interval, env, Call.Reading(len, all, out, true), how, moves);
    }

    /** The traversal of usbws_recv and the tests after it. */
    method TakeFrames(copy: Copy, len: nat, all: bool, out: seq<byte>) returns (out': seq<byte>, done: bool)
      requires Valid() && cont && recv.queued != [] && Base(Reading(Call.Reading(len, all, out, true)))
      modifies `delivered, recv, recv.head, recv.Entries()
      ensures Valid() && recv.NodesKept()
      ensures var r := old(Reading(Call.Reading(len, all, out, true)));
        var call := if done then NoCall else Call.Reading(len, all, out', false);
        out' == Traversed(r, copy).out && Reading(call) == Do(r, Take(copy))
      ensures done <==> |out'| >= len || (!all && |out'| > 0)
      ensures delivered == if done then old(delivered) + out' else old(delivered)
    {
      out' := recv.Traverse(copy, len, out);
      done := (!all && |out'| > 0) || |out'| >= len;
      if done {
        delivered := delivered + out';
      }
    }

    /** What the call has come to when a turn of its loop has ended so: it has copied as many
        bytes as it took off the queue; it has enough only if all that was asked for has come,
        or with `!all` some; and it goes on only if not. */
    ghost predicate Turned(how: How, turn: Turn, len: nat, all: bool, out: seq<byte>)
      reads this, recv
    {
      |recv.taken| == |how.start.taken| + |out| &&
      (turn == Enough ==> |out| >= len || (!all && |out| > 0)) &&
      (turn != Enough ==> out == [] || (all && |out| < len)) &&
      (turn == GaveUp ==> !cont) &&
      (turn == StillAsleep ==> cont && recv.queued == [])
    }

    /** The traversal, as one turn of the loop. */
    method TakeTurn(
      copy: Copy, len: nat, all: bool, out: seq<byte>, ghost how: How, ghost before: seq<Move>,
      ghost env: seq<seq<Event>>)
      returns (out': seq<byte>, turn: Turn, ghost moves: seq<Move>)
      requires Valid() && cont && recv.queued != [] && Turned(how, Again, len, all, out)
      requires Moved(how, before, Call.Reading(len, all, out, true), env) && how.copy == copy
      modifies `delivered, recv, recv.head, recv.Entries()
      ensures Valid() && recv.NodesKept() && cont
      ensures Moved(how, moves, CallOf(turn, len, all, out'), env) && Turned(how, turn, len, all, out')
      ensures delivered == if turn == Enough then old(delivered) + out' else old(delivered)
      ensures turn == Enough || (turn == Again && recv.queued == [])
      ensures CopiesRight(how.start, moves) ==> |out'| <= len
    {
      ghost var r := Reading(Call.Reading(len, all, out, true));
      var done;
      out', done := TakeFrames(copy, len, all, out);
      moves := OneMore(how, before, r, Take(copy));
      TakeStops(r, copy);
      turn := if done then Enough else Again;
    }

    /** The failing return from the wait (src/usbws_session.c:424-428). */
    ghost method FailWait(
      len: nat, all: bool, out: seq<byte>, how: How, before: seq<Move>, env: seq<seq<Event>>)
      returns (moves: seq<Move>)
      requires Valid() && !cont && Moved(how, before, Call.Reading(len, all, out, true), env)
      ensures Moved(how, moves, NoCall, env)
    {
      moves := OneMore(how, before, Reading(Call.Reading(len, all, out, true)), Quit(true));
    }

    /** One turn of the outer loop of usbws_recv (src/usbws_session.c:419-452): its test has
        found the session lasting; it waits, and then gives up or takes frames. */
    method ReadOnce(
      copy: Copy, len: nat, all: bool, interval: int, env: seq<seq<Event>>, out: seq<byte>,
      ghost how: How, ghost before: seq<Move>)
      returns (out': seq<byte>, rest: seq<seq<Event>>, turn: Turn, ghost moves: seq<Move>)
      requires Valid() && cont && Turned(how, Again, len, all, out) && how.interval == interval
      requires Moved(how, before, Call.Reading(len, all, out, false), env) && how.copy == copy
      modifies `delivered, `cont, `writable, `pinged, `pingPending, `stamp, `sendBuf, `sendLen, `sendOffset,
        `requested, `wire, `closeAsked, recv, recv.head, recv.Entries()
      ensures Valid() && recv.NodesKept()
      ensures Moved(how, moves, CallOf(turn, len, all, out'), rest) && Turned(how, turn, len, all, out')
      ensures delivered == if turn == Enough then old(delivered) + out' else old(delivered)
      ensures turn == Again ==> |rest| < |env| || (rest == env == [] && |recv.queued| < |old(recv.queued)|)
      ensures turn == StillAsleep ==> rest == []
      ensures CopiesRight(how.start, moves) ==> |out'| <= len
    {
      var asleep;
      rest, asleep, moves := EnterWait(len, all, out, interval, env, how, before);
      out' := out;
      if asleep {
        turn := StillAsleep;
      } else if !cont {
        turn := GaveUp;
        moves := FailWait(len, all, out, how, moves, rest);
      } else {
        out', turn, moves := TakeTurn(copy, len, all, out, how, moves, rest);
      }
    }

    /** The same, up to the test of the outer loop: others act once the lock is released. */
    method ReadTurn(
      copy: Copy, len: nat, all: bool, interval: int, env: seq<seq<Event>>, out: seq<byte>,
      ghost how: How, ghost before: seq<Move>)
      returns (out': seq<byte>, rest: seq<seq<Event>>, turn: Turn, ghost moves: seq<Move>)
      requires Valid() && cont && Turned(how, Again, len, all, out) && how.interval == interval
      requires Moved(how, before, Call.Reading(len, all, out, false), env) && how.copy == copy
      modifies `delivered, `cont, `writable, `pinged, `pingPending, `stamp, `sendBuf, `sendLen, `sendOffset,
        `requested, `wire, `closeAsked, recv, recv.head, recv.Entries()
      ensures Valid() && recv.NodesKept()
      ensures Moved(how, moves, CallOf(turn, len, all, out'), rest) && Turned(how, turn, len, all, out')
      ensures delivered == if turn == Enough then old(delivered) + out' else old(delivered)
      ensures turn == Again ==> |rest| < |env| || (rest == env == [] && |recv.queued| < |old(recv.queued)|)
      ensures turn == StillAsleep ==> rest == []
      ensures CopiesRight(how.start, moves) ==> |out'| <= len
    {
      out', rest, turn, moves := ReadOnce(copy, len, all, interval, env, out, how, before);
      if turn == Again {
        rest, moves := Interfere(interval, rest, Call.Reading(len, all, out', false), how, moves);
      }
    }

    /** The outer loop of usbws_recv (src/usbws_session.c:419-453). */
    method ReadInto(
      copy: Copy, len: nat, all: bool, interval: int, env: seq<seq<Event>>, ghost how: How, ghost before: seq<Move>)
      returns (out: seq<byte>, rest: seq<seq<Event>>, turn: Turn, ghost moves: seq<Move>)
      requires Valid() && Turned(how, Again, len, all, []) && how.interval == interval
      requires Moved(how, before, Call.Reading(len, all, [], false), env) && how.copy == copy
      modifies `delivered, `cont, `writable, `pinged, `pingPending, `stamp, `sendBuf, `sendLen, `sendOffset,
        `requested, `wire, `closeAsked, recv, recv.head, recv.Entries()
      ensures Valid() && recv.NodesKept() && (cont ==> old(cont))
      ensures Moved(how, moves, CallOf(turn, len, all, out), rest) && Turned(how, turn, len, all, out)
      ensures delivered == if turn == Enough then old(delivered) + out else old(delivered)
      ensures turn == Again ==> !cont
      ensures turn == StillAsleep ==> rest == []
      ensures CopiesRight(how.start, moves) ==> |out| <= len
      ensures !old(cont) ==> turn == Again && out == [] && rest == env
    {
      out, rest, turn, moves := [], env, Again, before;
      while cont && turn == Again
        invariant Valid() && recv.NodesKept() && (cont ==> old(cont))
        invariant Moved(how, moves, CallOf(turn, len, all, out), rest) && Turned(how, turn, len, all, out)
        invariant delivered == if turn == Enough then old(delivered) + out else old(delivered)
        invariant turn == StillAsleep ==> rest == []
        invariant !old(cont) ==> turn == Again && out == [] && rest == env
        invariant CopiesRight(how.start, moves) ==> |out| <= len
        decreases turn == Again, |rest|, |recv.queued|
      {
        out, rest, turn, moves := ReadTurn(copy, len, all, interval, rest, out, how, moves);
      }
    }

    /** The end of usbws_recv (src/usbws_session.c:453-455), or of its failing wait. */
    method Leave(
      turn: Turn, len: nat, all: bool, out: seq<byte>, ghost how: How, ghost before: seq<Move>,
      ghost env: seq<seq<Event>>)
      returns (r: RecvResult, ghost moves: seq<Move>)
      requires Valid() && Moved(how, before, CallOf(turn, len, all, out), env) && (turn == Again ==> !cont)
      modifies `delivered
      ensures Moved(how, moves, if turn == StillAsleep then Call.Reading(len, all, out, true) else NoCall, env)
      ensures CopiesRight(how.start, moves) ==> CopiesRight(how.start, before)
      ensures r == match turn
        case StillAsleep => RecvAsleep(out)
        case GaveUp => RecvFailed
        case _ => Received(out)
      ensures delivered == if turn == Again then old(delivered) + out else old(delivered)
    {
      moves := before;
      r := if turn == StillAsleep then RecvAsleep(out) else if turn == GaveUp then RecvFailed else Received(out);
      if turn == Again {
        moves := OneMore(how, before, Reading(Call.Reading(len, all, out, false)), Quit(false));
        delivered := delivered + out;
      }
    }

    /** usbws_recv: take bytes off the queue until the request is met, or with `!all` until
        there are some.  What it does is a run of the reader that module Receiver describes:
        `moves` begin this call, and no other, and take frames by the given copy.  `rest` is
        what has not happened when it returns. */
    method Recv(copy: Copy, len: nat, all: bool, interval: int, env: seq<seq<Event>>)
      returns (r: RecvResult, rest: seq<seq<Event>>, ghost moves: seq<Move>)
      requires Valid()
      modifies `delivered, `cont, `writable, `pinged, `pingPending, `stamp, `sendBuf, `sendLen, `sendOffset,
        `requested, `wire, `closeAsked, recv, recv.head, recv.Entries()
      ensures Valid() && recv.NodesKept() && (cont ==> old(cont))
      ensures var end := PlayAll(old(NowScene()), interval, env);
        var call := if r.RecvAsleep? then Call.Reading(len, all, r.partial, true) else NoCall;
        Moved(How(old(Reading(NoCall)), [Begin(len, all)], copy, interval, end), moves, call, rest)
      ensures r.Received? ==> delivered == old(delivered) + r.data && |recv.taken| == |old(recv.taken)| + |r.data|
      ensures r.Received? && (if all then |r.data| < len else r.data == [] && len > 0) ==> !cont
      ensures r.Received? && CopiesRight(old(Reading(NoCall)), moves) ==> |r.data| <= len
      ensures r.RecvFailed? ==> !cont && delivered == old(delivered)
      ensures r.RecvAsleep? ==> cont && recv.queued == [] && delivered == old(delivered) && rest == []
      ensures r.RecvAsleep? ==> r.partial == [] || (all && |r.partial| < len)
      ensures !old(cont) ==> r == Received([]) && rest == env
    {
      ghost var end := PlayAll(NowScene(), interval, env);
      ghost var how := How(Reading(NoCall), [Begin(len, all)], copy, interval, end);
      LeadsByOne(how.start, Begin(len, all));
      var out, turn;
      out, rest, turn, moves := ReadInto(copy, len, all, interval, env, how, [Begin(len, all)]);
      r, moves := Leave(turn, len, all, out, how, moves, rest);
    }
  }
}
