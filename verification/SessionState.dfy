/** One WebSocket session as a value, and what each callback of
    src/usbws_session.c makes of it. */
module SessionState {
  import opened ByteStream

  const SEND_CONTENT: nat := 1500
  const PING_PONG_DEFAULT: nat := 60
  const PING_PONG_TIMEOUT: nat := 60

  /** A call of `lws_write`; a ping that the library did not take is recorded as well. */
  datatype Message = Data(bytes: seq<byte>) | Ping(accepted: bool)

  /** The fields of `struct usbws_session` that sending and keep-alive use, and what the
      library holds for the connection: whether a writable callback has been asked for,
      what was written, and whether a close was asked for. */
  datatype State = State(
    cont: bool, writable: bool, pinged: bool, pingPending: bool, stamp: int,
    sendBuf: Option<seq<byte>>, sendLen: int, sendOffset: int,
    requested: bool, wire: seq<Message>, closeAsked: bool)

  /** usbws_session_init, and the first request for a writable callback. */
  function Established(now: int): State {
    State(true, false, false, false, now, None, 0, 0, true, [], false)
  }

  /** The application bytes among the messages. */
  function DataOf(wire: seq<Message>): seq<byte> {
    if wire == [] then []
    else
      var last := wire[|wire| - 1];
      DataOf(wire[..|wire| - 1]) + (if last.Data? then last.bytes else [])
  }

  function PingsOf(wire: seq<Message>): nat {
    if wire == [] then 0
    else PingsOf(wire[..|wire| - 1]) + (if wire[|wire| - 1] == Ping(true) then 1 else 0)
  }

  /** No data message is longer than one chunk. */
  predicate ChunksBounded(wire: seq<Message>) {
    wire == [] ||
    (var last := wire[|wire| - 1];
     (last.Data? ==> |last.bytes| <= SEND_CONTENT) && ChunksBounded(wire[..|wire| - 1]))
  }

  lemma WireSnoc(wire: seq<Message>, m: Message)
    ensures ChunksBounded(wire + [m]) <==> ChunksBounded(wire) && (m.Data? ==> |m.bytes| <= SEND_CONTENT)
    ensures DataOf(wire + [m]) == DataOf(wire) + (if m.Data? then m.bytes else [])
    ensures PingsOf(wire + [m]) == PingsOf(wire) + (if m == Ping(true) then 1 else 0)
  {
    assert (wire + [m])[..|wire|] == wire;
  }

  /** The three send fields describe one buffer and a place in it. */
  predicate Consistent(s: State) {
    s.sendBuf.Some? ==> s.sendLen == |s.sendBuf.value| && 0 <= s.sendOffset <= s.sendLen
  }

  function ChunkLen(s: State): (n: nat)
    requires s.sendBuf.Some? && Consistent(s)
    ensures s.sendOffset + n <= s.sendLen && n <= SEND_CONTENT
  {
    Min(s.sendLen - s.sendOffset, SEND_CONTENT)
  }

  /** __send_data, where `lws_write` returned `sent`. */
  function SendData(s: State, sent: int): State
    requires s.sendBuf.Some? && Consistent(s) && -1 <= sent <= ChunkLen(s)
  {
    var chunk := s.sendBuf.value[s.sendOffset..s.sendOffset + ChunkLen(s)];
    var offset := s.sendOffset + sent;
    var done := offset >= s.sendLen;
    s.(sendOffset := offset,
       sendBuf := if done then None else s.sendBuf,
       sendLen := if done then 0 else s.sendLen,
       writable := false, requested := true,
       wire := s.wire + [Data(if sent < 0 then [] else chunk[..sent])])
  }

  /** usbws_handle_send_request; the library takes at most `accept` bytes. */
  function HandleSendRequest(s: State, accept: nat): State
    requires Consistent(s)
  {
    if s.sendBuf.Some? && s.writable then SendData(s, Min(accept, ChunkLen(s))) else s
  }

  /** __send_ping, where `lws_write` returned `sent`, which is -1 when it failed. */
  function WritePing(s: State, sent: int): State {
    s.(pinged := s.pinged || sent > 0, writable := false, requested := true,
       wire := s.wire + [Ping(sent > 0)])
  }

  /** usbws_send_ping */
  function SendPing(s: State, sent: int): State {
    var t := if s.writable then WritePing(s, sent) else s;
    if s.writable && sent != 0 then t else t.(pingPending := true)
  }

  /** usbws_handle_writable: the requested callback arrives.  The library takes at most
      `accept` bytes of data, or returns `sent` for a ping. */
  function HandleWritable(s: State, accept: nat, sent: int): State
    requires Consistent(s)
  {
    var t := s.(requested := false, writable := true);
    if s.sendBuf.Some? then SendData(t.(pingPending := false), Min(accept, ChunkLen(s)))
    else if s.pingPending then WritePing(t.(pingPending := false), sent)
    else t
  }

  /** The branch of usbws_check_session that gives the peer up. */
  predicate TimesOut(s: State, interval: int, now: int) {
    s.cont && interval != 0 && now - s.stamp >= interval + PING_PONG_TIMEOUT
  }

  /** The branch that asks for a ping. */
  predicate AsksPing(s: State, interval: int, now: int) {
    s.cont && interval != 0 && !TimesOut(s, interval, now) && now - s.stamp >= interval && !s.pinged
  }

  /** usbws_check_session */
  function CheckSession(s: State, interval: int, now: int, sent: int): State {
    if !s.cont || TimesOut(s, interval, now) then
      SendPing(s.(cont := false), sent).(closeAsked := true)
    else if AsksPing(s, interval, now) then SendPing(s, sent)
    else s
  }

  /** The LWS_CALLBACK_RECEIVE_PONG case. */
  function HandlePong(s: State, now: int): State {
    if !s.cont then s.(closeAsked := true) else s.(stamp := now, pinged := false)
  }

  /** What reaches `usbws_handle_session`, and `usbws_shutdown`. */
  datatype Event =
    | Writable(accept: nat, sent: int)
    | SendRequest(accept: nat)
    | HealthCheck(now: int, sent: int)
    | Receive(now: int, binary: bool, payload: seq<byte>)
    | Pong(now: int)
    | Shutdown
    | Closed

  function Handle(s: State, interval: int, e: Event): State
    requires Consistent(s)
  {
    match e
    case Writable(accept, sent) => HandleWritable(s, accept, sent)
    case SendRequest(accept) => HandleSendRequest(s, accept)
    case HealthCheck(now, sent) => CheckSession(s, interval, now, sent)
    case Receive(now, _, _) => s.(stamp := now)
    case Pong(now) => HandlePong(s, now)
    case Shutdown => s.(cont := false)
    case Closed => s.(cont := false)
  }

  /** `buf` is being sent after `base` was written: what is on the wire is exactly `base`
      and the first `sendOffset` bytes of `buf`, in order and once. */
  predicate Sending(s: State, base: seq<byte>, buf: seq<byte>) {
    0 <= s.sendOffset <= |buf| &&
    DataOf(s.wire) == base + buf[..s.sendOffset] &&
    (s.sendBuf.Some? ==> s.sendBuf.value == buf && s.sendLen == |buf|) &&
    (s.sendBuf.None? ==> s.sendOffset == |buf|)
  }

  /** A write that did not fail puts the next bytes of the buffer on the wire. */
  lemma WireAfterWrite(s: State, sent: nat)
    requires s.sendBuf.Some? && Consistent(s) && sent <= ChunkLen(s)
    ensures DataOf(SendData(s, sent).wire) == DataOf(s.wire) + s.sendBuf.value[s.sendOffset..s.sendOffset + sent]
  {
    var buf, off, n := s.sendBuf.value, s.sendOffset, ChunkLen(s);
    assert buf[off..off + n][..sent] == buf[off..off + sent];
    WireSnoc(s.wire, Data(buf[off..off + sent]));
  }

  lemma AcceptedKeepsSending(s: State, base: seq<byte>, buf: seq<byte>, sent: nat)
    requires s.sendBuf.Some? && Consistent(s) && Sending(s, base, buf) && sent <= ChunkLen(s)
    ensures Sending(SendData(s, sent), base, buf)
  {
    WireAfterWrite(s, sent);
    var was, now := buf[..s.sendOffset], buf[s.sendOffset..s.sendOffset + sent];
    assert buf[..s.sendOffset + sent] == was + now;
    assert (base + was) + now == base + (was + now);
  }

  /** One write moves an exact send forward by an exact chunk if and only if the write did
      not fail: after a failure the offset has gone back over a byte that is on the wire,
      or before the buffer. */
  lemma WriteExactlyWhenAccepted(s: State, base: seq<byte>, buf: seq<byte>, sent: int)
    requires s.sendBuf.Some? && Consistent(s) && Sending(s, base, buf) && -1 <= sent <= ChunkLen(s)
    ensures Sending(SendData(s, sent), base, buf) <==> 0 <= sent
  {
    if 0 <= sent {
      AcceptedKeepsSending(s, base, buf, sent);
    } else {
      WireSnoc(s.wire, Data([]));
      assert |DataOf(SendData(s, sent).wire)| == |base| + s.sendOffset;
    }
  }

  /** `t` stands where `s` stood in its send. */
  predicate SameSend(s: State, t: State) {
    t.sendBuf == s.sendBuf && t.sendLen == s.sendLen && t.sendOffset == s.sendOffset &&
    DataOf(t.wire) == DataOf(s.wire) && (ChunksBounded(s.wire) ==> ChunksBounded(t.wire))
  }

  /** `t` stands in its send where `s` stands after one more chunk. */
  predicate NextChunk(s: State, accept: nat, t: State)
    requires s.sendBuf.Some? && Consistent(s)
  {
    var u := SendData(s, Min(accept, ChunkLen(s)));
    t.sendBuf == u.sendBuf && t.sendLen == u.sendLen && t.sendOffset == u.sendOffset && t.wire == u.wire
  }

  lemma PingKeepsSend(s: State, sent: int)
    ensures SameSend(s, WritePing(s, sent)) && SameSend(s, SendPing(s, sent))
  {
    WireSnoc(s.wire, Ping(sent > 0));
  }

  /** The events that write application bytes. */
  predicate WritesData(s: State, e: Event) {
    s.sendBuf.Some? && (e.Writable? || (e.SendRequest? && s.writable))
  }

  lemma WritableWrites(s: State, accept: nat, sent: int)
    requires Consistent(s) && s.sendBuf.Some?
    ensures NextChunk(s, accept, HandleWritable(s, accept, sent))
  {
    var r := s.(requested := false, writable := true, pingPending := false);
    var n := Min(accept, ChunkLen(s));
    assert ChunkLen(r) == ChunkLen(s);
    assert HandleWritable(s, accept, sent) == SendData(r, n);
  }

  lemma WritableKeeps(s: State, accept: nat, sent: int)
    requires s.sendBuf.None?
    ensures SameSend(s, HandleWritable(s, accept, sent))
  {
    PingKeepsSend(s.(requested := false, writable := true, pingPending := false), sent);
  }

  lemma CheckKeepsSend(s: State, interval: int, now: int, sent: int)
    ensures SameSend(s, CheckSession(s, interval, now, sent))
  {
    PingKeepsSend(s, sent);
    PingKeepsSend(s.(cont := false), sent);
  }

  /** Every event either leaves the send alone or writes the next chunk of it. */
  lemma HandleWritesOrKeeps(s: State, interval: int, e: Event)
    requires Consistent(s)
    ensures if WritesData(s, e) then NextChunk(s, e.accept, Handle(s, interval, e))
            else SameSend(s, Handle(s, interval, e))
  {
    match e
    case Writable(accept, sent) =>
      if s.sendBuf.Some? {
        WritableWrites(s, accept, sent);
      } else {
        WritableKeeps(s, accept, sent);
      }
    case HealthCheck(now, sent) => CheckKeepsSend(s, interval, now, sent);
    case SendRequest(_) =>
    case Receive(_, _, _) =>
    case Pong(_) =>
    case Shutdown =>
    case Closed =>
  }

  /** Whatever happens to the session, a send stays exact, and its offset only grows. */
  lemma HandleKeepsSending(s: State, interval: int, e: Event, base: seq<byte>, buf: seq<byte>)
    requires Consistent(s) && Sending(s, base, buf)
    ensures var t := Handle(s, interval, e);
      Sending(t, base, buf) && s.sendOffset <= t.sendOffset
  {
    HandleWritesOrKeeps(s, interval, e);
    if WritesData(s, e) {
      var sent := Min(e.accept, ChunkLen(s));
      WriteExactlyWhenAccepted(s, base, buf, sent);
      assert Sending(SendData(s, sent), base, buf);
    }
  }

  /** Between two moments of one send the wire has grown by what lies between the two
      offsets. */
  lemma WireBetween(s: State, t: State, base: seq<byte>, buf: seq<byte>)
    requires Sending(s, base, buf) && Sending(t, base, buf) && s.sendOffset <= t.sendOffset
    ensures DataOf(t.wire) == DataOf(s.wire) + buf[s.sendOffset..t.sendOffset]
  {
    assert buf[..t.sendOffset] == buf[..s.sendOffset] + buf[s.sendOffset..t.sendOffset];
  }

  lemma HandleKeepsConsistent(s: State, interval: int, e: Event)
    requires Consistent(s)
    ensures Consistent(Handle(s, interval, e))
    ensures s.sendBuf.None? ==> SameSend(s, Handle(s, interval, e))
  {
    HandleWritesOrKeeps(s, interval, e);
  }

  lemma HandleKeepsChunksBounded(s: State, interval: int, e: Event)
    requires Consistent(s) && ChunksBounded(s.wire)
    ensures ChunksBounded(Handle(s, interval, e).wire)
  {
    HandleWritesOrKeeps(s, interval, e);
    if WritesData(s, e) {
      var u := SendData(s, Min(e.accept, ChunkLen(s)));
      var m := u.wire[|s.wire|];
      assert u.wire == s.wire + [m] && |m.bytes| <= ChunkLen(s);
      WireSnoc(s.wire, m);
    }
  }

  /** Exactly one of "may write now" and "will be called back" holds. */
  predicate Credit(s: State) {
    s.writable != s.requested
  }

  /** A buffer is waiting only while the library owes a callback. */
  predicate Pressing(s: State) {
    s.sendBuf.Some? ==> !s.writable
  }

  predicate PingDeferred(s: State) {
    s.pingPending ==> !s.writable
  }

  /** No event creates or loses the right to write, and none leaves a ping or a buffer
      waiting beside an unused right. */
  lemma HandleKeepsCredit(s: State, interval: int, e: Event)
    requires Consistent(s) && Credit(s) && PingDeferred(s)
    ensures var t := Handle(s, interval, e);
      Credit(t) && PingDeferred(t) && (Pressing(s) || e.SendRequest? ==> Pressing(t))
  {
  }

  /** A sender may sleep: if its buffer is still there, the library owes a callback. */
  predicate Waits(s: State) {
    Credit(s) && PingDeferred(s) && Pressing(s)
  }

  lemma HandleKeepsWhatMatters(s: State, interval: int, e: Event)
    requires Consistent(s)
    ensures Handle(s, interval, e).cont ==> s.cont
    ensures Waits(s) || (e.SendRequest? && Credit(s) && PingDeferred(s)) ==> Waits(Handle(s, interval, e))
    ensures forall base, buf :: Sending(s, base, buf) ==> Sending(Handle(s, interval, e), base, buf)
  {
    forall base, buf | Sending(s, base, buf) ensures Sending(Handle(s, interval, e), base, buf) {
      HandleKeepsSending(s, interval, e, base, buf);
    }
    if !s.cont {
      HandleNeverRevives(s, interval, e);
    }
    if Credit(s) && PingDeferred(s) {
      HandleKeepsCredit(s, interval, e);
    }
  }

  /** What usbws_handle_session answers, if the hook called on a close answers 0. */
  function Answer(s: State, interval: int, e: Event): int
    requires Consistent(s)
  {
    match e
    case HealthCheck(now, _) => if !s.cont || TimesOut(s, interval, now) then -1 else 0
    case Pong(_) => if s.cont then 0 else -1
    case SendRequest(accept) => if WritesData(s, e) then Min(accept, ChunkLen(s)) else 0
    case _ => 0
  }

  /** A check that finds an ended session, or one silent for the interval and 60 seconds, asks
      for a close, and so does a pong that finds an ended one; nothing else does.  The answer
      is -1 exactly then; otherwise it is what a request has put on the wire, and 0. */
  lemma ClosesExactlyWhenEnded(s: State, interval: int, e: Event)
    requires Consistent(s)
    ensures var t := Handle(s, interval, e);
      var silent := e.HealthCheck? && interval != 0 && e.now - s.stamp >= interval + 60;
      var closes := (e.HealthCheck? && (silent || !s.cont)) || (e.Pong? && !s.cont);
      && (t.closeAsked <==> s.closeAsked || closes)
      && (t.cont <==> s.cont && !silent && !e.Shutdown? && !e.Closed?)
      && Answer(s, interval, e) ==
           if closes then -1 else if e.SendRequest? then |DataOf(t.wire)| - |DataOf(s.wire)| else 0
  {
    if e.SendRequest? && WritesData(s, e) {
      WireAfterWrite(s, Min(e.accept, ChunkLen(s)));
    }
  }

  // ----- what checks and callbacks do to a session, in plain terms

  /** `t` is what a ping makes of `s`: with a credit it goes out, and is outstanding, pending or
      refused as the library says; without one it is pending. */
  predicate PingGoesOut(s: State, sent: int, t: State) {
    if s.writable then
      t.wire == s.wire + [Ping(sent > 0)] && !t.writable && t.requested &&
      (t.pinged <==> s.pinged || sent > 0) && (t.pingPending <==> s.pingPending || sent == 0)
    else
      t.wire == s.wire && !t.writable && t.requested == s.requested && t.pinged == s.pinged && t.pingPending
  }

  /** A check leaves a lasting session alone if pings are switched off, its peer was heard of
      within the interval, or a ping is outstanding and there is still time. */
  lemma HeardSessionLeftAlone(s: State, interval: int, now: int, sent: int)
    requires s.cont
    requires interval == 0 || now - s.stamp < interval || (s.pinged && now - s.stamp < interval + 60)
    ensures CheckSession(s, interval, now, sent) == s
  {
  }

  /** It pings one that was quiet for the interval, if no ping is outstanding. */
  lemma QuietSessionPinged(s: State, interval: int, now: int, sent: int)
    requires s.cont && interval >= 1 && interval <= now - s.stamp < interval + 60 && !s.pinged
    ensures var t := CheckSession(s, interval, now, sent);
      PingGoesOut(s, sent, t) && t.cont && t.closeAsked == s.closeAsked && t.stamp == s.stamp
  {
  }

  /** It ends one that was silent for 60 seconds more, and closes that and any ended one; a
      ping goes with the close, since without one the close may stay unsent. */
  lemma SilentSessionClosed(s: State, interval: int, now: int, sent: int)
    requires !s.cont || (interval != 0 && now - s.stamp >= interval + 60)
    ensures var t := CheckSession(s, interval, now, sent);
      PingGoesOut(s, sent, t) && !t.cont && t.closeAsked
  {
  }

  /** A writable callback that finds nothing to send and no ping pending writes nothing, and
      leaves a credit in hand and no further callback asked for. */
  lemma IdleCallbackKeepsCredit(s: State, accept: nat, sent: int)
    requires s.sendBuf.None? && !s.pingPending
    ensures var t := HandleWritable(s, accept, sent);
      t.wire == s.wire && t.writable && !t.requested && !t.pingPending && t.pinged == s.pinged
  {
  }

  /** Why a message may be written: data is to be sent and there is a credit or one comes, a
      pending ping meets a callback, or a check has a credit for a ping that is due. */
  predicate HasReason(s: State, interval: int, e: Event) {
    match e
    case Writable(_, _) => s.sendBuf.Some? || s.pingPending
    case SendRequest(_) => s.sendBuf.Some? && s.writable
    case HealthCheck(now, _) =>
      s.writable &&
      (!s.cont ||
       (interval != 0 && now - s.stamp >= interval && (!s.pinged || now - s.stamp >= interval + 60)))
    case _ => false
  }

  /** An event writes one message if it has a reason, and none otherwise. */
  lemma WritesExactlyForReason(s: State, interval: int, e: Event)
    requires Consistent(s)
    ensures var t := Handle(s, interval, e);
      && (!HasReason(s, interval, e) ==> t.wire == s.wire)
      && (HasReason(s, interval, e) ==> |t.wire| == |s.wire| + 1 && s.wire == t.wire[..|s.wire|])
  {
    match e
    case Writable(accept, sent) =>
      if s.sendBuf.Some? {
        WritableWrites(s, accept, sent);
      }
    case _ =>
  }

  /** The three fields stored by usbws_send. */
  function Published(s: State, buf: seq<byte>): State {
    s.(sendBuf := Some(buf), sendLen := |buf|, sendOffset := 0)
  }

  /** A publication and the request after it begin an exact send that its sender may sleep
      on, whatever was published before. */
  lemma PublishBegins(s: State, buf: seq<byte>, accept: nat)
    requires Credit(s) && PingDeferred(s)
    ensures Consistent(Published(s, buf))
    ensures var t := HandleSendRequest(Published(s, buf), accept);
      Consistent(t) && Sending(t, DataOf(s.wire), buf) && Waits(t)
  {
    var p := Published(s, buf);
    assert buf[..0] == [];
    HandleKeepsSending(p, 0, SendRequest(accept), DataOf(s.wire), buf);
    HandleKeepsConsistent(p, 0, SendRequest(accept));
    HandleKeepsCredit(p, 0, SendRequest(accept));
  }

  /** Nothing sets `cont` again. */
  lemma HandleNeverRevives(s: State, interval: int, e: Event)
    requires Consistent(s) && !s.cont
    ensures !Handle(s, interval, e).cont
  {
  }
}
