/** The clock side of a session: usbws_check_session run by the loop of usbws_service,
    which makes a health check at least every `interval` seconds (src/usbwsd.c:239,
    262-266). */
module KeepAlive {
  import opened ByteStream
  import opened SessionState
  import opened SendProtocol

  /** `lastCheck` is when the service loop last checked its sessions.  Since the last frame
      or pong, `noticed` says that a check found the silence as long as the interval.
      `askedAt` is when a ping was first asked for that is still unanswered, and `writtenAt`
      when one was written that is; `silence` is how long the peer had been silent when it
      was given up, and `unnoticed` says that this was not noticed before. */
  datatype Timed = Timed(
    g: Engine, clock: int, lastCheck: int, noticed: bool, askedAt: Option<int>, writtenAt: Option<int>,
    silence: Option<int>, unnoticed: bool)

  /** What may be known of the library and of the peer: within how many seconds a ping that a
      check asks for is written, and one that is written is answered. */
  datatype Promise = Promise(write: Option<nat>, answer: Option<nat>)

  const NoPromise: Promise := Promise(None, None)

  /** A session established at `now`, when the service loop last checked at `checked`. */
  function Begin(interval: int, checked: int, now: int): Timed {
    Timed(Start(interval, now), now, checked, false, None, None, None, false)
  }

  function TimeOf(t: Timed, a: Act): int {
    if a.Callback? && (a.e.HealthCheck? || a.e.Receive? || a.e.Pong?) then a.e.now else t.clock
  }

  /** At time `now` the promise has not been broken. */
  predicate WriteKept(t: Timed, promise: Promise, now: int) {
    promise.write.Some? && t.askedAt.Some? && t.writtenAt.None? ==> now - t.askedAt.value <= promise.write.value
  }

  predicate AnswerKept(t: Timed, promise: Promise, now: int) {
    promise.answer.Some? && t.writtenAt.Some? ==> now - t.writtenAt.value <= promise.answer.value
  }

  /** The callback writes a pending ping. */
  predicate SendsPing(s: State, e: Event) {
    e.Writable? && s.sendBuf.None? && s.pingPending && e.sent > 0
  }

  /** Time does not run back, checks come at most `interval` apart, and the promise is kept
      whenever a check or the writing of a ping would show that it is not. */
  predicate Allowed(t: Timed, promise: Promise, a: Act) {
    Enabled(t.g, a) && t.clock <= TimeOf(t, a) &&
    (a.Callback? && a.e.HealthCheck? ==>
      a.e.now - t.lastCheck <= t.g.interval && WriteKept(t, promise, a.e.now) && AnswerKept(t, promise, a.e.now)) &&
    (a.Callback? && SendsPing(t.g.s, a.e) ==> WriteKept(t, promise, t.clock))
  }

  function Tick(t: Timed, a: Act): (u: Timed)
    requires Inv(t.g) && Enabled(t.g, a)
    ensures Inv(u.g)
  {
    var s := t.g.s;
    var h := Step(t.g, a);
    var u := t.(g := h, clock := TimeOf(t, a),
                writtenAt := if h.s.pinged && !s.pinged then Some(TimeOf(t, a)) else t.writtenAt);
    if !a.Callback? then u
    else match a.e
      case HealthCheck(now, _) =>
        var gone := TimesOut(s, t.g.interval, now);
        u.(lastCheck := now,
           noticed := t.noticed || (s.cont && now - s.stamp >= t.g.interval),
           askedAt := if AsksPing(s, t.g.interval, now) && t.askedAt.None? then Some(now) else t.askedAt,
           silence := if gone then Some(now - s.stamp) else t.silence,
           unnoticed := t.unnoticed || (gone && !t.noticed))
      case Receive(_, _, _) => u.(noticed := false)
      case Pong(_) =>
        u.(noticed := false, askedAt := if s.pingPending then t.askedAt else None, writtenAt := None)
      case _ => u
  }

  lemma StepKeepsInterval(g: Engine, a: Act)
    requires Inv(g) && Enabled(g, a)
    ensures Step(g, a).interval == g.interval
  {
  }

  lemma TickFacts(t: Timed, a: Act)
    requires Inv(t.g) && Enabled(t.g, a)
    ensures var u := Tick(t, a);
      u.g.interval == t.g.interval && u.clock == TimeOf(t, a) &&
      u.lastCheck == (if a.Callback? && a.e.HealthCheck? then a.e.now else t.lastCheck)
  {
    StepKeepsInterval(t.g, a);
    if a.Callback? {
      match a.e
      case HealthCheck(_, _) =>
      case Receive(_, _, _) =>
      case Pong(_) =>
      case _ =>
    }
  }

  predicate Run(t: Timed, promise: Promise, acts: seq<Act>)
    requires Inv(t.g)
    decreases |acts|
  {
    acts == [] ||
    (Allowed(t, promise, acts[0]) && Run(Tick(t, acts[0]), promise, acts[1..]))
  }

  function Outcome(t: Timed, promise: Promise, acts: seq<Act>): (u: Timed)
    requires Inv(t.g) && Run(t, promise, acts)
    ensures Inv(u.g)
    decreases |acts|
  {
    if acts == [] then t
    else Outcome(Tick(t, acts[0]), promise, acts[1..])
  }

  // ----- what every step keeps, for an interval of at least one second

  predicate Watched(t: Timed) {
    var s, p := t.g.s, t.g.interval;
    p >= 1 && t.lastCheck <= t.clock && s.stamp <= t.clock &&
    (s.cont ==>
      t.silence.None? &&
      t.lastCheck - s.stamp < p + PING_PONG_TIMEOUT &&
      (t.noticed || t.lastCheck - s.stamp < p) &&
      (s.pinged <==> t.writtenAt.Some?) &&
      (s.pinged || s.pingPending ==> t.askedAt.Some?) &&
      (if t.askedAt.Some? then t.askedAt.value - s.stamp <= 2 * p - 1 else t.lastCheck - s.stamp < p))
  }

  /** The promise and the interval leave time for an answer before the peer is given up. */
  predicate InTime(interval: int, promise: Promise) {
    promise.write.Some? && promise.answer.Some? &&
    interval + promise.write.value + promise.answer.value <= PING_PONG_TIMEOUT
  }

  predicate Bounded(t: Timed, promise: Promise) {
    (t.silence.Some? ==>
      t.g.s.closeAsked && t.silence.value <= 2 * t.g.interval + PING_PONG_TIMEOUT - 1) &&
    (t.g.interval <= PING_PONG_TIMEOUT ==> !t.unnoticed) &&
    (InTime(t.g.interval, promise) ==> t.silence.None?) &&
    (t.g.s.cont && t.writtenAt.Some? && t.askedAt.Some? && promise.write.Some? ==>
      t.writtenAt.value - t.askedAt.value <= promise.write.value)
  }

  lemma PingFlags(s: State, interval: int, e: Event)
    requires Consistent(s)
    ensures var t := Handle(s, interval, e);
      && (t.cont ==> s.cont)
      && (t.stamp == if e.Receive? || (e.Pong? && s.cont) then e.now else s.stamp)
      && (e.HealthCheck? && TimesOut(s, interval, e.now) ==> !t.cont && t.closeAsked)
      && (s.closeAsked ==> t.closeAsked)
  {
  }

  /** While the session lasts a ping is outstanding or pending only if a check asked for it,
      and a pong leaves none outstanding. */
  lemma PingMoves(s: State, interval: int, e: Event)
    requires Consistent(s) && s.cont
    ensures var t := Handle(s, interval, e);
      t.cont ==>
        (t.pinged || t.pingPending ==>
           s.pinged || s.pingPending || (e.HealthCheck? && AsksPing(s, interval, e.now))) &&
        (t.pinged && !s.pinged ==> SendsPing(s, e) || (e.HealthCheck? && AsksPing(s, interval, e.now))) &&
        (if e.Pong? then !t.pinged && t.pingPending == s.pingPending else s.pinged ==> t.pinged)
  {
  }

  lemma CheckWatched(t: Timed, promise: Promise, a: Act)
    requires Inv(t.g) && Watched(t) && Bounded(t, promise) && Allowed(t, promise, a)
    requires a.Callback? && a.e.HealthCheck?
    ensures Watched(Tick(t, a)) && Bounded(Tick(t, a), promise)
  {
    var s, p, now := t.g.s, t.g.interval, a.e.now;
    PingFlags(s, p, a.e);
    if s.cont {
      PingMoves(s, p, a.e);
    }
    assert s.cont && t.askedAt.None? ==> now - s.stamp <= 2 * p - 1;
    if s.cont && !TimesOut(s, p, now) && now - s.stamp >= p {
      assert AsksPing(s, p, now) || s.pinged;
    }
  }

  lemma EventWatched(t: Timed, promise: Promise, e: Event)
    requires Inv(t.g) && Watched(t) && Bounded(t, promise) && Allowed(t, promise, Callback(e)) && !e.HealthCheck?
    ensures Watched(Tick(t, Callback(e))) && Bounded(Tick(t, Callback(e)), promise)
  {
    PingFlags(t.g.s, t.g.interval, e);
    if t.g.s.cont {
      PingMoves(t.g.s, t.g.interval, e);
    }
  }

  lemma StepWatched(t: Timed, promise: Promise, a: Act)
    requires Inv(t.g) && Watched(t) && Bounded(t, promise) && Allowed(t, promise, a)
    ensures Watched(Tick(t, a)) && Bounded(Tick(t, a), promise)
    ensures Tick(t, a).g.interval == t.g.interval
  {
    if a.Callback? && a.e.HealthCheck? {
      CheckWatched(t, promise, a);
    } else if a.Callback? {
      EventWatched(t, promise, a.e);
    } else if a.Request? {
      PingFlags(t.g.s, t.g.interval, SendRequest(a.accept));
      if t.g.s.cont {
        PingMoves(t.g.s, t.g.interval, SendRequest(a.accept));
      }
    }
  }

  lemma {:induction false} RunWatched(t: Timed, promise: Promise, acts: seq<Act>)
    requires Inv(t.g) && Watched(t) && Bounded(t, promise) && Run(t, promise, acts)
    ensures Watched(Outcome(t, promise, acts)) && Bounded(Outcome(t, promise, acts), promise)
    ensures Outcome(t, promise, acts).g.interval == t.g.interval
    decreases |acts|
  {
    if acts != [] {
      StepWatched(t, promise, acts[0]);
      RunWatched(Tick(t, acts[0]), promise, acts[1..]);
    }
  }

  // ----- runs that reach the bounds

  function Check(now: int): Act { Callback(HealthCheck(now, 0)) }

  lemma RunCons(t: Timed, promise: Promise, a: Act, rest: seq<Act>) returns (acts: seq<Act>)
    requires Inv(t.g) && Allowed(t, promise, a)
    requires Run(Tick(t, a), promise, rest)
    ensures acts == [a] + rest && Run(t, promise, acts)
    ensures Outcome(t, promise, acts) == Outcome(Tick(t, a), promise, rest)
  {
    acts := [a] + rest;
    assert acts[0] == a && acts[1..] == rest;
  }

  /** A ping was asked for, and waits for a callback or for its answer. */
  predicate Asked(t: Timed) {
    var s := t.g.s;
    Inv(t.g) && s.cont && !s.writable && s.pingPending == !s.pinged && t.askedAt.Some? && t.noticed &&
    (t.writtenAt.Some? <==> s.pinged) && t.clock == t.lastCheck && t.g.interval >= 1 && !t.unnoticed
  }

  function Edge(t: Timed): int {
    t.g.s.stamp + t.g.interval + PING_PONG_TIMEOUT
  }

  /** Checks then change nothing until the peer is given up. */
  lemma IdleTick(t: Timed, now: int)
    requires Asked(t) && t.clock <= now
    ensures now < Edge(t) ==> Tick(t, Check(now)) == t.(clock := now, lastCheck := now)
    ensures now >= Edge(t) ==> Tick(t, Check(now)).silence == Some(now - t.g.s.stamp)
    ensures Tick(t, Check(now)).g.s.wire == t.g.s.wire
  {
    if now < Edge(t) {
      assert Handle(t.g.s, t.g.interval, HealthCheck(now, 0)) == t.g.s;
    }
  }

  lemma WriteTick(t: Timed)
    requires Asked(t) && t.g.s.pingPending && t.g.s.sendBuf.None?
    ensures Enabled(t.g, Callback(Writable(0, 1)))
    ensures var u := Tick(t, Callback(Writable(0, 1)));
      Asked(u) && u.g.s.pinged && u.writtenAt == Some(t.clock) && u.askedAt == t.askedAt &&
      u.clock == t.clock && Edge(u) == Edge(t) && u.g.s.stamp == t.g.s.stamp && u.g.interval == t.g.interval
  {
  }

  lemma GivenUpNext(t: Timed, promise: Promise, last: int) returns (acts: seq<Act>)
    requires Asked(t) && t.clock <= last && Edge(t) <= last <= t.clock + t.g.interval
    requires WriteKept(t, promise, last) && AnswerKept(t, promise, last)
    ensures Run(t, promise, acts)
    ensures Outcome(t, promise, acts).silence == Some(last - t.g.s.stamp)
    ensures Outcome(t, promise, acts).g.s.wire == t.g.s.wire
  {
    IdleTick(t, last);
    acts := RunCons(t, promise, Check(last), []);
  }

  /** With checks every second the peer is given up at `last`, if nothing else happens. */
  lemma {:induction false} GivenUpAt(t: Timed, promise: Promise, last: int) returns (acts: seq<Act>)
    requires Asked(t) && t.clock < Edge(t) <= last < Edge(t) + t.g.interval
    requires WriteKept(t, promise, last) && AnswerKept(t, promise, last)
    ensures Run(t, promise, acts)
    ensures Outcome(t, promise, acts).silence == Some(last - t.g.s.stamp)
    ensures Outcome(t, promise, acts).g.s.wire == t.g.s.wire
    decreases Edge(t) - t.clock
  {
    if t.clock == Edge(t) - 1 {
      acts := GivenUpNext(t, promise, last);
    } else {
      var now := t.clock + 1;
      IdleTick(t, now);
      var u := t.(clock := now, lastCheck := now);
      assert Asked(u) && Edge(u) == Edge(t);
      acts := GivenUpAt(u, promise, last);
      acts := RunCons(t, promise, Check(now), acts);
    }
  }

  /** So it is if the pending ping is written now and stays unanswered. */
  lemma GivenUpOnceWritten(t: Timed, promise: Promise, last: int) returns (acts: seq<Act>)
    requires Asked(t) && t.g.s.pingPending && t.g.s.sendBuf.None?
    requires t.clock < Edge(t) <= last < Edge(t) + t.g.interval
    requires WriteKept(t, promise, t.clock) && (promise.answer.Some? ==> last - t.clock <= promise.answer.value)
    ensures Run(t, promise, acts)
    ensures Outcome(t, promise, acts).silence == Some(last - t.g.s.stamp)
  {
    WriteTick(t);
    acts := GivenUpAt(Tick(t, Callback(Writable(0, 1))), promise, last);
    acts := RunCons(t, promise, Callback(Writable(0, 1)), acts);
  }

  /** Or if it is written at `write`. */
  lemma {:induction false} GivenUpAfterWrite(t: Timed, promise: Promise, write: int, last: int) returns (acts: seq<Act>)
    requires Asked(t) && t.g.s.pingPending && t.g.s.sendBuf.None?
    requires t.clock <= write < Edge(t) <= last < Edge(t) + t.g.interval
    requires WriteKept(t, promise, write) && (promise.answer.Some? ==> last - write <= promise.answer.value)
    ensures Run(t, promise, acts)
    ensures Outcome(t, promise, acts).silence == Some(last - t.g.s.stamp)
    decreases write - t.clock
  {
    if t.clock == write {
      acts := GivenUpOnceWritten(t, promise, last);
    } else {
      var now := t.clock + 1;
      IdleTick(t, now);
      var u := t.(clock := now, lastCheck := now);
      assert Asked(u) && Edge(u) == Edge(t);
      acts := GivenUpAfterWrite(u, promise, write, last);
      acts := RunCons(t, promise, Check(now), acts);
    }
  }

  /** With an interval above 60 seconds a peer can be given up although no check before
      noticed its silence. */
  lemma GivenUpUnnoticed(interval: int) returns (acts: seq<Act>)
    requires interval > PING_PONG_TIMEOUT
    ensures Run(Begin(interval, 0, 0), NoPromise, acts) && Outcome(Begin(interval, 0, 0), NoPromise, acts).unnoticed
  {
    var t := Begin(interval, 0, 0);
    var u := Tick(t, Check(PING_PONG_TIMEOUT));
    assert u.g.s == t.g.s && !u.noticed;
    var a := Check(interval + PING_PONG_TIMEOUT);
    acts := RunCons(u, NoPromise, a, []);
    acts := RunCons(t, NoPromise, Check(PING_PONG_TIMEOUT), acts);
  }

  /** A peer can be silent for twice the interval and 59 seconds before it is given up. */
  lemma GivenUpLate(interval: int) returns (acts: seq<Act>)
    requires interval >= 1
    ensures Run(Begin(interval, 0, 0), NoPromise, acts)
    ensures Outcome(Begin(interval, 0, 0), NoPromise, acts).silence == Some(2 * interval + PING_PONG_TIMEOUT - 1)
  {
    var t := Begin(interval, 0, 0);
    AskTick(t, interval);
    var u := Tick(t, Check(interval));
    acts := GivenUpAt(u, NoPromise, 2 * interval + PING_PONG_TIMEOUT - 1);
    acts := RunCons(t, NoPromise, Check(interval), acts);
  }

  lemma QuietTick(t: Timed, now: int)
    requires Inv(t.g) && t.g.s.cont && now - t.g.s.stamp < t.g.interval
    ensures var u := Tick(t, Check(now)); u == t.(clock := now, lastCheck := now)
  {
    assert Handle(t.g.s, t.g.interval, HealthCheck(now, 0)) == t.g.s;
  }

  /** A peer can be given up under every promise that does not leave it time enough. */
  lemma GivenUpPromised(interval: int, promise: Promise) returns (acts: seq<Act>)
    requires interval >= 1 && !InTime(interval, promise)
    ensures Run(Begin(interval, 0, 0), promise, acts)
    ensures Outcome(Begin(interval, 0, 0), promise, acts).silence.Some?
  {
    var t, now := Begin(interval, 0, 0), 2 * interval - 1;
    QuietTick(t, interval - 1);
    var u := Tick(t, Check(interval - 1));
    acts := [];
    if interval <= PING_PONG_TIMEOUT {
      AskTick(u, now);
      var v, last := Tick(u, Check(now)), interval + PING_PONG_TIMEOUT;
      if promise.write.None? || now + promise.write.value >= last {
        acts := GivenUpAt(v, promise, last);
      } else {
        acts := GivenUpAfterWrite(v, promise, now + promise.write.value, last);
      }
    }
    acts := RunCons(u, promise, Check(now), acts);
    acts := RunCons(t, promise, Check(interval - 1), acts);
  }

  /** At the callback the ping that a check asked for gives way to a chunk of data. */
  lemma DataForPing(t: Timed, promise: Promise) returns (u: Timed)
    requires Asked(t) && t.g.s.pingPending && t.g.s.sendBuf.Some? && Unsent(t.g) > 1
    ensures Allowed(t, promise, Callback(Writable(1, 0))) && u == Tick(t, Callback(Writable(1, 0))) && Inv(u.g)
    ensures u.g.s.sendBuf.Some? && !u.g.s.pingPending && !u.g.s.pinged && !u.g.s.writable
    ensures PingsOf(u.g.s.wire) == PingsOf(t.g.s.wire)
    ensures DataOf(u.g.s.wire) == DataOf(t.g.s.wire) + t.g.cur[t.g.s.sendOffset..t.g.s.sendOffset + 1]
  {
    u := Tick(t, Callback(Writable(1, 0)));
    WritableWrites(t.g.s, 1, 0);
    DataIsNoPing(t.g.s, t.g.interval, Writable(1, 0));
    WireBetween(t.g.s, u.g.s, t.g.base, t.g.cur);
  }

  /** And the next check asks again. */
  lemma AskedAgain(t: Timed, u: Timed, promise: Promise) returns (v: Timed)
    requires Asked(t) && t.g.s.pingPending && t.g.s.sendBuf.Some? && u == Tick(t, Callback(Writable(1, 0)))
    requires !u.g.s.pingPending && !u.g.s.pinged && !u.g.s.writable && promise.write.None?
    requires t.g.interval <= t.clock - t.g.s.stamp < t.g.interval + PING_PONG_TIMEOUT - 1
    ensures Allowed(u, promise, Check(t.clock + 1)) && v == Tick(u, Check(t.clock + 1))
    ensures Asked(v) && v.g.s.pingPending && v.clock == t.clock + 1
    ensures v.g.interval == t.g.interval && v.g.s.stamp == t.g.s.stamp && v.g.s.wire == u.g.s.wire
  {
    v := Tick(u, Check(t.clock + 1));
    AskTick(u, t.clock + 1);
  }

  lemma PingGivesWay(t: Timed, promise: Promise) returns (acts: seq<Act>)
    requires Asked(t) && t.g.s.pingPending && t.g.s.sendBuf.Some? && Unsent(t.g) > 1 && promise.write.None?
    requires t.g.interval <= t.clock - t.g.s.stamp < t.g.interval + PING_PONG_TIMEOUT - 1
    ensures Run(t, promise, acts)
    ensures var s, h := t.g.s, Outcome(t, promise, acts);
      h.silence.Some? && PingsOf(h.g.s.wire) == PingsOf(s.wire) &&
      DataOf(h.g.s.wire) == DataOf(s.wire) + t.g.cur[s.sendOffset..s.sendOffset + 1]
  {
    var u := DataForPing(t, promise);
    var v := AskedAgain(t, u, promise);
    acts := GivenUpAt(v, promise, Edge(v));
    acts := RunCons(u, promise, Check(t.clock + 1), acts);
    acts := RunCons(t, promise, Callback(Writable(1, 0)), acts);
  }

  lemma PublishTick(t: Timed, buf: seq<byte>)
    requires Inv(t.g) && t.g.pc == Idle && !t.g.s.writable
    ensures var u := Tick(t, Publish(buf));
      u == t.(g := u.g) && u.g.s == SessionState.Published(t.g.s, buf) && u.g.cur == buf && u.g.pc == Pc.Published &&
      u.g.interval == t.g.interval
  {
  }

  lemma RequestTick(t: Timed)
    requires Inv(t.g) && t.g.pc == Pc.Published && !t.g.s.writable
    ensures Tick(t, Request(0)) == t.(g := t.g.(pc := Waiting))
  {
    assert Handle(t.g.s, t.g.interval, SendRequest(0)) == t.g.s;
  }

  lemma AskTick(t: Timed, now: int)
    requires Inv(t.g) && !t.g.s.writable && AsksPing(t.g.s, t.g.interval, now)
    ensures var u := Tick(t, Check(now));
      u.g == t.g.(s := t.g.s.(pingPending := true)) && u.clock == u.lastCheck == now && u.noticed &&
      u.askedAt == (if t.askedAt.None? then Some(now) else t.askedAt) &&
      u.writtenAt == t.writtenAt && u.unnoticed == t.unnoticed
  {
    assert Handle(t.g.s, t.g.interval, HealthCheck(now, 0)) == t.g.s.(pingPending := true);
  }

  /** A session that has not heard of its peer since it was checked, with no credit. */
  predicate Unheard(t: Timed) {
    var s := t.g.s;
    Inv(t.g) && s.cont && !s.writable && !s.pinged && !s.pingPending && t.g.interval >= 1 &&
    t.clock == t.lastCheck == s.stamp && t.askedAt.None? && t.writtenAt.None? && !t.unnoticed
  }

  /** The run has given the peer up after one byte of `buf`, and written no ping. */
  predicate UnpingedEnd(t: Timed, buf: seq<byte>, end: Timed)
    requires buf != []
  {
    end.silence.Some? && DataOf(end.g.s.wire) == DataOf(t.g.s.wire) + buf[0..1] &&
    PingsOf(end.g.s.wire) == PingsOf(t.g.s.wire)
  }

  lemma UnpingedFromWaiting(t: Timed, buf: seq<byte>, promise: Promise) returns (acts: seq<Act>)
    requires Unheard(t) && t.g.s.sendBuf.Some? && t.g.cur == buf && t.g.s.sendOffset == 0
    requires |buf| > 1 && promise.write.None?
    ensures Run(t, promise, acts) && UnpingedEnd(t, buf, Outcome(t, promise, acts))
  {
    var now := t.clock + t.g.interval;
    AskTick(t, now);
    acts := PingGivesWay(Tick(t, Check(now)), promise);
    acts := RunCons(t, promise, Check(now), acts);
  }

  lemma UnpingedFromPublished(t: Timed, buf: seq<byte>, promise: Promise) returns (acts: seq<Act>)
    requires Unheard(t) && t.g.s.sendBuf.Some? && t.g.cur == buf && t.g.s.sendOffset == 0 && t.g.pc == Pc.Published
    requires |buf| > 1 && promise.write.None?
    ensures Run(t, promise, acts) && UnpingedEnd(t, buf, Outcome(t, promise, acts))
  {
    RequestTick(t);
    acts := UnpingedFromWaiting(Tick(t, Request(0)), buf, promise);
    acts := RunCons(t, promise, Request(0), acts);
  }

  lemma UnpingedFrom(t: Timed, buf: seq<byte>, promise: Promise) returns (acts: seq<Act>)
    requires Unheard(t) && t.g.pc == Idle && |buf| > 1 && promise.write.None?
    ensures Run(t, promise, acts) && UnpingedEnd(t, buf, Outcome(t, promise, acts))
  {
    PublishTick(t, buf);
    acts := UnpingedFromPublished(Tick(t, Publish(buf)), buf, promise);
    acts := RunCons(t, promise, Publish(buf), acts);
  }

  /** So a peer to which data is being sent can be given up without ever having been sent a
      ping, whatever the interval, and however fast it would have answered one. */
  lemma GivenUpUnpinged(interval: int, buf: seq<byte>, promise: Promise) returns (acts: seq<Act>)
    requires interval >= 1 && |buf| > 1 && promise.write.None?
    ensures Run(Begin(interval, 0, 0), promise, acts)
    ensures var t := Outcome(Begin(interval, 0, 0), promise, acts);
      t.silence.Some? && DataOf(t.g.s.wire) == buf[0..1] && PingsOf(t.g.s.wire) == 0
  {
    acts := UnpingedFrom(Begin(interval, 0, 0), buf, promise);
  }

  // ----- the bounds

  /** No session is given up that an earlier check had not noticed to be silent, in any run,
      if and only if the interval is at most 60 seconds. */
  lemma NoticedExactlyWhen(interval: int)
    requires interval >= 1
    ensures interval <= PING_PONG_TIMEOUT <==>
      forall checked, now, acts | checked <= now && Run(Begin(interval, checked, now), NoPromise, acts) ::
        !Outcome(Begin(interval, checked, now), NoPromise, acts).unnoticed
  {
    if interval <= PING_PONG_TIMEOUT {
      forall checked, now, acts | checked <= now && Run(Begin(interval, checked, now), NoPromise, acts)
        ensures !Outcome(Begin(interval, checked, now), NoPromise, acts).unnoticed
      {
        RunWatched(Begin(interval, checked, now), NoPromise, acts);
      }
    } else {
      var acts := GivenUpUnnoticed(interval);
      assert Run(Begin(interval, 0, 0), NoPromise, acts);
    }
  }

  /** `bound` limits, in every run, how long a peer was silent when it was given up, if and
      only if it is at least twice the interval and 59 seconds. */
  lemma SilenceBoundExactlyWhen(interval: int, bound: int)
    requires interval >= 1
    ensures bound >= 2 * interval + PING_PONG_TIMEOUT - 1 <==>
      forall checked, now, acts | checked <= now && Run(Begin(interval, checked, now), NoPromise, acts) ::
        var t := Outcome(Begin(interval, checked, now), NoPromise, acts);
        t.silence.Some? ==> t.silence.value <= bound
  {
    if bound >= 2 * interval + PING_PONG_TIMEOUT - 1 {
      forall checked, now, acts | checked <= now && Run(Begin(interval, checked, now), NoPromise, acts)
        ensures var t := Outcome(Begin(interval, checked, now), NoPromise, acts);
          t.silence.Some? ==> t.silence.value <= bound
      {
        RunWatched(Begin(interval, checked, now), NoPromise, acts);
      }
    } else {
      var acts := GivenUpLate(interval);
      assert Run(Begin(interval, 0, 0), NoPromise, acts);
    }
  }

  /** A peer is never given up, in any run in which each ping that a check asks for is
      written within `write` seconds of that check and each ping written is answered within
      `answer` seconds, if and only if both bounds are given and leave time: with the interval
      they come to at most 60 seconds.  The default interval of 60 leaves none.  And as
      long as pings may give way to data, wait for a callback, or be refused, without bound, no
      interval is short enough and no peer answers fast enough. */
  lemma AnsweringPeerKeptExactlyWhen(interval: int, promise: Promise)
    requires interval >= 1
    ensures InTime(interval, promise) <==>
      forall checked, now, acts | checked <= now && Run(Begin(interval, checked, now), promise, acts) ::
        Outcome(Begin(interval, checked, now), promise, acts).silence.None?
  {
    if InTime(interval, promise) {
      forall checked, now, acts | checked <= now && Run(Begin(interval, checked, now), promise, acts)
        ensures Outcome(Begin(interval, checked, now), promise, acts).silence.None?
      {
        RunWatched(Begin(interval, checked, now), promise, acts);
      }
    } else {
      var acts := GivenUpPromised(interval, promise);
      assert Run(Begin(interval, 0, 0), promise, acts);
    }
  }

  /** While a session lasts, its last check found a silence below interval and 60 seconds;
      so the first check beyond that ends it, and asks for a close.  With checks at most one
      interval apart, a session that lasts has heard of its peer within twice the interval
      and 59 seconds.  No session is closed that has not ended. */
  lemma SilenceEndsSession(interval: int, checked: int, now: int, acts: seq<Act>)
    requires interval >= 1 && checked <= now && Run(Begin(interval, checked, now), NoPromise, acts)
    ensures var t := Outcome(Begin(interval, checked, now), NoPromise, acts);
      && (t.g.s.cont ==> t.lastCheck - t.g.s.stamp < interval + PING_PONG_TIMEOUT)
      && (t.g.s.cont && t.clock <= t.lastCheck + interval ==>
            t.clock - t.g.s.stamp <= 2 * interval + PING_PONG_TIMEOUT - 1)
      && (t.silence.Some? ==> t.g.s.closeAsked)
      && (t.g.s.closeAsked ==> !t.g.s.cont)
  {
    RunWatched(Begin(interval, checked, now), NoPromise, acts);
  }
}
