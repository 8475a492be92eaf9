/** One session as a transition system: the sending thread, the requests that other
    senders broadcast, and the callbacks of the service thread, in any interleaving.

    A critical section under `writable_lock` is one step.  The sending thread publishes its
    three fields in one step, and a request looks at `send_buf` inside its critical
    section; module SendRace is about the steps in between. */
module SendProtocol {
  import opened ByteStream
  import opened SessionState

  /** Where the sending thread stands in usbws_send. */
  datatype Pc = Idle | Published | Waiting | Leaving

  /** `sends` are the buffers handed to usbws_send so far and `results` what it returned;
      `cur` is the last buffer, `base` what was on the wire when it was published, and
      `lost` counts bytes of earlier buffers that a publication overwrote unsent.
      `callbacks` and `pongs` count what arrived; `closing` says that a callback has
      answered with a close, `unsolicited` that a pong came without a ping. */
  datatype Engine = Engine(
    s: State, interval: int, pc: Pc, cur: seq<byte>, base: seq<byte>, lost: nat,
    sends: seq<seq<byte>>, results: seq<int>, callbacks: nat, pongs: nat, closing: bool, unsolicited: bool)

  datatype Act =
    | Publish(buf: seq<byte>)
    | Request(accept: nat)
    | ExitWait
    | Return
    | Callback(e: Event)

  predicate Enabled(g: Engine, a: Act) {
    match a
    case Publish(_) => g.pc == Idle
    case Request(_) => g.pc == Published
    case ExitWait => g.pc == Waiting && (!g.s.cont || g.s.sendBuf.None?)
    case Return => g.pc == Leaving
    case Callback(e) => e.Writable? ==> g.s.requested
  }

  function Unsent(g: Engine): int {
    |g.cur| - g.s.sendOffset
  }

  function Next(g: Engine, a: Act): Engine
    requires Consistent(g.s) && Sending(g.s, g.base, g.cur)
  {
    match a
    case Publish(buf) =>
      g.(s := SessionState.Published(g.s, buf), pc := Published, cur := buf,
         base := DataOf(g.s.wire), lost := g.lost + Unsent(g), sends := g.sends + [buf])
    case Request(accept) => g.(s := Handle(g.s, g.interval, SendRequest(accept)), pc := Waiting)
    case ExitWait => g.(pc := Leaving)
    case Return => g.(pc := Idle, results := g.results + [if g.s.cont then g.s.sendOffset else -1])
    case Callback(e) =>
      g.(s := Handle(g.s, g.interval, e),
         callbacks := g.callbacks + (if e.Writable? then 1 else 0),
         pongs := g.pongs + (if e.Pong? then 1 else 0),
         closing := g.closing || ((e.Pong? || e.HealthCheck?) && !g.s.cont) ||
           (e.HealthCheck? && TimesOut(g.s, g.interval, e.now)),
         unsolicited := g.unsolicited || (e.Pong? && PingsOf(g.s.wire) <= g.pongs))
  }

  // ----- what every step keeps

  predicate Writing(g: Engine) {
    Consistent(g.s) && Sending(g.s, g.base, g.cur) && ChunksBounded(g.s.wire) &&
    Credit(g.s) && PingDeferred(g.s) && (g.pc != Published ==> Pressing(g.s)) &&
    g.callbacks == Spent(g.s)
  }

  /** The buffers before the current one. */
  function Earlier(g: Engine): seq<seq<byte>> {
    if g.sends == [] then [] else g.sends[..|g.sends| - 1]
  }

  predicate Accounted(g: Engine) {
    (if g.sends == [] then g.cur == [] else g.cur == g.sends[|g.sends| - 1]) &&
    |g.base| + g.lost == |Stream(Earlier(g), 0)| &&
    (g.lost == 0 ==> g.base == Stream(Earlier(g), 0))
  }

  predicate Answered(g: Engine) {
    |g.results| + (if g.pc == Idle then 0 else 1) == |g.sends| &&
    (forall i :: 0 <= i < |g.results| ==> g.results[i] == -1 || g.results[i] == |g.sends[i]|) &&
    (g.pc == Leaving ==> g.s.cont ==> g.s.sendBuf.None?) &&
    (g.pc == Idle && g.s.sendBuf.Some? ==> !g.s.cont && -1 in g.results) &&
    (g.lost > 0 ==> -1 in g.results) && (-1 in g.results ==> !g.s.cont)
  }

  predicate PingsPaired(g: Engine) {
    !g.closing && !g.unsolicited ==>
      PingsOf(g.s.wire) - g.pongs == (if g.s.pinged then 1 else 0) && !(g.s.pinged && g.s.pingPending)
  }

  /** A close is asked for only once the session has ended. */
  predicate Closing(g: Engine) {
    g.closing == g.s.closeAsked && (g.closing ==> !g.s.cont)
  }

  predicate Inv(g: Engine) {
    Writing(g) && Accounted(g) && Answered(g) && PingsPaired(g) && Closing(g)
  }

  function Start(interval: int, now: int): (g: Engine)
    ensures Inv(g)
  {
    Engine(Established(now), interval, Idle, [], [], 0, [], [], 0, 0, false, false)
  }

  /** Writes, and the right to one more. */
  function Spent(s: State): int {
    |s.wire| + (if s.writable then 1 else 0)
  }

  lemma WritableCounts(s: State, accept: nat, sent: int)
    requires Consistent(s) && !s.writable
    ensures Spent(HandleWritable(s, accept, sent)) == Spent(s) + 1
  {
  }

  lemma CheckCounts(s: State, interval: int, now: int, sent: int)
    ensures Spent(CheckSession(s, interval, now, sent)) == Spent(s)
  {
  }

  /** Only a callback brings the right to write, and one each. */
  lemma HandleCounts(s: State, interval: int, e: Event)
    requires Consistent(s) && Credit(s) && (e.Writable? ==> s.requested)
    ensures Spent(Handle(s, interval, e)) == Spent(s) + (if e.Writable? then 1 else 0)
  {
    match e
    case Writable(accept, sent) => WritableCounts(s, accept, sent);
    case HealthCheck(now, sent) => CheckCounts(s, interval, now, sent);
    case _ =>
  }

  lemma WritingKept(g: Engine, a: Act)
    requires Writing(g) && Enabled(g, a)
    ensures Writing(Next(g, a))
  {
    match a
    case Publish(buf) =>
    case Request(accept) => EventKeepsWriting(g, SendRequest(accept));
    case Callback(e) => EventKeepsWriting(g, e);
    case ExitWait =>
    case Return =>
  }

  lemma EventKeepsWriting(g: Engine, e: Event)
    requires Writing(g) && (e.Writable? ==> g.s.requested)
    ensures var t := Handle(g.s, g.interval, e);
      Consistent(t) && Sending(t, g.base, g.cur) && ChunksBounded(t.wire) && Credit(t) && PingDeferred(t) &&
      (Pressing(g.s) || e.SendRequest? ==> Pressing(t)) &&
      Spent(t) == g.callbacks + (if e.Writable? then 1 else 0)
  {
    HandleKeepsConsistent(g.s, g.interval, e);
    HandleKeepsSending(g.s, g.interval, e, g.base, g.cur);
    HandleKeepsChunksBounded(g.s, g.interval, e);
    HandleKeepsCredit(g.s, g.interval, e);
    HandleCounts(g.s, g.interval, e);
  }

  lemma AccountedKept(g: Engine, a: Act)
    requires Writing(g) && Accounted(g) && Enabled(g, a)
    ensures Accounted(Next(g, a))
  {
    if a.Publish? {
      var t := Next(g, a);
      assert Earlier(t) == g.sends;
      if g.sends != [] {
        StreamSnoc(Earlier(g), 0, g.cur);
        assert Earlier(g) + [g.cur] == g.sends;
        if t.lost == 0 {
          assert g.cur[..g.s.sendOffset] == g.cur;
        }
      }
    }
  }

  lemma AnsweredKept(g: Engine, a: Act)
    requires Writing(g) && Accounted(g) && Answered(g) && Enabled(g, a)
    ensures Answered(Next(g, a))
  {
    match a
    case Publish(buf) =>
    case Request(accept) => EventKeepsAnswered(g, SendRequest(accept));
    case Callback(e) => EventKeepsAnswered(g, e);
    case ExitWait =>
    case Return =>
  }

  lemma EventKeepsAnswered(g: Engine, e: Event)
    requires Writing(g) && Answered(g)
    ensures var t := Handle(g.s, g.interval, e);
      (t.cont ==> g.s.cont) && (g.s.sendBuf.None? ==> t.sendBuf.None?)
  {
    HandleKeepsConsistent(g.s, g.interval, e);
    HandleKeepsWhatMatters(g.s, g.interval, e);
  }

  lemma PingsKept(g: Engine, a: Act)
    requires Writing(g) && PingsPaired(g) && Enabled(g, a)
    ensures PingsPaired(Next(g, a))
  {
    var h := Next(g, a);
    if (a.Request? || a.Callback?) && !h.closing && !h.unsolicited {
      var e := if a.Request? then SendRequest(a.accept) else a.e;
      PingsAndPong(g.s, g.interval, e);
    }
  }

  /** An event that does not close writes a ping only where none is outstanding. */
  lemma PingsAndPong(s: State, interval: int, e: Event)
    requires Consistent(s) && PingDeferred(s) && !(s.pinged && s.pingPending)
    requires (e.Pong? || e.HealthCheck?) ==> s.cont
    requires e.HealthCheck? ==> !TimesOut(s, interval, e.now)
    ensures var t := Handle(s, interval, e);
      && !(t.pinged && t.pingPending)
      && PingsOf(t.wire) - PingsOf(s.wire) ==
         (if t.pinged then 1 else 0) - (if s.pinged then 1 else 0) + (if e.Pong? && s.pinged then 1 else 0)
  {
    WireSnoc(s.wire, Ping(true));
    WireSnoc(s.wire, Ping(false));
    if WritesData(s, e) {
      DataIsNoPing(s, interval, e);
    }
  }

  lemma DataIsNoPing(s: State, interval: int, e: Event)
    requires Consistent(s) && WritesData(s, e)
    ensures PingsOf(Handle(s, interval, e).wire) == PingsOf(s.wire)
  {
    HandleWritesOrKeeps(s, interval, e);
    var u := SendData(s, Min(e.accept, ChunkLen(s)));
    assert u.wire == s.wire + [u.wire[|s.wire|]];
    WireSnoc(s.wire, u.wire[|s.wire|]);
  }

  lemma ClosingKept(g: Engine, a: Act)
    requires Writing(g) && Closing(g) && Enabled(g, a)
    ensures Closing(Next(g, a))
  {
    if a.Request? || a.Callback? {
      var e := if a.Request? then SendRequest(a.accept) else a.e;
      ClosesExactlyWhenEnded(g.s, g.interval, e);
      if !g.s.cont {
        HandleNeverRevives(g.s, g.interval, e);
      }
    }
  }

  lemma InvKept(g: Engine, a: Act)
    requires Inv(g) && Enabled(g, a)
    ensures Inv(Next(g, a))
  {
    WritingKept(g, a);
    AccountedKept(g, a);
    AnsweredKept(g, a);
    PingsKept(g, a);
    ClosingKept(g, a);
  }

  function Step(g: Engine, a: Act): (h: Engine)
    requires Inv(g) && Enabled(g, a)
    ensures Inv(h)
  {
    InvKept(g, a);
    Next(g, a)
  }

  // ----- whole runs

  predicate Legal(g: Engine, acts: seq<Act>)
    requires Inv(g)
    decreases |acts|
  {
    acts == [] || (Enabled(g, acts[0]) && Legal(Step(g, acts[0]), acts[1..]))
  }

  function Exec(g: Engine, acts: seq<Act>): (h: Engine)
    requires Inv(g) && Legal(g, acts)
    ensures Inv(h)
    decreases |acts|
  {
    if acts == [] then g else Exec(Step(g, acts[0]), acts[1..])
  }

  lemma {:induction false} LegalSnoc(g: Engine, acts: seq<Act>, a: Act)
    requires Inv(g) && Legal(g, acts) && Enabled(Exec(g, acts), a)
    ensures Legal(g, acts + [a])
    decreases |acts|
  {
    if acts == [] {
      assert (acts + [a])[1..] == [];
    } else {
      LegalSnoc(Step(g, acts[0]), acts[1..], a);
      assert (acts + [a])[1..] == acts[1..] + [a];
    }
  }

  /** One more step of a run. */
  lemma {:induction false} ExecSnoc(g: Engine, acts: seq<Act>, a: Act)
    requires Inv(g) && Legal(g, acts) && Enabled(Exec(g, acts), a) && Legal(g, acts + [a])
    ensures Exec(g, acts + [a]) == Next(Exec(g, acts), a)
    decreases |acts|
  {
    if acts == [] {
      assert (acts + [a])[1..] == [];
    } else {
      assert (acts + [a])[1..] == acts[1..] + [a];
      ExecSnoc(Step(g, acts[0]), acts[1..], a);
    }
  }

  // ----- what a send means

  lemma WireIsPrefix(g: Engine)
    requires Inv(g) && g.lost == 0
    ensures DataOf(g.s.wire) <= Stream(g.sends, 0)
  {
    if g.sends != [] {
      StreamSnoc(Earlier(g), 0, g.cur);
      assert Earlier(g) + [g.cur] == g.sends;
      assert g.cur == g.cur[..g.s.sendOffset] + g.cur[g.s.sendOffset..];
    }
  }

  /** Every byte handed over is on the wire, or still to go, or was overwritten. */
  lemma BytesConserved(g: Engine)
    requires Inv(g)
    ensures |DataOf(g.s.wire)| + g.lost + Unsent(g) == |Stream(g.sends, 0)|
  {
    if g.sends != [] {
      StreamSnoc(Earlier(g), 0, g.cur);
      assert Earlier(g) + [g.cur] == g.sends;
    }
  }

  lemma AllWrittenAtRest(g: Engine)
    requires Inv(g) && g.pc == Idle && -1 !in g.results
    ensures DataOf(g.s.wire) == Stream(g.sends, 0)
  {
    BytesConserved(g);
    WireIsPrefix(g);
  }

  /** In every run: no data message exceeds one chunk; the wire holds what it held when the
      current buffer was published and then the first `sendOffset` bytes of that buffer;
      every byte handed over is on the wire, or still to go, or was overwritten; and while
      no send has failed the wire is a prefix of the buffers handed over, and all of them
      once the last send has returned. */
  lemma SendExactness(interval: int, now: int, acts: seq<Act>)
    requires Legal(Start(interval, now), acts)
    ensures var g := Exec(Start(interval, now), acts);
      && ChunksBounded(g.s.wire)
      && 0 <= g.s.sendOffset <= |g.cur| && DataOf(g.s.wire) == g.base + g.cur[..g.s.sendOffset]
      && |DataOf(g.s.wire)| + g.lost + Unsent(g) == |Stream(g.sends, 0)|
      && (g.lost == 0 ==> DataOf(g.s.wire) <= Stream(g.sends, 0))
      && (-1 !in g.results ==> g.lost == 0)
      && (-1 !in g.results && g.pc == Idle ==> DataOf(g.s.wire) == Stream(g.sends, 0))
  {
    var g := Exec(Start(interval, now), acts);
    BytesConserved(g);
    if g.lost == 0 {
      WireIsPrefix(g);
    }
    if -1 !in g.results && g.pc == Idle {
      AllWrittenAtRest(g);
    }
  }

  /** usbws_send returns a count exactly when the session lasts, and then it is the length
      of the buffer, the buffer was released, and all of it was written once, in order. */
  lemma ReturnExactness(g: Engine)
    requires Inv(g) && Enabled(g, Return)
    ensures var h := Next(g, Return); var r := h.results[|g.results|];
      && (r >= 0 <==> g.s.cont)
      && (r >= 0 ==> r == |g.sends[|g.results|]| && h.s.sendBuf.None? &&
                     DataOf(h.s.wire) == g.base + g.sends[|g.results|])
  {
    assert g.s.cont ==> g.cur[..g.s.sendOffset] == g.cur;
  }

  // ----- sending after a failed send

  /** Some run leads from `g` to `h`. */
  ghost predicate Reaches(g: Engine, h: Engine)
    requires Inv(g)
  {
    Inv(h) && exists acts :: Legal(g, acts) && Exec(g, acts) == h
  }

  lemma ReachesSelf(g: Engine)
    requires Inv(g)
    ensures Reaches(g, g)
  {
    assert Legal(g, []) && Exec(g, []) == g;
  }

  /** One more step of a run, in one place. */
  lemma ExecLonger(g: Engine, acts: seq<Act>, a: Act)
    requires Inv(g) && Legal(g, acts) && Enabled(Exec(g, acts), a)
    ensures Legal(g, acts + [a]) && Exec(g, acts + [a]) == Step(Exec(g, acts), a)
  {
    LegalSnoc(g, acts, a);
    ExecSnoc(g, acts, a);
  }

  lemma ReachesStep(g: Engine, h: Engine, a: Act)
    requires Inv(g) && Reaches(g, h) && Enabled(h, a)
    ensures Reaches(g, Step(h, a))
  {
    var acts :| Legal(g, acts) && Exec(g, acts) == h;
    ExecLonger(g, acts, a);
  }

  /** A send without a credit writes nothing yet, and a callback comes. */
  lemma BeginSend(g: Engine, buf: seq<byte>) returns (h: Engine)
    requires Inv(g) && g.pc == Idle && !g.s.writable
    ensures Reaches(g, h)
    ensures h.pc == Waiting && h.s.sendBuf == Some(buf) && h.s.sendOffset == 0 && h.s.requested && h.s.cont == g.s.cont
    ensures h.s.wire == g.s.wire && h.cur == buf && h.sends == g.sends + [buf]
    ensures h.lost == g.lost + Unsent(g) && h.results == g.results
  {
    ReachesSelf(g);
    h := Step(g, Publish(buf));
    ReachesStep(g, g, Publish(buf));
    ReachesStep(g, h, Request(0));
    h := Step(h, Request(0));
  }

  /** `h` is `g` with `k` bytes of its buffer written. */
  predicate Stopping(g: Engine, k: nat, h: Engine) {
    h.pc == Waiting && h.s.sendOffset == k && h.lost == g.lost && h.cur == g.cur && h.results == g.results
  }

  /** A writable callback at the start of a buffer that does not fit into its write. */
  lemma FirstChunk(g: Engine, k: nat)
    requires Inv(g) && g.pc == Waiting && g.s.sendBuf.Some? && g.s.sendOffset == 0 && g.s.requested
    requires k < |g.cur| && k <= SEND_CONTENT
    ensures Stopping(g, k, Step(g, Callback(Writable(k, 0))))
  {
    WritableWrites(g.s, k, 0);
  }

  lemma ShutdownStops(g: Engine, h: Engine, k: nat)
    requires Inv(h) && Stopping(g, k, h)
    ensures Stopping(g, k, Step(h, Callback(Shutdown))) && !Step(h, Callback(Shutdown)).s.cont
  {
  }

  lemma StoppedAfter(g0: Engine, g: Engine, k: nat) returns (h: Engine)
    requires Inv(g0) && Reaches(g0, g)
    requires g.pc == Waiting && g.s.sendBuf.Some? && g.s.sendOffset == 0 && g.s.requested
    requires k < |g.cur| && k <= SEND_CONTENT
    ensures Reaches(g0, h) && Stopping(g, k, h) && !h.s.cont
  {
    FirstChunk(g, k);
    ReachesStep(g0, g, Callback(Writable(k, 0)));
    h := Step(g, Callback(Writable(k, 0)));
    ShutdownStops(g, h, k);
    ReachesStep(g0, h, Callback(Shutdown));
    h := Step(h, Callback(Shutdown));
  }

  /** A sender woken by the end of the session returns -1. */
  lemma EndSend(g0: Engine, g: Engine) returns (h: Engine)
    requires Inv(g0) && Reaches(g0, g) && g.pc == Waiting && !g.s.cont
    ensures Reaches(g0, h) && h == g.(pc := Idle, results := g.results + [-1])
  {
    ReachesStep(g0, g, ExitWait);
    h := Step(g, ExitWait);
    ReachesStep(g0, h, Return);
    h := Step(h, Return);
  }

  /** A send can fail with any part of its first chunk written. */
  lemma FailedSend(interval: int, now: int, buf: seq<byte>, k: nat) returns (g: Engine)
    requires k < |buf| && k <= SEND_CONTENT
    ensures Reaches(Start(interval, now), g)
    ensures g.pc == Idle && g.lost == 0 && g.cur == buf && g.results == [-1] && Unsent(g) == |buf| - k
  {
    g := BeginSend(Start(interval, now), buf);
    g := StoppedAfter(Start(interval, now), g, k);
    g := EndSend(Start(interval, now), g);
  }

  /** Sending again after a failed send can put the new bytes on the wire where the unsent
      ones were due. */
  lemma ResendSkips(g: Engine, buf: seq<byte>, accept: nat) returns (h: Engine)
    requires Inv(g) && g.pc == Idle && g.lost == 0 && Unsent(g) > 0 && buf != [] && accept > 0
    ensures Reaches(g, h) && h.sends == g.sends + [buf]
    ensures var at := |DataOf(g.s.wire)|;
      && at < |DataOf(h.s.wire)| && DataOf(h.s.wire)[at] == buf[0]
      && at < |Stream(h.sends, 0)| && Stream(h.sends, 0)[at] == g.cur[g.s.sendOffset]
  {
    h := BeginSend(g, buf);
    FirstByteWritten(h, accept);
    ReachesStep(g, h, Callback(Writable(accept, 0)));
    h := Step(h, Callback(Writable(accept, 0)));
    UnsentByteDue(g, buf);
  }

  lemma FirstByteWritten(g: Engine, accept: nat)
    requires Inv(g) && g.s.sendBuf.Some? && g.s.sendOffset == 0 && g.s.requested && g.cur != [] && accept > 0
    ensures var h, at := Step(g, Callback(Writable(accept, 0))), |DataOf(g.s.wire)|;
      h.sends == g.sends && at < |DataOf(h.s.wire)| && DataOf(h.s.wire)[at] == g.cur[0]
  {
    WritableWrites(g.s, accept, 0);
    WireBetween(g.s, Step(g, Callback(Writable(accept, 0))).s, g.base, g.cur);
  }

  lemma UnsentByteDue(g: Engine, buf: seq<byte>)
    requires Inv(g) && g.lost == 0 && Unsent(g) > 0
    ensures var at := |DataOf(g.s.wire)|;
      at < |Stream(g.sends + [buf], 0)| && Stream(g.sends + [buf], 0)[at] == g.cur[g.s.sendOffset]
  {
    StreamSnoc(Earlier(g), 0, g.cur);
    assert Earlier(g) + [g.cur] == g.sends;
    StreamSnoc(g.sends, 0, buf);
  }

  /** `h` comes after the publication of `buf` at `g`, with no further one between. */
  ghost predicate After(g: Engine, buf: seq<byte>, h: Engine)
    requires Inv(g) && g.pc == Idle
  {
    QuietlyReaches(Step(g, Publish(buf)), h)
  }

  ghost predicate QuietlyReaches(g: Engine, h: Engine)
    requires Inv(g)
  {
    Inv(h) && exists acts :: Quiet(acts) && Legal(g, acts) && Exec(g, acts) == h
  }

  lemma QuietStep(g: Engine, h: Engine, a: Act)
    requires Inv(g) && QuietlyReaches(g, h) && Enabled(h, a) && !a.Publish?
    ensures QuietlyReaches(g, Step(h, a))
  {
    var acts :| Quiet(acts) && Legal(g, acts) && Exec(g, acts) == h;
    ExecLonger(g, acts, a);
    assert Quiet(acts + [a]);
  }

  predicate Quiet(acts: seq<Act>) {
    forall a <- acts :: !a.Publish?
  }

  lemma {:induction false} QuietKeepsBuffer(g: Engine, acts: seq<Act>)
    requires Inv(g) && Legal(g, acts) && Quiet(acts)
    ensures var h := Exec(g, acts); h.lost == g.lost && h.cur == g.cur && h.base == g.base && h.sends == g.sends
    decreases |acts|
  {
    if acts != [] {
      QuietKeepsBuffer(Step(g, acts[0]), acts[1..]);
    }
  }

  lemma AfterPublish(g: Engine, buf: seq<byte>)
    requires Inv(g) && g.pc == Idle
    ensures After(g, buf, Step(g, Publish(buf)))
  {
    var h := Step(g, Publish(buf));
    assert Quiet([]) && Legal(h, []) && Exec(h, []) == h;
  }

  lemma AfterStep(g: Engine, buf: seq<byte>, h: Engine, a: Act)
    requires Inv(g) && g.pc == Idle && After(g, buf, h) && Enabled(h, a) && !a.Publish?
    ensures After(g, buf, Step(h, a))
  {
    QuietStep(Step(g, Publish(buf)), h, a);
  }

  /** `h` is `g` with a one-byte buffer [b] published, written or not yet. */
  predicate OneByte(g: Engine, b: byte, h: Engine) {
    h.cur == [b] && h.sends == g.sends + [[b]] && h.base == DataOf(g.s.wire)
  }

  lemma PublishByte(g: Engine, b: byte)
    requires Inv(g) && g.pc == Idle
    ensures var h := Step(g, Publish([b]));
      OneByte(g, b, h) && h.pc == Published && h.s.sendBuf.Some? && h.s.sendOffset == 0 &&
      h.s.writable == g.s.writable && h.s.requested == g.s.requested
  {
  }

  /** A request writes the byte, or leaves it to the next callback. */
  lemma RequestByte(g: Engine, b: byte, h: Engine)
    requires Inv(h) && OneByte(g, b, h) && h.pc == Published && h.s.sendBuf.Some? && h.s.sendOffset == 0
    ensures var k := Step(h, Request(1));
      OneByte(g, b, k) &&
      if h.s.writable then k.s.sendOffset == 1 else k.s.sendBuf.Some? && k.s.sendOffset == 0 && k.s.requested
  {
  }

  lemma CallbackWritesByte(g: Engine, b: byte, h: Engine)
    requires Inv(h) && OneByte(g, b, h) && h.s.sendBuf.Some? && h.s.sendOffset == 0 && h.s.requested
    ensures var k := Step(h, Callback(Writable(1, 0))); OneByte(g, b, k) && k.s.sendOffset == 1
  {
    WritableWrites(h.s, 1, 0);
  }

  lemma OneByteOnWire(g: Engine, b: byte, h: Engine)
    requires Inv(h) && OneByte(g, b, h) && h.s.sendOffset == 1
    ensures DataOf(h.s.wire) == DataOf(g.s.wire) + [b]
  {
    assert [b][..1] == [b];
  }

  /** A one-byte send can have its byte written right behind what was on the wire. */
  lemma ByteWritten(g: Engine, b: byte) returns (h: Engine)
    requires Inv(g) && g.pc == Idle
    ensures After(g, [b], h) && h.sends == g.sends + [[b]]
    ensures DataOf(h.s.wire) == DataOf(g.s.wire) + [b]
  {
    AfterPublish(g, [b]);
    h := Step(g, Publish([b]));
    PublishByte(g, b);
    RequestByte(g, b, h);
    AfterStep(g, [b], h, Request(1));
    h := Step(h, Request(1));
    if !g.s.writable {
      AfterStep(g, [b], h, Callback(Writable(1, 0)));
      CallbackWritesByte(g, b, h);
      h := Step(h, Callback(Writable(1, 0)));
    }
    OneByteOnWire(g, b, h);
  }

  /** Until yet another buffer is published, what the next send puts on the wire leaves there a
      prefix of the buffers handed over, for every buffer and in every continuation, if and
      only if all that was handed over before has been written: the last buffer has no unsent
      rest, and none was overwritten. */
  lemma NextSendRightExactlyWhen(g: Engine)
    requires Inv(g) && g.pc == Idle
    ensures |DataOf(g.s.wire)| == |Stream(g.sends, 0)| <==> Unsent(g) == 0 && g.lost == 0
    ensures |DataOf(g.s.wire)| == |Stream(g.sends, 0)| <==>
      forall buf, h | After(g, buf, h) :: DataOf(h.s.wire) <= Stream(h.sends, 0)
  {
    BytesConserved(g);
    var at := |DataOf(g.s.wire)|;
    if at == |Stream(g.sends, 0)| {
      forall buf, h | After(g, buf, h) ensures DataOf(h.s.wire) <= Stream(h.sends, 0) {
        RightAfter(g, buf, h);
      }
    } else {
      var b: byte := if Stream(g.sends, 0)[at] == 0 then 1 else 0;
      var h := ByteWritten(g, b);
      StreamSnoc(g.sends, 0, [b]);
      assert DataOf(h.s.wire)[at] == b && Stream(h.sends, 0)[at] == Stream(g.sends, 0)[at];
    }
  }

  lemma RightAfter(g: Engine, buf: seq<byte>, h: Engine)
    requires Inv(g) && g.pc == Idle && Unsent(g) == 0 && g.lost == 0 && After(g, buf, h)
    ensures DataOf(h.s.wire) <= Stream(h.sends, 0)
  {
    var g1 := Step(g, Publish(buf));
    var acts :| Quiet(acts) && Legal(g1, acts) && Exec(g1, acts) == h;
    QuietKeepsBuffer(g1, acts);
    WireIsPrefix(h);
  }

  /** What is on the wire stays there. */
  lemma WireGrows(g: Engine, a: Act)
    requires Inv(g) && Enabled(g, a)
    ensures DataOf(g.s.wire) <= DataOf(Step(g, a).s.wire)
  {
    if a.Request? || a.Callback? {
      var e := if a.Request? then SendRequest(a.accept) else a.e;
      HandleKeepsSending(g.s, g.interval, e, g.base, g.cur);
      WireBetween(g.s, Handle(g.s, g.interval, e), g.base, g.cur);
    }
  }

  /** `t` is `g.s` untouched if there is nothing to send or no credit, and otherwise after the
      next chunk of its own buffer: as many bytes as the library takes of what is left, up to
      1500, in one message, for one credit, with the buffer released at its end. */
  predicate MovedByChunk(g: Engine, accept: nat, t: State) {
    if g.s.sendBuf.None? || !g.s.writable then t == g.s
    else
      var off := g.s.sendOffset;
      0 <= off <= |g.cur| && t.sendOffset == off + Min(accept, Min(|g.cur| - off, 1500)) &&
      |t.wire| == |g.s.wire| + 1 &&
      DataOf(t.wire) == DataOf(g.s.wire) + g.cur[off..t.sendOffset] &&
      (t.sendBuf.None? <==> t.sendOffset == |g.cur|) && !t.writable && t.requested
  }

  /** A request, the sender's own or another's, leaves alone a session with nothing to send
      or no credit, and otherwise writes the next chunk of its buffer. */
  lemma RequestWritesNextChunk(g: Engine, accept: nat)
    requires Inv(g)
    ensures MovedByChunk(g, accept, Handle(g.s, g.interval, SendRequest(accept)))
  {
    if g.s.sendBuf.Some? && g.s.writable {
      WireAfterWrite(g.s, Min(accept, ChunkLen(g.s)));
    }
  }

  // ----- progress

  /** A sender in its wait leaves or is owed a callback. */
  predicate LeavesOrIsCalledBack(g: Engine) {
    g.pc == Waiting ==>
      (Enabled(g, ExitWait) <==> !g.s.cont || g.s.sendBuf.None?) &&
      (Enabled(g, ExitWait) || Enabled(g, Callback(Writable(0, 0))))
  }

  lemma WaitingLeavesOrIsCalledBack(g: Engine)
    requires Inv(g)
    ensures LeavesOrIsCalledBack(g)
  {
  }

  /** No request is lost: in every run a sender that has asked can leave its wait if and only
      if its buffer is gone or the session has ended, and otherwise a writable callback is
      coming. */
  lemma CallbackOutstanding(interval: int, now: int, acts: seq<Act>)
    requires Legal(Start(interval, now), acts)
    ensures LeavesOrIsCalledBack(Exec(Start(interval, now), acts))
  {
    WaitingLeavesOrIsCalledBack(Exec(Start(interval, now), acts));
  }

  /** Each callback whose write takes a byte brings the end of the buffer nearer. */
  lemma WritableAdvances(g: Engine, accept: nat)
    requires Inv(g) && Enabled(g, Callback(Writable(accept, 0))) && g.s.sendBuf.Some? && accept > 0
    ensures var h := Next(g, Callback(Writable(accept, 0)));
      h.s.sendBuf.None? || (Unsent(h) < Unsent(g) && h.s.requested)
  {
    WritableWrites(g.s, accept, 0);
    HandleKeepsCredit(g.s, g.interval, Writable(accept, 0));
  }

  /** How many writes `n` bytes need when each is taken whole; an empty buffer needs one. */
  function Chunks(n: nat): nat {
    if n == 0 then 1 else (n + SEND_CONTENT - 1) / SEND_CONTENT
  }

  function Pending(s: State): nat
    requires Consistent(s)
  {
    if s.sendBuf.None? then 0 else Chunks(s.sendLen - s.sendOffset)
  }

  /** A write in this step is taken whole. */
  predicate TakenWhole(a: Act) {
    match a
    case Request(accept) => accept >= SEND_CONTENT
    case Callback(e) => e.Writable? || e.SendRequest? ==> e.accept >= SEND_CONTENT
    case _ => true
  }

  function WritableCount(acts: seq<Act>): nat {
    if acts == [] then 0
    else (if acts[0].Callback? && acts[0].e.Writable? then 1 else 0) + WritableCount(acts[1..])
  }

  lemma HandleSpends(s: State, interval: int, e: Event)
    requires Consistent(s) && TakenWhole(Callback(e))
    ensures Consistent(Handle(s, interval, e))
    ensures Pending(Handle(s, interval, e)) <= Pending(s)
    ensures e.Writable? && Pending(s) > 0 ==> Pending(Handle(s, interval, e)) == Pending(s) - 1
  {
    HandleKeepsConsistent(s, interval, e);
    HandleWritesOrKeeps(s, interval, e);
  }

  lemma StepSpends(g: Engine, a: Act)
    requires Inv(g) && Enabled(g, a) && TakenWhole(a) && !a.Publish?
    ensures Pending(Step(g, a).s) <= Pending(g.s)
    ensures a.Callback? && a.e.Writable? && Pending(g.s) > 0 ==> Pending(Step(g, a).s) == Pending(g.s) - 1
  {
    if a.Request? {
      HandleSpends(g.s, g.interval, SendRequest(a.accept));
    } else if a.Callback? {
      HandleSpends(g.s, g.interval, a.e);
    }
  }

  /** Each writable callback brings a pending buffer one chunk nearer to its end, whatever
      else happens meanwhile, if the writes are taken whole. */
  lemma {:induction false} FinishesWithin(g: Engine, acts: seq<Act>)
    requires Inv(g) && Legal(g, acts) && Quiet(acts)
    requires forall a <- acts :: TakenWhole(a)
    ensures var h := Exec(g, acts);
      Pending(h.s) <= Pending(g.s) && (Pending(h.s) == 0 || Pending(h.s) + WritableCount(acts) <= Pending(g.s))
    decreases |acts|
  {
    if acts != [] {
      StepSpends(g, acts[0]);
      FinishesWithin(Step(g, acts[0]), acts[1..]);
    }
  }

  /** From its publication on, a buffer is written whole and in place, and released, after
      at most Chunks(|buf|) writable callbacks, whatever the sender, other senders and the
      service thread do between them. */
  lemma SendFinishesWithin(g: Engine, buf: seq<byte>, acts: seq<Act>)
    requires Inv(g) && g.pc == Idle && Legal(Step(g, Publish(buf)), acts) && Quiet(acts)
    requires forall a <- acts :: TakenWhole(a)
    requires WritableCount(acts) >= Chunks(|buf|)
    ensures var h := Exec(Step(g, Publish(buf)), acts);
      h.s.sendBuf.None? && DataOf(h.s.wire) == DataOf(g.s.wire) + buf
  {
    var g1 := Step(g, Publish(buf));
    FinishesWithin(g1, acts);
    QuietKeepsBuffer(g1, acts);
    assert Pending(Exec(g1, acts).s) == 0;
    assert buf[..|buf|] == buf;
  }

  // ----- credit and pings

  /** In every run exactly one of "may write now" and "will be called back" holds; each
      callback paid for exactly one write, data or ping, but for the credit in hand; no ping
      waits beside an unused credit; and until a callback closes or a pong comes unasked,
      the pings written are those answered and the one outstanding. */
  lemma CreditConserved(interval: int, now: int, acts: seq<Act>)
    requires Legal(Start(interval, now), acts)
    ensures var g := Exec(Start(interval, now), acts);
      && g.s.writable != g.s.requested && !(g.s.pingPending && g.s.writable)
      && g.callbacks == |g.s.wire| + (if g.s.writable then 1 else 0)
      && (!g.closing && !g.unsolicited ==>
            PingsOf(g.s.wire) == g.pongs + (if g.s.pinged then 1 else 0) && !(g.s.pinged && g.s.pingPending))
  {
  }

  /** A deferred ping is settled by the next writable callback: a ping goes out, or data
      takes its place. */
  lemma DeferredPingSettled(g: Engine, accept: nat, sent: int)
    requires Inv(g) && g.s.pingPending && Enabled(g, Callback(Writable(accept, sent)))
    ensures var h := Next(g, Callback(Writable(accept, sent)));
      && !h.s.pingPending && |h.s.wire| == |g.s.wire| + 1
      && (if g.s.sendBuf.Some? then h.s.wire[|g.s.wire|].Data? else h.s.wire[|g.s.wire|] == Ping(sent > 0))
  {
  }

  // ----- why a message is written, and what becomes of a ping

  /** In every run a step writes one message, behind those written before, if it is an event
      with a reason to write, and none otherwise. */
  lemma StepsWriteForReason(interval: int, now: int, acts: seq<Act>, a: Act)
    requires Legal(Start(interval, now), acts) && Enabled(Exec(Start(interval, now), acts), a)
    ensures var g := Exec(Start(interval, now), acts);
      var h := Next(g, a);
      var reason := (a.Request? && HasReason(g.s, g.interval, SendRequest(a.accept))) ||
        (a.Callback? && HasReason(g.s, g.interval, a.e));
      && |h.s.wire| == |g.s.wire| + (if reason then 1 else 0) && g.s.wire <= h.s.wire
  {
    var g := Exec(Start(interval, now), acts);
    if a.Request? {
      WritesExactlyForReason(g.s, g.interval, SendRequest(a.accept));
    } else if a.Callback? {
      WritesExactlyForReason(g.s, g.interval, a.e);
    }
  }

  /** A ping that was asked for when `since` messages had been written is outstanding or
      pending, or since then data took its place or the library refused it. */
  ghost predicate PingFate(since: nat, s: State) {
    since <= |s.wire| && (s.pinged || s.pingPending || exists m <- s.wire[since..] :: m != Ping(true))
  }

  lemma PendingPingSettled(s: State, accept: nat, sent: int)
    requires Consistent(s) && s.pingPending
    ensures var t := HandleWritable(s, accept, sent);
      |t.wire| == |s.wire| + 1 && (t.pinged || t.wire[|s.wire|] != Ping(true))
  {
    if s.sendBuf.Some? {
      WritableWrites(s, accept, sent);
    }
  }

  lemma FateStays(since: nat, v: seq<Message>, w: seq<Message>, m: Message)
    requires since <= |v| && v <= w && m in v[since..]
    ensures m in w[since..]
  {
    assert w[since..|v|] == v[since..];
  }

  lemma EventKeepsFate(since: nat, s: State, interval: int, e: Event)
    requires Consistent(s) && PingFate(since, s) && !e.Pong?
    ensures PingFate(since, Handle(s, interval, e))
  {
    WritesExactlyForReason(s, interval, e);
    var t := Handle(s, interval, e);
    if s.pingPending && e.Writable? {
      PendingPingSettled(s, e.accept, e.sent);
      assert t.wire[|s.wire|] in t.wire[since..];
    } else if !s.pinged && !s.pingPending {
      var m :| m in s.wire[since..] && m != Ping(true);
      FateStays(since, s.wire, t.wire, m);
    }
  }

  lemma {:induction false} RunKeepsFate(since: nat, g: Engine, acts: seq<Act>)
    requires Inv(g) && Legal(g, acts) && PingFate(since, g.s)
    requires forall a <- acts :: a.Callback? ==> !a.e.Pong?
    ensures PingFate(since, Exec(g, acts).s)
    decreases |acts|
  {
    if acts != [] {
      if acts[0].Request? {
        EventKeepsFate(since, g.s, g.interval, SendRequest(acts[0].accept));
      } else if acts[0].Callback? {
        EventKeepsFate(since, g.s, g.interval, acts[0].e);
      }
      RunKeepsFate(since, Step(g, acts[0]), acts[1..]);
    }
  }

  /** A check asks for a ping whenever its session has been quiet for the interval with none
      outstanding; and in every run from there, until a pong comes, that ping is outstanding or
      pending, or data took its place, or the library refused it. */
  lemma AskedPingFate(g: Engine, now: int, sent: int, acts: seq<Act>)
    requires Inv(g) && g.s.cont && g.interval >= 1 && !g.s.pinged
    requires g.interval <= now - g.s.stamp < g.interval + 60
    requires Legal(Step(g, Callback(HealthCheck(now, sent))), acts)
    requires forall a <- acts :: a.Callback? ==> !a.e.Pong?
    ensures PingFate(|g.s.wire|, Exec(Step(g, Callback(HealthCheck(now, sent))), acts).s)
  {
    var h := Step(g, Callback(HealthCheck(now, sent)));
    QuietSessionPinged(g.s, g.interval, now, sent);
    assert g.s.writable ==> Ping(sent > 0) in h.s.wire[|g.s.wire|..];
    assert PingFate(|g.s.wire|, h.s);
    RunKeepsFate(|g.s.wire|, h, acts);
  }
}
