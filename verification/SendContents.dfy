/** When what is on the wire is right whatever the bytes are: runs of module SendProtocol that
    differ only in the contents of the buffers handed to usbws_send. */
module SendContents {
  import opened ByteStream
  import opened SessionState
  import opened SendProtocol

  /** What is on the wire are the first bytes of all that was handed over. */
  predicate Prefix(g: Engine) {
    DataOf(g.s.wire) <= Stream(g.sends, 0)
  }

  /** The step writes a byte after some buffer was overwritten before it was all sent. */
  predicate LateByte(g: Engine, a: Act)
    requires Inv(g) && Enabled(g, a)
  {
    g.lost > 0 && |DataOf(Step(g, a).s.wire)| > |DataOf(g.s.wire)|
  }

  predicate NoLateByte(g: Engine, acts: seq<Act>)
    requires Inv(g) && Legal(g, acts)
    decreases |acts|
  {
    acts == [] || (!LateByte(g, acts[0]) && NoLateByte(Step(g, acts[0]), acts[1..]))
  }

  lemma PrefixKept(g: Engine, a: Act)
    requires Inv(g) && Enabled(g, a) && Prefix(g) && !LateByte(g, a)
    ensures Prefix(Step(g, a))
  {
    var h := Step(g, a);
    if h.lost == 0 {
      WireIsPrefix(h);
    } else if a.Publish? {
      StreamSnoc(g.sends, 0, a.buf);
    } else {
      WireGrows(g, a);
    }
  }

  lemma {:induction false} RunKeepsPrefix(g: Engine, acts: seq<Act>)
    requires Inv(g) && Legal(g, acts) && Prefix(g) && NoLateByte(g, acts)
    ensures Prefix(Exec(g, acts))
    decreases |acts|
  {
    if acts != [] {
      PrefixKept(g, acts[0]);
      RunKeepsPrefix(Step(g, acts[0]), acts[1..]);
    }
  }

  // ----- the same run over other contents

  predicate SameShapeAct(a: Act, b: Act) {
    if a.Publish? then b.Publish? && |b.buf| == |a.buf| else b == a
  }

  predicate SameShape(acts: seq<Act>, others: seq<Act>) {
    |acts| == |others| && forall i :: 0 <= i < |acts| ==> SameShapeAct(acts[i], others[i])
  }

  predicate AlikeState(s: State, t: State) {
    t == s.(sendBuf := t.sendBuf, wire := t.wire) && (s.sendBuf.Some? <==> t.sendBuf.Some?)
  }

  predicate Alike(g: Engine, h: Engine) {
    AlikeState(g.s, h.s) && h.interval == g.interval && h.pc == g.pc && h.lost == g.lost &&
    |h.cur| == |g.cur| && |h.base| == |g.base| && |h.sends| == |g.sends|
  }

  lemma SendAlike(s: State, t: State, sent: nat)
    requires Consistent(s) && Consistent(t) && AlikeState(s, t) && s.sendBuf.Some? && sent <= ChunkLen(s)
    ensures ChunkLen(t) == ChunkLen(s) && AlikeState(SendData(s, sent), SendData(t, sent))
  {
  }

  lemma PingAlike(s: State, t: State, sent: int)
    requires AlikeState(s, t)
    ensures AlikeState(WritePing(s, sent), WritePing(t, sent)) && AlikeState(SendPing(s, sent), SendPing(t, sent))
  {
  }

  lemma WritableAlike(s: State, t: State, accept: nat, sent: int)
    requires Consistent(s) && Consistent(t) && AlikeState(s, t)
    ensures AlikeState(HandleWritable(s, accept, sent), HandleWritable(t, accept, sent))
  {
    var u := s.(requested := false, writable := true, pingPending := false);
    var v := t.(requested := false, writable := true, pingPending := false);
    if s.sendBuf.Some? {
      SendAlike(u, v, Min(accept, ChunkLen(s)));
    } else {
      PingAlike(u, v, sent);
    }
  }

  lemma CheckAlike(s: State, t: State, interval: int, now: int, sent: int)
    requires AlikeState(s, t)
    ensures AlikeState(CheckSession(s, interval, now, sent), CheckSession(t, interval, now, sent))
  {
    PingAlike(s, t, sent);
    PingAlike(s.(cont := false), t.(cont := false), sent);
  }

  lemma RequestAlike(s: State, t: State, accept: nat)
    requires Consistent(s) && Consistent(t) && AlikeState(s, t)
    ensures AlikeState(HandleSendRequest(s, accept), HandleSendRequest(t, accept))
  {
    if s.sendBuf.Some? && s.writable {
      SendAlike(s, t, Min(accept, ChunkLen(s)));
    }
  }

  lemma PongAlike(s: State, t: State, now: int)
    requires AlikeState(s, t)
    ensures AlikeState(HandlePong(s, now), HandlePong(t, now))
  {
  }

  lemma FieldsAlike(s: State, t: State, interval: int, e: Event)
    requires Consistent(s) && Consistent(t) && AlikeState(s, t) && (e.Receive? || e.Shutdown? || e.Closed?)
    ensures AlikeState(Handle(s, interval, e), Handle(t, interval, e))
  {
  }

  lemma HandleAlike(s: State, t: State, interval: int, e: Event)
    requires Consistent(s) && Consistent(t) && AlikeState(s, t)
    ensures AlikeState(Handle(s, interval, e), Handle(t, interval, e))
  {
    match e
    case Writable(accept, sent) => WritableAlike(s, t, accept, sent);
    case SendRequest(accept) => RequestAlike(s, t, accept);
    case Pong(now) => PongAlike(s, t, now);
    case HealthCheck(now, sent) => CheckAlike(s, t, interval, now, sent);
    case Receive(_, _, _) => FieldsAlike(s, t, interval, e);
    case Shutdown => FieldsAlike(s, t, interval, e);
    case Closed => FieldsAlike(s, t, interval, e);
  }

  lemma StepAlike(g: Engine, h: Engine, a: Act, b: Act)
    requires Inv(g) && Inv(h) && Alike(g, h) && SameShapeAct(a, b) && Enabled(g, a)
    ensures Enabled(h, b) && Alike(Step(g, a), Step(h, b)) && (LateByte(h, b) <==> LateByte(g, a))
  {
    if a.Request? {
      HandleAlike(g.s, h.s, g.interval, SendRequest(a.accept));
    } else if a.Callback? {
      HandleAlike(g.s, h.s, g.interval, a.e);
    }
    WireLength(g);
    WireLength(h);
    WireLength(Step(g, a));
    WireLength(Step(h, b));
  }

  lemma WireLength(g: Engine)
    requires Inv(g)
    ensures |DataOf(g.s.wire)| == |g.base| + g.s.sendOffset
  {
  }

  lemma {:induction false} RunsAlike(g: Engine, h: Engine, acts: seq<Act>, others: seq<Act>)
    requires Inv(g) && Inv(h) && Alike(g, h) && SameShape(acts, others) && Legal(g, acts)
    ensures Legal(h, others) && (NoLateByte(h, others) <==> NoLateByte(g, acts))
    decreases |acts|
  {
    if acts != [] {
      assert SameShapeAct(acts[0], others[0]);
      StepAlike(g, h, acts[0], others[0]);
      RunsAlike(Step(g, acts[0]), Step(h, others[0]), acts[1..], others[1..]);
    }
  }

  // ----- contents that give a late byte away

  /** Buffer `k` of a run: its bytes say whether it comes before buffer `n`. */
  function Mark(len: nat, k: nat, n: int): (buf: seq<byte>)
    ensures |buf| == len
  {
    seq(len, _ => if k < n then 0 else 1)
  }

  function MarkAct(a: Act, k: nat, n: int): (b: Act)
    ensures SameShapeAct(a, b)
  {
    if a.Publish? then Publish(Mark(|a.buf|, k, n)) else a
  }

  /** The run with marked buffers, where the next one is buffer `k`. */
  function MarkActs(acts: seq<Act>, k: nat, n: int): (others: seq<Act>)
    ensures SameShape(acts, others)
  {
    if acts == [] then []
    else [MarkAct(acts[0], k, n)] + MarkActs(acts[1..], if acts[0].Publish? then k + 1 else k, n)
  }

  predicate Marked(g: Engine, n: int) {
    forall i :: 0 <= i < |g.sends| ==> g.sends[i] == Mark(|g.sends[i]|, i, n)
  }

  predicate Zeros(f: seq<byte>) {
    forall j :: 0 <= j < |f| ==> f[j] == 0
  }

  lemma {:induction false} StreamOfZeros(q: seq<seq<byte>>, i: nat)
    requires forall f <- q :: Zeros(f)
    requires i < |Stream(q, 0)|
    ensures Stream(q, 0)[i] == 0
    decreases |q|
  {
    if i >= |q[0]| {
      StreamOfZeros(q[1..], i - |q[0]|);
    } else {
      assert Zeros(q[0]);
    }
  }

  /** A byte on the wire is not the one handed over for its place. */
  predicate WrongAt(g: Engine, i: nat) {
    i < |DataOf(g.s.wire)| && i < |Stream(g.sends, 0)| && DataOf(g.s.wire)[i] != Stream(g.sends, 0)[i]
  }

  lemma WrongStays(g: Engine, a: Act, i: nat)
    requires Inv(g) && Enabled(g, a) && WrongAt(g, i)
    ensures WrongAt(Step(g, a), i)
  {
    WireGrows(g, a);
    if a.Publish? {
      StreamSnoc(g.sends, 0, a.buf);
    }
  }

  lemma {:induction false} WrongRun(g: Engine, acts: seq<Act>, i: nat)
    requires Inv(g) && Legal(g, acts) && WrongAt(g, i)
    ensures WrongAt(Exec(g, acts), i)
    decreases |acts|
  {
    if acts != [] {
      WrongStays(g, acts[0], i);
      WrongRun(Step(g, acts[0]), acts[1..], i);
    }
  }

  /** The first late byte belongs to a buffer of which nothing was written before. */
  predicate NoneLate(g: Engine) {
    g.lost > 0 ==> g.s.sendOffset == 0
  }

  lemma NoneLateKept(g: Engine, a: Act)
    requires Inv(g) && Enabled(g, a) && NoneLate(g) && !LateByte(g, a)
    ensures NoneLate(Step(g, a))
  {
    WireGrows(g, a);
    WireLength(g);
    WireLength(Step(g, a));
  }

  /** The place that the first late byte takes was due to an earlier buffer. */
  lemma DueToEarlier(g: Engine, n: int)
    requires Inv(g) && g.lost > 0 && g.s.sendOffset == 0 && Marked(g, n) && |g.sends| == n + 1
    ensures var at := |DataOf(g.s.wire)|; at < |Stream(g.sends, 0)| && Stream(g.sends, 0)[at] == 0
  {
    WireLength(g);
    var at := |DataOf(g.s.wire)|;
    StreamSnoc(Earlier(g), 0, g.cur);
    assert Earlier(g) + [g.cur] == g.sends;
    forall f <- Earlier(g) ensures Zeros(f) {
      var i :| 0 <= i < n && Earlier(g)[i] == f;
      assert g.sends[i] == Mark(|f|, i, n);
    }
    StreamOfZeros(Earlier(g), at);
  }

  /** Only a request or a callback writes, and it leaves the buffers as they are. */
  lemma LateIsNoPublication(g: Engine, a: Act)
    requires Inv(g) && Enabled(g, a) && LateByte(g, a)
    ensures a.Request? || a.Callback?
    ensures var h := Step(g, a); h.sends == g.sends && h.cur == g.cur && h.base == g.base
  {
  }

  lemma LateBytes(g: Engine, a: Act)
    requires Inv(g) && Enabled(g, a) && LateByte(g, a) && g.s.sendOffset == 0
    ensures var h := Step(g, a);
      0 < h.s.sendOffset <= |g.cur| && DataOf(h.s.wire) == DataOf(g.s.wire) + g.cur[..h.s.sendOffset]
  {
    LateIsNoPublication(g, a);
    WireLength(g);
    WireLength(Step(g, a));
    WireBetween(g.s, Step(g, a).s, g.base, g.cur);
  }

  lemma LateByteShows(g: Engine, a: Act, n: int)
    requires Inv(g) && Enabled(g, a) && NoneLate(g) && LateByte(g, a) && Marked(g, n) && |g.sends| == n + 1
    ensures WrongAt(Step(g, a), |DataOf(g.s.wire)|)
  {
    DueToEarlier(g, n);
    LateIsNoPublication(g, a);
    LateBytes(g, a);
    assert g.cur == g.sends[n] == Mark(|g.cur|, n, n);
  }

  /** The buffer that the first late byte of the run belongs to. */
  function LateBuffer(g: Engine, acts: seq<Act>): int
    requires Inv(g) && Legal(g, acts) && !NoLateByte(g, acts)
    decreases |acts|
  {
    if LateByte(g, acts[0]) then |g.sends| - 1 else LateBuffer(Step(g, acts[0]), acts[1..])
  }

  lemma MarkedKept(g: Engine, a: Act, n: int)
    requires Inv(g) && Enabled(g, a) && Marked(g, n) && a == MarkAct(a, |g.sends|, n)
    ensures Marked(Step(g, a), n)
  {
  }

  lemma MarkActsHead(acts: seq<Act>, k: nat, n: int)
    requires acts != []
    ensures var others := MarkActs(acts, k, n);
      others[0] == MarkAct(acts[0], k, n) == MarkAct(others[0], k, n) &&
      others[1..] == MarkActs(acts[1..], if acts[0].Publish? then k + 1 else k, n)
  {
  }

  lemma SendsGrow(g: Engine, a: Act)
    requires Inv(g) && Enabled(g, a)
    ensures |Step(g, a).sends| == |g.sends| + (if a.Publish? then 1 else 0)
  {
  }

  lemma {:induction false} LateRunShows(g: Engine, h: Engine, acts: seq<Act>, n: int) returns (i: nat)
    requires Inv(g) && Legal(g, acts) && !NoLateByte(g, acts) && n == LateBuffer(g, acts)
    requires Inv(h) && Alike(g, h) && Marked(h, n) && NoneLate(h)
    ensures Legal(h, MarkActs(acts, |h.sends|, n)) && WrongAt(Exec(h, MarkActs(acts, |h.sends|, n)), i)
    decreases |acts|
  {
    var others := MarkActs(acts, |h.sends|, n);
    RunsAlike(g, h, acts, others);
    MarkActsHead(acts, |h.sends|, n);
    StepAlike(g, h, acts[0], others[0]);
    if LateByte(g, acts[0]) {
      LateByteShows(h, others[0], n);
      i := |DataOf(h.s.wire)|;
      WrongRun(Step(h, others[0]), others[1..], i);
    } else {
      NoneLateKept(h, others[0]);
      MarkedKept(h, others[0], n);
      SendsGrow(h, others[0]);
      i := LateRunShows(Step(g, acts[0]), Step(h, others[0]), acts[1..], n);
    }
  }

  /** In a run what is on the wire is a prefix of all the buffers handed over, whatever their
      bytes are, if and only if no byte is written once a buffer was published over bytes that
      were still unsent. */
  lemma PrefixExactlyWhen(interval: int, now: int, acts: seq<Act>)
    requires Legal(Start(interval, now), acts)
    ensures NoLateByte(Start(interval, now), acts) <==>
      forall others | SameShape(acts, others) ::
        Legal(Start(interval, now), others) && Prefix(Exec(Start(interval, now), others))
  {
    var g := Start(interval, now);
    if NoLateByte(g, acts) {
      forall others | SameShape(acts, others) ensures Legal(g, others) && Prefix(Exec(g, others)) {
        RunsAlike(g, g, acts, others);
        RunKeepsPrefix(g, others);
      }
    } else {
      var n := LateBuffer(g, acts);
      var i := LateRunShows(g, g, acts, n);
      assert SameShape(acts, MarkActs(acts, 0, n));
    }
  }
}
