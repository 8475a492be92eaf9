/** The steps that SendProtocol takes as one.  usbws_send stores its three fields one by
    one and unlocked (src/usbws_session.c:391-393), and usbws_handle_send_request looks at
    `send_buf` before it takes `writable_lock` (lines 183-186), so a critical section can
    fall in between.  The session lasts throughout, and sends no pings. */
module SendRace {
  import opened ByteStream
  import opened SessionState

  /** How far the send of the current buffer has come. */
  datatype Stage = AtRest | BufStored | LenStored | Ready

  /** A send that has returned: what it was given, what was on the wire before and after it,
      and its result. */
  datatype Done = Done(buf: seq<byte>, before: seq<byte>, after: seq<byte>, result: int)

  /** `passed` requests have seen a buffer and not yet entered their critical section.
      `base` was on the wire when the first field of the send of `cur` was stored.  `wild`
      once a write was told to copy from where no buffer is: nothing is said of what the
      program does from there on. */
  datatype Fine = Fine(
    s: State, stage: Stage, cur: seq<byte>, base: seq<byte>, passed: nat, wild: bool, done: seq<Done>)

  datatype Act =
    | StoreBuf(buf: seq<byte>)
    | StoreLen
    | StoreOffset
    /** A request, the sender's own or another's, looks at `send_buf`. */
    | Look
    | Enter(accept: nat)
    | Callback(accept: nat)
    | Return

  predicate Enabled(f: Fine, a: Act) {
    !f.wild &&
    match a
    case StoreBuf(_) => f.stage == AtRest
    case StoreLen => f.stage == BufStored
    case StoreOffset => f.stage == LenStored
    case Look => f.s.sendBuf.Some?
    case Enter(_) => f.passed > 0
    case Callback(_) => f.s.requested
    case Return => f.stage == Ready && f.s.sendBuf.None?
  }

  /** The step calls __send_data. */
  predicate Writes(f: Fine, a: Act) {
    (a.Enter? && f.s.writable) || (a.Callback? && f.s.sendBuf.Some?)
  }

  /** How many bytes __send_data finds left. */
  function Count(f: Fine): int {
    f.s.sendLen - f.s.sendOffset
  }

  /** What it copies lies within the buffer. */
  predicate InBuffer(s: State, count: int) {
    count == 0 ||
    (count > 0 && s.sendBuf.Some? && 0 <= s.sendOffset && s.sendOffset + Min(count, SEND_CONTENT) <= |s.sendBuf.value|)
  }

  /** __send_data, whatever the fields are. */
  function Write(f: Fine, accept: nat): Fine {
    var s := f.s;
    if !InBuffer(s, Count(f)) then f.(wild := true)
    else
      var sent := Min(accept, Min(Count(f), SEND_CONTENT));
      var chunk := if sent == 0 then [] else s.sendBuf.value[s.sendOffset..s.sendOffset + sent];
      var gone := s.sendOffset + sent >= s.sendLen;
      f.(s := s.(sendOffset := s.sendOffset + sent,
                 sendBuf := if gone then None else s.sendBuf,
                 sendLen := if gone then 0 else s.sendLen,
                 writable := false, requested := true, wire := s.wire + [Data(chunk)]))
  }

  function Next(f: Fine, a: Act): Fine
    requires Enabled(f, a)
  {
    match a
    case StoreBuf(buf) => f.(s := f.s.(sendBuf := Some(buf)), stage := BufStored, cur := buf, base := DataOf(f.s.wire))
    case StoreLen => f.(s := f.s.(sendLen := |f.cur|), stage := LenStored)
    case StoreOffset => f.(s := f.s.(sendOffset := 0), stage := Ready)
    case Look => f.(passed := f.passed + 1)
    case Enter(accept) =>
      var g := f.(passed := f.passed - 1);
      if f.s.writable then Write(g, accept) else g
    case Callback(accept) =>
      var g := f.(s := f.s.(requested := false, writable := true));
      if f.s.sendBuf.Some? then Write(g, accept) else g
    case Return =>
      f.(stage := AtRest, done := f.done + [Done(f.cur, f.base, DataOf(f.s.wire), f.s.sendOffset)])
  }

  /** As established, with nothing handed over yet. */
  function Fresh(now: int): Fine {
    Fine(Established(now), AtRest, [], [], 0, false, [])
  }

  predicate Legal(f: Fine, acts: seq<Act>)
    decreases |acts|
  {
    acts == [] || (Enabled(f, acts[0]) && Legal(Next(f, acts[0]), acts[1..]))
  }

  function Exec(f: Fine, acts: seq<Act>): Fine
    requires Legal(f, acts)
    decreases |acts|
  {
    if acts == [] then f else Exec(Next(f, acts[0]), acts[1..])
  }

  /** The send put its buffer on the wire, once, and returned its length. */
  predicate Exact(d: Done) {
    d.result == |d.buf| && d.after == d.before + d.buf
  }

  /** Nothing has gone wrong so far. */
  predicate Sound(f: Fine) {
    !f.wild && forall d <- f.done :: Exact(d)
  }

  /** A write that does harm: it finds a negative count, left behind by the last send; or it
      falls between the stores of a buffer that is not empty, and finds nothing left to send
      or has bytes taken. */
  predicate Harms(f: Fine, a: Act) {
    Writes(f, a) &&
    (Count(f) < 0 || (f.stage in {BufStored, LenStored} && f.cur != [] && (Count(f) == 0 || a.accept > 0)))
  }

  predicate Unharmed(f: Fine, acts: seq<Act>)
    requires Legal(f, acts)
    decreases |acts|
  {
    acts == [] || (!Harms(f, acts[0]) && Unharmed(Next(f, acts[0]), acts[1..]))
  }

  // ----- without harm

  predicate Clean(f: Fine) {
    !f.wild && 0 <= f.s.sendOffset && (f.s.sendBuf.None? ==> f.s.sendLen == 0) &&
    match f.stage
    case AtRest => f.s.sendBuf.None? && f.s.sendOffset == |f.cur| && DataOf(f.s.wire) == f.base + f.cur
    case BufStored => f.s.sendLen == 0 && DataOf(f.s.wire) == f.base && Whole(f)
    case LenStored => f.s.sendLen == |f.cur| && DataOf(f.s.wire) == f.base && Whole(f)
    case Ready => Consistent(f.s) && Sending(f.s, f.base, f.cur)
  }

  /** The buffer is there, or had no bytes. */
  predicate Whole(f: Fine) {
    f.s.sendBuf == Some(f.cur) || (f.s.sendBuf.None? && f.cur == [])
  }

  /** Where the fields fit together, this is the write of module SessionState. */
  lemma WriteIsSendData(f: Fine, accept: nat)
    requires f.s.sendBuf.Some? && Consistent(f.s)
    ensures Write(f, accept) == f.(s := SendData(f.s, Min(accept, ChunkLen(f.s))))
  {
    var buf, off, n := f.s.sendBuf.value, f.s.sendOffset, ChunkLen(f.s);
    assert buf[off..off + n][..Min(accept, n)] == buf[off..off + Min(accept, n)];
  }

  lemma ReadyWriteClean(f: Fine, accept: nat)
    requires Clean(f) && f.stage == Ready && f.s.sendBuf.Some?
    ensures Clean(f.(s := SendData(f.s, Min(accept, ChunkLen(f.s)))))
  {
    WriteExactlyWhenAccepted(f.s, f.base, f.cur, Min(accept, ChunkLen(f.s)));
  }

  lemma EmptyWriteClean(f: Fine, accept: nat)
    requires Clean(f) && Count(f) >= 0 && f.s.sendBuf.None?
    ensures Clean(Write(f, accept))
  {
    WireSnoc(f.s.wire, Data([]));
  }

  lemma WriteClean(f: Fine, accept: nat)
    requires Clean(f) && Count(f) >= 0
    requires f.stage in {BufStored, LenStored} && f.cur != [] ==> Count(f) > 0 && accept == 0
    ensures Clean(Write(f, accept))
  {
    if f.s.sendBuf.None? {
      EmptyWriteClean(f, accept);
    } else if f.stage == Ready {
      WriteIsSendData(f, accept);
      ReadyWriteClean(f, accept);
    } else {
      WireSnoc(f.s.wire, Data([]));
    }
  }

  lemma StoreClean(f: Fine, a: Act)
    requires Clean(f) && Enabled(f, a) && (a.StoreBuf? || a.StoreLen? || a.StoreOffset?)
    ensures Clean(Next(f, a))
  {
  }

  lemma ReturnClean(f: Fine)
    requires Clean(f) && Enabled(f, Return)
    ensures Clean(Next(f, Return)) && Exact(Done(f.cur, f.base, DataOf(f.s.wire), f.s.sendOffset))
  {
    assert f.cur[..|f.cur|] == f.cur;
  }

  lemma RequestClean(f: Fine, accept: nat)
    requires Clean(f) && Enabled(f, Enter(accept)) && !Harms(f, Enter(accept))
    ensures Clean(Next(f, Enter(accept))) && Next(f, Enter(accept)).done == f.done
  {
    var g := f.(passed := f.passed - 1);
    assert Clean(g);
    if f.s.writable {
      WriteClean(g, accept);
      assert Next(f, Enter(accept)) == Write(g, accept);
    }
  }

  lemma CallbackClean(f: Fine, accept: nat)
    requires Clean(f) && Enabled(f, Callback(accept)) && !Harms(f, Callback(accept))
    ensures Clean(Next(f, Callback(accept))) && Next(f, Callback(accept)).done == f.done
  {
    var g := f.(s := f.s.(requested := false, writable := true));
    assert Clean(g);
    if f.s.sendBuf.Some? {
      WriteClean(g, accept);
      assert Next(f, Callback(accept)) == Write(g, accept);
    }
  }

  lemma CleanKept(f: Fine, a: Act)
    requires Clean(f) && Sound(f) && Enabled(f, a) && !Harms(f, a)
    ensures Clean(Next(f, a)) && Sound(Next(f, a))
  {
    match a
    case Look =>
    case Enter(accept) => RequestClean(f, accept);
    case Callback(accept) => CallbackClean(f, accept);
    case Return => ReturnClean(f);
    case _ => StoreClean(f, a);
  }

  // ----- harm is never made good

  /** The send under way cannot become exact any more: its buffer is gone and 0 will be
      returned, or more is on the wire than the offset accounts for. */
  predicate Spoiled(f: Fine) {
    f.cur != [] &&
    match f.stage
    case AtRest => false
    case BufStored => f.s.sendBuf.None?
    case LenStored => f.s.sendBuf.None? || |DataOf(f.s.wire)| > |f.base|
    case Ready =>
      (f.s.sendBuf.None? && f.s.sendOffset == 0) || |DataOf(f.s.wire)| > |f.base| + f.s.sendOffset
  }

  lemma WriteGrows(f: Fine, accept: nat)
    ensures var g := Write(f, accept);
      g.wild || (|DataOf(g.s.wire)| - |DataOf(f.s.wire)| == g.s.sendOffset - f.s.sendOffset >= 0 &&
                 (f.s.sendBuf.None? ==> g.s.sendBuf.None? && g.s.sendOffset == f.s.sendOffset))
  {
    var g := Write(f, accept);
    if !g.wild {
      assert g.s.wire == f.s.wire + [g.s.wire[|f.s.wire|]];
      WireSnoc(f.s.wire, g.s.wire[|f.s.wire|]);
    }
  }

  lemma WriteSpoils(f: Fine, accept: nat)
    requires Clean(f)
    requires Count(f) < 0 || (f.stage in {BufStored, LenStored} && f.cur != [] && (Count(f) == 0 || accept > 0))
    ensures Write(f, accept).wild || Spoiled(Write(f, accept))
  {
    WriteGrows(f, accept);
  }

  lemma HarmSpoils(f: Fine, a: Act)
    requires Clean(f) && Enabled(f, a) && Harms(f, a)
    ensures !Sound(Next(f, a)) || Spoiled(Next(f, a))
  {
    if a.Enter? {
      WriteSpoils(f.(passed := f.passed - 1), a.accept);
    } else {
      WriteSpoils(f.(s := f.s.(requested := false, writable := true)), a.accept);
    }
  }

  lemma UnsoundStays(f: Fine, a: Act)
    requires Enabled(f, a) && !Sound(f)
    ensures !Sound(Next(f, a))
  {
    var d :| d in f.done && !Exact(d);
    assert f.done <= Next(f, a).done;
    assert d in Next(f, a).done;
  }

  lemma ReturnSpoiled(f: Fine)
    requires Enabled(f, Return) && Spoiled(f)
    ensures !Sound(Next(f, Return))
  {
    var d := Next(f, Return).done[|f.done|];
    assert d in Next(f, Return).done && !Exact(d);
  }

  lemma WriteSpoiled(f: Fine, accept: nat)
    requires Spoiled(f)
    ensures Write(f, accept).wild || Spoiled(Write(f, accept))
  {
    WriteGrows(f, accept);
  }

  lemma RequestSpoiled(f: Fine, accept: nat)
    requires Enabled(f, Enter(accept)) && Spoiled(f)
    ensures Next(f, Enter(accept)).wild || Spoiled(Next(f, Enter(accept)))
  {
    var g := f.(passed := f.passed - 1);
    assert Spoiled(g);
    if f.s.writable {
      WriteSpoiled(g, accept);
      assert Next(f, Enter(accept)) == Write(g, accept);
    }
  }

  lemma CallbackSpoiled(f: Fine, accept: nat)
    requires Enabled(f, Callback(accept)) && Spoiled(f)
    ensures Next(f, Callback(accept)).wild || Spoiled(Next(f, Callback(accept)))
  {
    var g := f.(s := f.s.(requested := false, writable := true));
    assert Spoiled(g);
    if f.s.sendBuf.Some? {
      WriteSpoiled(g, accept);
      assert Next(f, Callback(accept)) == Write(g, accept);
    }
  }

  lemma SpoiledKept(f: Fine, a: Act)
    requires Enabled(f, a) && Spoiled(f)
    ensures !Sound(Next(f, a)) || Spoiled(Next(f, a))
  {
    match a
    case Enter(accept) => RequestSpoiled(f, accept);
    case Callback(accept) => CallbackSpoiled(f, accept);
    case Return => ReturnSpoiled(f);
    case _ =>
  }

  lemma {:induction false} SpoiledRun(f: Fine, acts: seq<Act>)
    requires Legal(f, acts) && (!Sound(f) || Spoiled(f))
    ensures !Sound(Exec(f, acts)) || Spoiled(Exec(f, acts))
    decreases |acts|
  {
    if acts != [] {
      if Sound(f) {
        SpoiledKept(f, acts[0]);
      } else {
        UnsoundStays(f, acts[0]);
      }
      SpoiledRun(Next(f, acts[0]), acts[1..]);
    }
  }

  lemma {:induction false} RunSoundExactlyWhen(f: Fine, acts: seq<Act>)
    requires Clean(f) && Sound(f) && Legal(f, acts)
    ensures Unharmed(f, acts) ==> Clean(Exec(f, acts)) && Sound(Exec(f, acts))
    ensures !Unharmed(f, acts) ==> !Sound(Exec(f, acts)) || Spoiled(Exec(f, acts))
    decreases |acts|
  {
    if acts != [] {
      if Harms(f, acts[0]) {
        HarmSpoils(f, acts[0]);
        SpoiledRun(Next(f, acts[0]), acts[1..]);
      } else {
        CleanKept(f, acts[0]);
        RunSoundExactlyWhen(Next(f, acts[0]), acts[1..]);
      }
    }
  }

  /** In every run that has come to rest, or to a wild copy, each send put its buffer on the
      wire once and in order and returned its length, and no copy was wild, if and only if no
      critical section fell where it does harm. */
  lemma SendsExactExactlyWhen(now: int, acts: seq<Act>)
    requires Legal(Fresh(now), acts)
    requires var f := Exec(Fresh(now), acts); f.wild || f.stage == AtRest
    ensures Sound(Exec(Fresh(now), acts)) <==> Unharmed(Fresh(now), acts)
  {
    RunSoundExactlyWhen(Fresh(now), acts);
  }

  // ----- runs that reach the gaps

  lemma {:induction false} Snoc(f: Fine, acts: seq<Act>, a: Act) returns (longer: seq<Act>)
    requires Legal(f, acts) && Enabled(Exec(f, acts), a)
    ensures longer == acts + [a] && Legal(f, longer) && Exec(f, longer) == Next(Exec(f, acts), a)
    decreases |acts|
  {
    longer := acts + [a];
    if acts == [] {
      assert longer[1..] == [];
    } else {
      var rest := Snoc(Next(f, acts[0]), acts[1..], a);
      assert longer[1..] == rest;
    }
  }

  /** The first send of a session can return 0 with nothing of its buffer written: a callback
      between its first two stores finds nothing left to send. */
  lemma FirstSendReturnsZero(now: int, buf: seq<byte>, accept: nat) returns (acts: seq<Act>)
    requires buf != []
    ensures Legal(Fresh(now), acts)
    ensures var f := Exec(Fresh(now), acts); !f.wild && f.done == [Done(buf, [], [], 0)] && f.s.cont
  {
    var f := Fresh(now);
    acts := Snoc(f, [], StoreBuf(buf));
    acts := Snoc(f, acts, Callback(accept));
    WireSnoc([], Data([]));
    acts := Snoc(f, acts, StoreLen);
    acts := Snoc(f, acts, StoreOffset);
    acts := Snoc(f, acts, Return);
  }

  /** A first send of one chunk, written and returned, with a request that had seen its
      buffer still on the way to the lock. */
  lemma SentOnce(now: int, buf: seq<byte>) returns (acts: seq<Act>)
    requires 0 < |buf| <= SEND_CONTENT
    ensures Legal(Fresh(now), acts)
    ensures var f := Exec(Fresh(now), acts);
      !f.wild && f.stage == AtRest && f.cur == buf && f.s.sendBuf.None? && f.s.sendLen == 0 &&
      f.s.sendOffset == |buf| && f.s.requested && f.passed == 1
  {
    var f := Fresh(now);
    acts := Snoc(f, [], StoreBuf(buf));
    acts := Snoc(f, acts, StoreLen);
    acts := Snoc(f, acts, StoreOffset);
    acts := Snoc(f, acts, Look);
    acts := Snoc(f, acts, Callback(|buf|));
    acts := Snoc(f, acts, Return);
  }

  /** That request, once a callback has brought a new credit, is about to copy a negative
      number of bytes, and from no buffer. */
  lemma StaleRequest(now: int, buf: seq<byte>, accept: nat) returns (acts: seq<Act>)
    requires 0 < |buf| <= SEND_CONTENT
    ensures Legal(Fresh(now), acts)
    ensures var f := Exec(Fresh(now), acts);
      && Enabled(f, Enter(accept)) && f.stage == AtRest && f.s.writable && f.s.sendBuf.None? && Count(f) == -|buf|
      && Next(f, Enter(accept)).wild
  {
    acts := SentOnce(now, buf);
    acts := Snoc(Fresh(now), acts, Callback(0));
  }

  /** And a callback between the first two stores of the next send finds the new buffer, but
      the old offset, and a length of zero. */
  lemma TornPublication(now: int, buf: seq<byte>, next: seq<byte>, accept: nat) returns (acts: seq<Act>)
    requires 0 < |buf| <= SEND_CONTENT
    ensures Legal(Fresh(now), acts)
    ensures var f := Exec(Fresh(now), acts);
      && Enabled(f, Callback(accept)) && f.stage == BufStored && f.s.sendBuf == Some(next)
      && f.s.sendLen == 0 && f.s.sendOffset == |buf| && Next(f, Callback(accept)).wild
  {
    acts := SentOnce(now, buf);
    acts := Snoc(Fresh(now), acts, StoreBuf(next));
  }
}
