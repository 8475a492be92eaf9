/** The receiving end of a session as a transition system: calls of usbws_recv, the frames
    and the endings that come between its critical sections (src/usbws_session.c:408-456). */
module Receiver {
  import opened ByteStream
  import opened SessionState

  /** A call of usbws_recv under way, with what it has copied so far; `inside` from the test of
      its loop, which has found the session lasting, to the end of its critical section. */
  datatype Call = NoCall | Reading(len: nat, all: bool, out: seq<byte>, inside: bool)

  /** `linked` until the close unlinks the queue; `arrived` is all that was ever queued,
      `taken` what came off the queue, and `delivered` what calls returned. */
  datatype Reader = Reader(
    cont: bool, linked: bool, queue: seq<seq<byte>>, off: nat, call: Call,
    arrived: seq<byte>, taken: seq<byte>, delivered: seq<byte>)

  datatype Move =
    | Arrive(payload: seq<byte>)
    | Begin(len: nat, all: bool)
    /** The test of the loop finds the session lasting. */
    | Enter
    /** A locked traversal, and the tests after it. */
    | Take(copy: Copy)
    /** The session has ended under a call, which fails from its wait, or leaves its loop. */
    | Quit(fail: bool)
    | Stop
    | Unlink

  function Out(r: Reader): seq<byte> {
    if r.call.Reading? then r.call.out else []
  }

  predicate CanMove(r: Reader, m: Move) {
    match m
    case Arrive(_) => r.linked
    case Begin(_, _) => r.call.NoCall?
    case Enter => r.call.Reading? && !r.call.inside && r.cont
    case Take(_) => r.call.Reading? && r.call.inside && r.cont && r.queue != []
    case Quit(fail) => r.call.Reading? && !r.cont && r.call.inside == fail
    case Stop => true
    case Unlink => r.linked
  }

  function Traversed(r: Reader, copy: Copy): Drained<byte>
    requires Base(r) && r.call.Reading?
  {
    Drain(copy, r.queue, r.off, r.call.len, r.call.out)
  }

  /** The request is met: all of it, or with `!all` some of it. */
  predicate Meets(out: seq<byte>, len: nat, all: bool) {
    (!all && |out| > 0) || |out| >= len
  }

  function CallAfter(out: seq<byte>, len: nat, all: bool): Call {
    if Meets(out, len, all) then NoCall else Reading(len, all, out, false)
  }

  function TakeFrames(r: Reader, copy: Copy): Reader
    requires Base(r) && r.call.Reading?
  {
    var c, d := r.call, Traversed(r, copy);
    r.(queue := d.queue, off := d.off, taken := r.taken + d.took,
       call := CallAfter(d.out, c.len, c.all),
       delivered := if Meets(d.out, c.len, c.all) then r.delivered + d.out else r.delivered)
  }

  function Do(r: Reader, m: Move): Reader
    requires Base(r) && CanMove(r, m)
  {
    match m
    case Arrive(payload) => r.(queue := r.queue + [payload], arrived := r.arrived + payload)
    case Begin(len, all) => r.(call := Reading(len, all, [], false))
    case Enter => r.(call := r.call.(inside := true))
    case Take(copy) => TakeFrames(r, copy)
    case Quit(fail) => r.(call := NoCall, delivered := if fail then r.delivered else r.delivered + Out(r))
    case Stop => r.(cont := false)
    case Unlink => r.(linked := false, queue := [])
  }

  // ----- what every step keeps

  /** What arrived is what was taken and what is still queued; and a call goes on only while
      its request is unmet. */
  predicate Base(r: Reader) {
    (if r.linked then Aligned(r.queue, r.off) && r.arrived == r.taken + Stream(r.queue, r.off)
     else r.queue == [] && r.taken <= r.arrived) &&
    (r.call.Reading? ==> |r.call.out| < r.call.len || r.call.out == [])
  }

  lemma ArrivalKeepsBase(r: Reader, payload: seq<byte>)
    requires Base(r) && r.linked
    ensures Base(Do(r, Arrive(payload)))
  {
    StreamSnoc(r.queue, r.off, payload);
  }

  lemma TakeKeepsBase(r: Reader, copy: Copy)
    requires Base(r) && CanMove(r, Take(copy))
    ensures Base(Do(r, Take(copy)))
  {
    DrainTakes(copy, r.queue, r.off, r.call.len, r.call.out);
  }

  lemma MoveKeepsBase(r: Reader, m: Move)
    requires Base(r) && CanMove(r, m)
    ensures Base(Do(r, m))
  {
    match m
    case Arrive(payload) => ArrivalKeepsBase(r, payload);
    case Take(copy) => TakeKeepsBase(r, copy);
    case Begin(_, _) =>
    case Enter =>
    case Quit(_) =>
    case Stop =>
    case Unlink =>
  }

  function Advance(r: Reader, m: Move): (s: Reader)
    requires Base(r) && CanMove(r, m)
    ensures Base(s)
  {
    MoveKeepsBase(r, m);
    Do(r, m)
  }

  predicate CanRun(r: Reader, moves: seq<Move>)
    requires Base(r)
    decreases |moves|
  {
    moves == [] || (CanMove(r, moves[0]) && CanRun(Advance(r, moves[0]), moves[1..]))
  }

  function After(r: Reader, moves: seq<Move>): (s: Reader)
    requires Base(r) && CanRun(r, moves)
    ensures Base(s)
    decreases |moves|
  {
    if moves == [] then r else After(Advance(r, moves[0]), moves[1..])
  }

  /** An established session before its first call. */
  function Fresh(): (r: Reader)
    ensures Base(r) && Handed(r)
  {
    Reader(true, true, [], 0, NoCall, [], [], [])
  }

  // ----- what right copies deliver

  /** The step copies what it takes: its copy is the meant one, or the source's own where the
      frames in the queue allow it. */
  predicate Right(r: Reader, m: Move)
    requires CanMove(r, m)
  {
    m.Take? && m.copy.Literal? ==> CopyOk(Shape(r.queue), r.off, r.call.len, |r.call.out|)
  }

  /** What calls returned came off the front of the queue, and while the session lasts
      nothing else did but what the call under way holds. */
  predicate Handed(r: Reader) {
    r.delivered <= r.taken &&
    (Out(r) == [] || r.taken == r.delivered + Out(r)) &&
    (r.cont ==> r.taken == r.delivered + Out(r))
  }

  lemma MoveKeepsHanded(r: Reader, m: Move)
    requires Base(r) && Handed(r) && CanMove(r, m) && Right(r, m)
    ensures Handed(Do(r, m)) && WithinBuffer(r, m)
  {
    if m.Take? {
      var c := r.call;
      DrainDelivers(m.copy, r.queue, r.off, c.len, c.out);
      var d := Traversed(r, m.copy);
      assert r.taken + d.took == r.delivered + d.out;
    }
  }

  predicate CopiesRight(r: Reader, moves: seq<Move>)
    requires Base(r) && CanRun(r, moves)
    decreases |moves|
  {
    moves == [] || (Right(r, moves[0]) && CopiesRight(Advance(r, moves[0]), moves[1..]))
  }

  /** The step writes nothing beyond the caller's buffer. */
  predicate WithinBuffer(r: Reader, m: Move)
    requires Base(r) && CanMove(r, m)
  {
    m.Take? ==> |Traversed(r, m.copy).out| <= r.call.len
  }

  /** At every moment of the run the bytes returned and those in the caller's buffer are the
      first bytes that arrived, and the buffer is never overrun. */
  predicate Faithful(r: Reader, moves: seq<Move>)
    requires Base(r) && CanRun(r, moves)
    decreases |moves|
  {
    r.delivered + Out(r) <= r.arrived &&
    (moves != [] ==> WithinBuffer(r, moves[0]) && Faithful(Advance(r, moves[0]), moves[1..]))
  }

  lemma HandedIsPrefix(r: Reader)
    requires Base(r) && Handed(r)
    ensures r.delivered + Out(r) <= r.taken <= r.arrived
  {
  }

  lemma {:induction false} RightRunKeepsHanded(r: Reader, moves: seq<Move>)
    requires Base(r) && Handed(r) && CanRun(r, moves) && CopiesRight(r, moves)
    ensures Handed(After(r, moves)) && Faithful(r, moves)
    decreases |moves|
  {
    HandedIsPrefix(r);
    if moves != [] {
      MoveKeepsHanded(r, moves[0]);
      RightRunKeepsHanded(Advance(r, moves[0]), moves[1..]);
    }
  }

  // ----- the same run over other contents

  predicate SameShapeMove(m: Move, n: Move) {
    if m.Arrive? then n.Arrive? && |n.payload| == |m.payload| else n == m
  }

  predicate SameShape(moves: seq<Move>, others: seq<Move>) {
    |moves| == |others| && forall i :: 0 <= i < |moves| ==> SameShapeMove(moves[i], others[i])
  }

  predicate Alike(r: Reader, s: Reader) {
    s.cont == r.cont && s.linked == r.linked && s.off == r.off && Shape(s.queue) == Shape(r.queue) &&
    (if r.call.Reading? then s.call.Reading? && s.call == r.call.(out := s.call.out) && |Out(s)| == |Out(r)|
     else s.call.NoCall?)
  }

  lemma FramesAlike(
    copy: Copy, q: seq<seq<byte>>, p: seq<seq<byte>>, off: nat, len: nat, out: seq<byte>, held: seq<byte>)
    requires Shape(p) == Shape(q) && |held| == |out| <= len && q != []
    ensures p != [] && |p[0]| == |q[0]|
    ensures var d, e := TakeFrame(copy, q, off, len, out), TakeFrame(copy, p, off, len, held);
      Shape(e.queue) == Shape(d.queue) && e.off == d.off && |e.out| == |d.out|
  {
    assert |Shape(p)| == |Shape(q)| && Shape(p)[0] == Shape(q)[0];
    ShapeTail(q);
    ShapeTail(p);
  }

  lemma {:induction false} DrainsAlike(
    copy: Copy, q: seq<seq<byte>>, p: seq<seq<byte>>, off: nat, len: nat, out: seq<byte>, held: seq<byte>)
    requires Shape(p) == Shape(q) && |held| == |out| <= len
    ensures var d, e := Drain(copy, q, off, len, out), Drain(copy, p, off, len, held);
      Shape(e.queue) == Shape(d.queue) && e.off == d.off && |e.out| == |d.out|
    decreases |q|
  {
    assert |Shape(p)| == |Shape(q)|;
    if q != [] {
      FramesAlike(copy, q, p, off, len, out, held);
      var d, e := TakeFrame(copy, q, off, len, out), TakeFrame(copy, p, off, len, held);
      if off >= |q[0]| || |d.out| < len {
        DrainsAlike(copy, d.queue, e.queue, d.off, len, d.out, e.out);
      }
    }
  }

  lemma ShapeSnoc(q: seq<seq<byte>>, f: seq<byte>)
    ensures Shape(q + [f]) == Shape(q) + [|f|]
  {
  }

  lemma MovesAlike(r: Reader, s: Reader, m: Move, n: Move)
    requires Base(r) && Base(s) && Alike(r, s) && SameShapeMove(m, n) && CanMove(r, m)
    ensures CanMove(s, n) && Alike(Do(r, m), Do(s, n)) && (Right(s, n) <==> Right(r, m))
  {
    assert |Shape(s.queue)| == |Shape(r.queue)|;
    if m.Arrive? {
      ShapeSnoc(r.queue, m.payload);
      ShapeSnoc(s.queue, n.payload);
    }
    if m.Take? {
      DrainsAlike(m.copy, r.queue, s.queue, r.off, r.call.len, Out(r), Out(s));
    }
  }

  lemma {:induction false} RunsAlike(r: Reader, s: Reader, moves: seq<Move>, others: seq<Move>)
    requires Base(r) && Base(s) && Alike(r, s) && SameShape(moves, others) && CanRun(r, moves)
    ensures CanRun(s, others) && (CopiesRight(s, others) <==> CopiesRight(r, moves))
    decreases |moves|
  {
    if moves != [] {
      assert SameShapeMove(moves[0], others[0]);
      MovesAlike(r, s, moves[0], others[0]);
      RunsAlike(Advance(r, moves[0]), Advance(s, others[0]), moves[1..], others[1..]);
    }
  }

  // ----- contents that give a wrong copy away

  /** A payload with one value before `c` and another from there on. */
  function Mark(n: nat, c: nat): (f: seq<byte>)
    ensures |f| == n
  {
    seq(n, j => if j < c then 0 else 1)
  }

  function MarkMove(m: Move, c: nat): Move {
    if m.Arrive? then Arrive(Mark(|m.payload|, c)) else m
  }

  function MarkMoves(moves: seq<Move>, c: nat): (others: seq<Move>)
    ensures SameShape(moves, others)
  {
    seq(|moves|, i requires 0 <= i < |moves| => MarkMove(moves[i], c))
  }

  predicate AllMarked(q: seq<seq<byte>>, c: nat) {
    forall f <- q :: f == Mark(|f|, c)
  }

  lemma {:induction false} DrainLeavesFrames(copy: Copy, q: seq<seq<byte>>, off: nat, len: nat, out: seq<byte>)
    requires |out| <= len
    ensures forall f <- Drain(copy, q, off, len, out).queue :: f in q
    decreases |q|
  {
    if q != [] {
      var d := TakeFrame(copy, q, off, len, out);
      if off >= |q[0]| || |d.out| < len {
        DrainLeavesFrames(copy, d.queue, d.off, len, d.out);
      }
    }
  }

  lemma MoveKeepsMarks(r: Reader, m: Move, c: nat)
    requires Base(r) && CanMove(r, m) && AllMarked(r.queue, c) && m == MarkMove(m, c)
    ensures AllMarked(Do(r, m).queue, c)
  {
    if m.Take? {
      DrainLeavesFrames(m.copy, r.queue, r.off, r.call.len, r.call.out);
    }
  }

  /** The offset at the first traversal whose copy is not right. */
  function FirstWrong(r: Reader, moves: seq<Move>): nat
    requires Base(r) && CanRun(r, moves) && !CopiesRight(r, moves)
    decreases |moves|
  {
    if !Right(r, moves[0]) then r.off else FirstWrong(Advance(r, moves[0]), moves[1..])
  }

  /** With marked contents a wrong copy overruns the caller's buffer or puts a byte there
      that does not belong. */
  lemma WrongCopyShows(r: Reader, m: Move)
    requires Base(r) && Handed(r) && CanMove(r, m) && !Right(r, m) && AllMarked(r.queue, r.off)
    ensures WithinBuffer(r, m) ==> !(Do(r, m).delivered + Out(Do(r, m)) <= r.arrived)
  {
    var c, d, at := r.call, Traversed(r, m.copy), |r.taken|;
    if r.off == 0 {
      LiteralOverrunsExactlyWhen(r.queue, 0, c.len, c.out);
    } else {
      FirstByte(Literal, r.queue, r.off, c.len, c.out);
      assert r.queue[0] in r.queue;
      assert d.out[|c.out|] == 0 && r.arrived[at] == r.queue[0][r.off] == 1;
      DrainFills(m.copy, r.queue, r.off, c.len, c.out);
      assert Do(r, m).delivered + Out(Do(r, m)) == r.delivered + d.out;
      assert (r.delivered + d.out)[at] == 0;
    }
  }

  lemma {:induction false} WrongRunShows(r: Reader, s: Reader, moves: seq<Move>, c: nat)
    requires Base(r) && CanRun(r, moves) && !CopiesRight(r, moves) && c == FirstWrong(r, moves)
    requires Base(s) && Handed(s) && Alike(r, s) && AllMarked(s.queue, c)
    ensures CanRun(s, MarkMoves(moves, c)) && !Faithful(s, MarkMoves(moves, c))
    decreases |moves|
  {
    var others := MarkMoves(moves, c);
    RunsAlike(r, s, moves, others);
    var m, n := moves[0], others[0];
    assert n == MarkMove(m, c) == MarkMove(n, c);
    MovesAlike(r, s, m, n);
    assert others[1..] == MarkMoves(moves[1..], c);
    if Right(r, m) {
      MoveKeepsHanded(s, n);
      MoveKeepsMarks(s, n, c);
      WrongRunShows(Advance(r, m), Advance(s, n), moves[1..], c);
    } else {
      WrongCopyShows(s, n);
      assert Advance(s, n).arrived == s.arrived;
    }
  }

  /** A run of calls is faithful whatever the bytes are, if and only if every traversal of it
      copies what it takes, which the frame lengths and the offsets alone decide. */
  lemma FaithfulExactlyWhen(moves: seq<Move>)
    requires CanRun(Fresh(), moves)
    ensures CopiesRight(Fresh(), moves) <==>
      forall others | SameShape(moves, others) :: CanRun(Fresh(), others) && Faithful(Fresh(), others)
  {
    if CopiesRight(Fresh(), moves) {
      forall others | SameShape(moves, others) ensures CanRun(Fresh(), others) && Faithful(Fresh(), others) {
        RunsAlike(Fresh(), Fresh(), moves, others);
        RightRunKeepsHanded(Fresh(), others);
      }
    } else {
      var c := FirstWrong(Fresh(), moves);
      WrongRunShows(Fresh(), Fresh(), moves, c);
      assert SameShape(moves, MarkMoves(moves, c));
    }
  }

  // ----- when a call ends, and with what

  /** After a traversal the call goes on if and only if its buffer is short of what was asked
      for, and all of it was, or nothing has come; otherwise it returns all it has copied. */
  lemma TakeGoesOn(r: Reader, copy: Copy)
    requires Base(r) && CanMove(r, Take(copy))
    ensures var s, out := Do(r, Take(copy)), Traversed(r, copy).out;
      && (s.call.Reading? <==> |out| < r.call.len && (r.call.all || out == []))
      && (s.call.Reading? ==> s.call == r.call.(out := out, inside := false) && s.delivered == r.delivered)
      && (s.call.NoCall? ==> s.delivered == r.delivered + out)
      && r.call.inside && r.cont && r.queue != []
  {
  }

  /** A call waits for frames only if the test of its loop found the session lasting, and after
      each traversal it makes that test anew. */
  lemma TestedBeforeWaiting(r: Reader, m: Move)
    requires Base(r) && CanMove(r, m)
    ensures var s := Do(r, m);
      s.call.Reading? && s.call.inside && !(r.call.Reading? && r.call.inside) ==> m == Enter && r.cont
    ensures m.Take? || m.Begin? ==> Do(r, m).call.Reading? ==> !Do(r, m).call.inside
  {
  }

  /** A call that the end of the session finds waiting fails, and delivers nothing; one that
      the end finds between two traversals returns all it has copied. */
  lemma QuitReturns(r: Reader, fail: bool)
    requires Base(r) && CanMove(r, Quit(fail))
    ensures var s := Do(r, Quit(fail));
      s.call.NoCall? && !r.cont && fail == r.call.inside && s.taken == r.taken &&
      s.delivered == (if r.call.inside then r.delivered else r.delivered + r.call.out)
  {
  }

  // ----- after the end

  /** Once the session has ended, no call returns bytes that it had not copied before; so a
      call that failed leaves a gap behind that nothing is delivered after. */
  lemma {:induction false} NothingAfterTheEnd(r: Reader, moves: seq<Move>)
    requires Base(r) && CanRun(r, moves) && !r.cont
    ensures var s := After(r, moves);
      !s.cont && s.taken == r.taken && r.delivered <= s.delivered && s.delivered + Out(s) <= r.delivered + Out(r)
    decreases |moves|
  {
    if moves != [] {
      NothingAfterTheEnd(Advance(r, moves[0]), moves[1..]);
    }
  }

  // ----- runs one after the other

  /** `moves` lead from `r` to `s`. */
  predicate Leads(r: Reader, moves: seq<Move>, s: Reader) {
    Base(r) && CanRun(r, moves) && After(r, moves) == s
  }

  lemma {:induction false} LeadsTwice(r: Reader, moves: seq<Move>, s: Reader, more: seq<Move>, t: Reader)
    requires Leads(r, moves, s) && Leads(s, more, t)
    ensures Leads(r, moves + more, t)
    ensures CopiesRight(r, moves + more) <==> CopiesRight(r, moves) && CopiesRight(s, more)
    decreases |moves|
  {
    if moves == [] {
      assert moves + more == more;
    } else {
      assert (moves + more)[1..] == moves[1..] + more;
      LeadsTwice(Advance(r, moves[0]), moves[1..], s, more, t);
    }
  }

  /** The meant copy is right in every run. */
  lemma {:induction false} MeantIsRight(r: Reader, moves: seq<Move>)
    requires Base(r) && CanRun(r, moves) && forall m <- moves :: m.Take? ==> m.copy.Meant?
    ensures CopiesRight(r, moves)
    decreases |moves|
  {
    if moves != [] {
      MeantIsRight(Advance(r, moves[0]), moves[1..]);
    }
  }

  // ----- what the session's events are to a reader

  /** The reader once `e` was handled, where `cont` says whether the session still lasts. */
  function Happened(r: Reader, e: Event, cont: bool): Reader {
    var t := if e.Receive? && e.binary then r.(queue := r.queue + [e.payload], arrived := r.arrived + e.payload)
             else if e.Closed? then r.(linked := false, queue := [])
             else r;
    t.(cont := cont)
  }

  function MovesOf(r: Reader, e: Event, cont: bool): seq<Move> {
    (if e.Receive? && e.binary then [Arrive(e.payload)] else if e.Closed? then [Unlink] else []) +
    (if r.cont && !cont then [Stop] else [])
  }

  /** Where a stretch of moves began, what it began with, the copy it takes by, and where the
      events that come between will have led. */
  datatype How = How(start: Reader, first: seq<Move>, copy: Copy, interval: int, end: Scene)

  /** What events act on: the session, whether its queue is linked, and what has arrived. */
  datatype Scene = Scene(s: State, linked: bool, arrived: seq<byte>)

  /** One event, unless the library cannot call it back any more. */
  function Play(p: Scene, interval: int, e: Event): (q: Scene)
    requires Consistent(p.s)
    ensures Consistent(q.s)
  {
    HandleKeepsConsistent(p.s, interval, e);
    if !p.linked && !e.SendRequest? && !e.Shutdown? then p
    else Scene(Handle(p.s, interval, e), p.linked && !e.Closed?,
               if e.Receive? && e.binary then p.arrived + e.payload else p.arrived)
  }

  function PlayBatch(p: Scene, interval: int, events: seq<Event>): (q: Scene)
    requires Consistent(p.s)
    ensures Consistent(q.s)
    decreases |events|
  {
    if events == [] then p else PlayBatch(Play(p, interval, events[0]), interval, events[1..])
  }

  /** All that is still to happen. */
  function PlayAll(p: Scene, interval: int, env: seq<seq<Event>>): (q: Scene)
    requires Consistent(p.s)
    ensures Consistent(q.s)
    decreases |env|
  {
    if env == [] then p else PlayAll(PlayBatch(p, interval, env[0]), interval, env[1..])
  }

  lemma PlayNext(p: Scene, interval: int, events: seq<Event>, i: nat)
    requires Consistent(p.s) && i < |events|
    ensures PlayBatch(p, interval, events[i..]) == PlayBatch(Play(p, interval, events[i]), interval, events[i + 1..])
  {
    assert events[i..][1..] == events[i + 1..];
  }

  /** The moves begin with the given ones; the rest begin no call and take by the copy. */
  predicate Follows(moves: seq<Move>, how: How) {
    how.first <= moves && Continues(moves[|how.first|..], how.copy)
  }

  predicate Continues(moves: seq<Move>, copy: Copy) {
    forall m <- moves :: !m.Begin? && (m.Take? ==> m.copy == copy)
  }

  lemma FollowsOn(moves: seq<Move>, more: seq<Move>, how: How)
    requires Follows(moves, how) && Continues(more, how.copy)
    ensures Follows(moves + more, how)
  {
    assert (moves + more)[|how.first|..] == moves[|how.first|..] + more;
  }

  lemma LeadsByOne(r: Reader, m: Move)
    requires Base(r) && CanMove(r, m)
    ensures Leads(r, [m], Advance(r, m))
  {
    assert CanRun(Advance(r, m), [m][1..]) && After(Advance(r, m), [m][1..]) == Advance(r, m);
  }

  /** A traversal that does not meet the request has emptied the queue; any has taken as many
      bytes as it copied; and a right one stays within the buffer. */
  lemma TakeStops(r: Reader, copy: Copy)
    requires Base(r) && r.call.Reading?
    ensures var s, out := TakeFrames(r, copy), Traversed(r, copy).out;
      && (s.call.Reading? ==> s.queue == [])
      && |s.taken| - |r.taken| == |out| - |r.call.out|
      && (CanMove(r, Take(copy)) && Right(r, Take(copy)) ==> |out| <= r.call.len)
  {
    DrainDelivers(copy, r.queue, r.off, r.call.len, r.call.out);
  }

  /** One more move of a stretch. */
  lemma OneMore(how: How, before: seq<Move>, r: Reader, m: Move) returns (moves: seq<Move>)
    requires Leads(how.start, before, r) && Follows(before, how) && CanMove(r, m) && Continues([m], how.copy)
    ensures Leads(how.start, moves, Do(r, m)) && Follows(moves, how) && moves == before + [m]
    ensures CopiesRight(how.start, moves) <==> CopiesRight(how.start, before) && Right(r, m)
  {
    LeadsByOne(r, m);
    LeadsTwice(how.start, before, r, [m], Do(r, m));
    assert CopiesRight(r, [m]) == Right(r, m) by {
      assert CopiesRight(Advance(r, m), [m][1..]);
    }
    FollowsOn(before, [m], how);
    moves := before + [m];
  }

  /** What one more event does. */
  lemma Happens(how: How, before: seq<Move>, r: Reader, e: Event, cont: bool) returns (moves: seq<Move>)
    requires Leads(how.start, before, r) && Follows(before, how)
    requires (e.Receive? || e.Closed? ==> r.linked) && (cont ==> r.cont)
    ensures Leads(how.start, moves, Happened(r, e, cont)) && Follows(moves, how)
  {
    HappensByMoves(r, e, cont);
    LeadsTwice(how.start, before, r, MovesOf(r, e, cont), Happened(r, e, cont));
    FollowsOn(before, MovesOf(r, e, cont), how);
    moves := before + MovesOf(r, e, cont);
  }

  lemma HappensByMoves(r: Reader, e: Event, cont: bool)
    requires Base(r) && (e.Receive? || e.Closed? ==> r.linked) && (cont ==> r.cont)
    ensures Leads(r, MovesOf(r, e, cont), Happened(r, e, cont))
    ensures forall m <- MovesOf(r, e, cont) :: !m.Begin? && !m.Take?
  {
    var first := MovesOf(r, e, r.cont);
    var s := Happened(r, e, r.cont);
    if first != [] {
      assert first == [first[0]];
      LeadsByOne(r, first[0]);
      assert Advance(r, first[0]) == s;
    }
    if r.cont && !cont {
      LeadsByOne(s, Stop);
      LeadsTwice(r, first, s, [Stop], s.(cont := false));
    }
  }
}
