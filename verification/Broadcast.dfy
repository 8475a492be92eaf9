/** Any number of sessions on one protocol.  usbws_send asks every one of them to send
    (src/usbws_ctx.c:41-45, src/usbws_session.c:394), one after another, while their own
    threads and the service thread go on. */
module Broadcast {
  import opened SessionState
  import opened SendProtocol

  /** `cursors[i]` is the next session that the request of session i's sender visits.
      `logs[i]` is what happened to session i since it was as in `origins[i]`. */
  datatype World = World(
    sessions: seq<Engine>, cursors: seq<nat>, origins: seq<Engine>, logs: seq<seq<Act>>)

  datatype Move =
    /** A step of session i that is no request to send. */
    | Own(i: nat, a: Act)
    /** The request of session i's sender reaches the next session. */
    | Visit(i: nat, accept: nat)

  /** Each session is where a run of its own takes it, and its sender waits only for
      requests that have been made. */
  ghost predicate WorldInv(w: World) {
    |w.sessions| == |w.cursors| == |w.origins| == |w.logs| &&
    (forall i | 0 <= i < |w.sessions| :: Projects(w.origins[i], w.logs[i], w.sessions[i])) &&
    (forall i | 0 <= i < |w.sessions| :: CursorInv(w.sessions[i], i, w.cursors[i], |w.sessions|))
  }

  /** `n` sessions as they are established. */
  function Established(n: nat, interval: int, now: int): (w: World)
    ensures WorldInv(w) && |w.sessions| == n
  {
    var engines := seq(n, _ => Start(interval, now));
    var w := World(engines, seq(n, _ => 0), engines, seq(n, _ => []));
    assert Exec(Start(interval, now), []) == Start(interval, now);
    assert forall i | 0 <= i < n :: Projects(w.origins[i], w.logs[i], w.sessions[i]);
    w
  }

  ghost predicate Projects(origin: Engine, log: seq<Act>, now: Engine) {
    Inv(origin) && Legal(origin, log) && Exec(origin, log) == now && Inv(now)
  }

  predicate CursorInv(g: Engine, i: nat, cursor: nat, n: nat) {
    cursor <= n && (g.pc == Published ==> cursor <= i) && (g.pc == Waiting ==> cursor > i) &&
    (g.pc == Leaving ==> cursor == n)
  }

  predicate CanMove(w: World, m: Move)
    requires |w.sessions| == |w.cursors|
  {
    m.i < |w.sessions| &&
    match m
    case Own(i, a) =>
      Enabled(w.sessions[i], a) && !a.Request? && (a.Callback? ==> !a.e.SendRequest?) &&
      (a.ExitWait? ==> w.cursors[i] == |w.sessions|)
    case Visit(i, _) =>
      w.sessions[i].pc in {Published, Waiting} && w.cursors[i] < |w.sessions|
  }

  /** The session a move acts on, and the step it takes there. */
  function Target(w: World, m: Move): nat
    requires |w.sessions| == |w.cursors| && CanMove(w, m)
  {
    if m.Own? then m.i else w.cursors[m.i]
  }

  function Effect(w: World, m: Move): Act
    requires |w.sessions| == |w.cursors| && CanMove(w, m)
  {
    match m
    case Own(_, a) => a
    case Visit(i, accept) => if w.cursors[i] == i then Request(accept) else Callback(SendRequest(accept))
  }

  ghost function Moved(w: World, m: Move): World
    requires WorldInv(w) && CanMove(w, m)
  {
    var j, a := Target(w, m), Effect(w, m);
    assert Projects(w.origins[j], w.logs[j], w.sessions[j]);
    assert CursorInv(w.sessions[m.i], m.i, w.cursors[m.i], |w.sessions|);
    var cursor := if m.Visit? then w.cursors[m.i] + 1 else if a.Publish? then 0 else w.cursors[m.i];
    w.(sessions := w.sessions[j := Step(w.sessions[j], a)],
       cursors := w.cursors[m.i := cursor],
       logs := w.logs[j := w.logs[j] + [a]])
  }

  lemma StepProjects(origin: Engine, log: seq<Act>, g: Engine, a: Act)
    requires Projects(origin, log, g) && Enabled(g, a)
    ensures Projects(origin, log + [a], Step(g, a))
  {
    LegalSnoc(origin, log, a);
    ExecSnoc(origin, log, a);
  }

  function PcAfter(pc: Pc, a: Act): Pc {
    match a
    case Publish(_) => Published
    case Request(_) => Waiting
    case ExitWait => Leaving
    case Return => Idle
    case Callback(_) => pc
  }

  lemma StepMovesPc(g: Engine, a: Act)
    requires Inv(g) && Enabled(g, a)
    ensures Step(g, a).pc == PcAfter(g.pc, a)
  {
  }

  lemma MoveKeepsCursors(w: World, m: Move)
    requires WorldInv(w) && CanMove(w, m)
    ensures var v := Moved(w, m);
      forall k | 0 <= k < |v.sessions| :: CursorInv(v.sessions[k], k, v.cursors[k], |v.sessions|)
  {
    var j, a, v := Target(w, m), Effect(w, m), Moved(w, m);
    assert CursorInv(w.sessions[j], j, w.cursors[j], |w.sessions|);
    assert Projects(w.origins[j], w.logs[j], w.sessions[j]);
    StepMovesPc(w.sessions[j], a);
    forall k | 0 <= k < |v.sessions| ensures CursorInv(v.sessions[k], k, v.cursors[k], |v.sessions|) {
      assert CursorInv(w.sessions[k], k, w.cursors[k], |w.sessions|);
      assert v.sessions[k].pc == if k == j then PcAfter(w.sessions[j].pc, a) else w.sessions[k].pc;
    }
  }

  lemma MoveKeepsWorld(w: World, m: Move)
    requires WorldInv(w) && CanMove(w, m)
    ensures WorldInv(Moved(w, m))
  {
    var j, a, v := Target(w, m), Effect(w, m), Moved(w, m);
    MoveKeepsCursors(w, m);
    forall k | 0 <= k < |v.sessions| ensures Projects(v.origins[k], v.logs[k], v.sessions[k]) {
      assert Projects(w.origins[k], w.logs[k], w.sessions[k]);
      if k == j {
        StepProjects(w.origins[j], w.logs[j], w.sessions[j], a);
      }
    }
  }

  ghost predicate CanRun(w: World, moves: seq<Move>)
    requires WorldInv(w)
    decreases |moves|
  {
    moves == [] ||
    (CanMove(w, moves[0]) && (MoveKeepsWorld(w, moves[0]); CanRun(Moved(w, moves[0]), moves[1..])))
  }

  ghost function After(w: World, moves: seq<Move>): World
    requires WorldInv(w) && CanRun(w, moves)
    decreases |moves|
  {
    if moves == [] then w else
      (MoveKeepsWorld(w, moves[0]); After(Moved(w, moves[0]), moves[1..]))
  }

  /** In every run of any number of sessions, what happened to each session is a run of
      that session alone; so everything proved about those holds here. */
  lemma {:induction false} EverySessionRunsAlone(w: World, moves: seq<Move>)
    requires WorldInv(w) && CanRun(w, moves)
    ensures var v := After(w, moves);
      |v.sessions| == |w.sessions| && v.origins == w.origins && WorldInv(v)
    decreases |moves|
  {
    if moves != [] {
      MoveKeepsWorld(w, moves[0]);
      EverySessionRunsAlone(Moved(w, moves[0]), moves[1..]);
    }
  }

  lemma VisitMoves(g: Engine, a: Act, accept: nat)
    requires Inv(g) && Enabled(g, a) && (a == Request(accept) || a == Callback(SendRequest(accept)))
    ensures Step(g, a).cur == g.cur && Step(g, a).base == g.base && MovedByChunk(g, accept, Step(g, a).s)
  {
    RequestWritesNextChunk(g, accept);
  }

  /** A request touches the session it reaches and no other; it does nothing to one with no
      buffer pending, and moves any other on by its own next chunk. */
  lemma VisitIsolated(w: World, i: nat, accept: nat)
    requires WorldInv(w) && CanMove(w, Visit(i, accept))
    ensures var j, v := w.cursors[i], Moved(w, Visit(i, accept));
      && (forall k | 0 <= k < |w.sessions| && k != j :: v.sessions[k] == w.sessions[k])
      && v.sessions[j].cur == w.sessions[j].cur && v.sessions[j].base == w.sessions[j].base
      && MovedByChunk(w.sessions[j], accept, v.sessions[j].s)
  {
    var j := w.cursors[i];
    assert CursorInv(w.sessions[i], i, w.cursors[i], |w.sessions|);
    assert Projects(w.origins[j], w.logs[j], w.sessions[j]);
    VisitMoves(w.sessions[j], Effect(w, Visit(i, accept)), accept);
    assert Moved(w, Visit(i, accept)).sessions == w.sessions[j := Step(w.sessions[j], Effect(w, Visit(i, accept)))];
  }

  /** When a sender's request has been round, its buffer is gone or its session has a
      callback coming, or the session has ended. */
  lemma RequestReachesSender(w: World, i: nat)
    requires WorldInv(w) && i < |w.sessions| && w.cursors[i] == |w.sessions|
    requires w.sessions[i].pc in {Published, Waiting}
    ensures var g := w.sessions[i];
      g.pc == Waiting && (g.s.sendBuf.None? || !g.s.cont || CanMove(w, Own(i, Callback(Writable(0, 0)))))
  {
    assert CursorInv(w.sessions[i], i, w.cursors[i], |w.sessions|);
    assert Projects(w.origins[i], w.logs[i], w.sessions[i]);
  }
}
