/** The loops over all sessions: usbws_request_send and usbws_health_check
    (src/usbws_ctx.c:35-45), and usbws_service with its stop flag (src/usbwsd.c:235-272). */
module Service {
  import opened ByteStream
  import opened SessionState
  import opened Session
  import SendProtocol
  import KeepAlive

  ghost predicate AllDistinct(sessions: seq<Session>) {
    forall i, j :: 0 <= i < j < |sessions| ==> sessions[i] != sessions[j]
  }

  /** usbws_request_send: one request reaches every session once, and each answers for
      itself. */
  method RequestSend(sessions: seq<Session>, accepts: seq<nat>)
    requires AllDistinct(sessions) && |accepts| == |sessions|
    requires forall s <- sessions :: Consistent(s.View())
    modifies sessions
    ensures forall k :: 0 <= k < |sessions| ==>
      sessions[k].View() == HandleSendRequest(old(sessions[k].View()), accepts[k])
  {
    for i := 0 to |sessions|
      invariant forall k :: 0 <= k < i ==>
        sessions[k].View() == HandleSendRequest(old(sessions[k].View()), accepts[k])
      invariant forall k :: i <= k < |sessions| ==> sessions[k].View() == old(sessions[k].View())
    {
      var _, _ := sessions[i].HandleSendRequest(accepts[i]);
    }
  }

  /** usbws_health_check: one check of every session. */
  method HealthCheck(sessions: seq<Session>, interval: int, now: int, sents: seq<int>)
    requires AllDistinct(sessions) && |sents| == |sessions|
    modifies sessions
    ensures forall k :: 0 <= k < |sessions| ==>
      sessions[k].View() == CheckSession(old(sessions[k].View()), interval, now, sents[k])
  {
    for i := 0 to |sessions|
      invariant forall k :: 0 <= k < i ==>
        sessions[k].View() == CheckSession(old(sessions[k].View()), interval, now, sents[k])
      invariant forall k :: i <= k < |sessions| ==> sessions[k].View() == old(sessions[k].View())
    {
      var _ := sessions[i].CheckSession(interval, now, sents[i]);
    }
  }

  /** `struct usbws_ctx` */
  class Context {
    var cont: bool
    var pingPong: int

    /** usbws_ctx_init */
    constructor ()
      ensures cont && pingPong == PING_PONG_DEFAULT
    {
      cont := true;
      pingPong := PING_PONG_DEFAULT;
    }

    /** usbws_ctx_set_ping_pong */
    method SetPingPong(interval: int)
      modifies `pingPong
      ensures pingPong == interval
    {
      pingPong := interval;
    }

    /** usbws_ctx_stop */
    method Stop()
      modifies `cont
      ensures !cont
    {
      cont := false;
    }
  }

  /** One call of lws_service: the millisecond in which it returned, whether it failed,
      whether the context was stopped while it ran, and what the library will return for a
      ping to each session in the check that follows. */
  datatype Turn = Turn(end: int, failed: bool, stopped: bool, sents: seq<int>)

  /** lws_service does not outstay its timeout, in milliseconds. */
  predicate KeepsTimeout(turns: seq<Turn>, start: int, timeout: int) {
    turns == [] ||
    (start <= turns[0].end <= start + timeout && KeepsTimeout(turns[1..], turns[0].end, timeout))
  }

  /** What time(NULL) says. */
  function Seconds(millis: int): int {
    millis / 1000
  }

  /** The times of the checks: one after every call that did not fail, up to and including
      the one during which the context was stopped. */
  function CheckTimes(turns: seq<Turn>): seq<int> {
    if turns == [] || turns[0].failed then []
    else [Seconds(turns[0].end)] + (if turns[0].stopped then [] else CheckTimes(turns[1..]))
  }

  /** What these checks make of session `k`, if nothing else happens to it. */
  function Checked(s: State, interval: int, turns: seq<Turn>, k: nat): State
    requires forall turn <- turns :: k < |turn.sents|
    decreases |turns|
  {
    if turns == [] || turns[0].failed then s
    else
      var t := CheckSession(s, interval, Seconds(turns[0].end), turns[0].sents[k]);
      if turns[0].stopped then t else Checked(t, interval, turns[1..], k)
  }

  /** How many of the calls are followed by a check. */
  predicate CheckedTurns(turns: seq<Turn>, n: nat) {
    n <= |turns| &&
    (forall i :: 0 <= i < n ==> !turns[i].failed) && (forall i :: 0 <= i < n - 1 ==> !turns[i].stopped) &&
    (n == |turns| || turns[n].failed || (n > 0 && turns[n - 1].stopped))
  }

  /** There is one check for each call before the first that failed, up to and including the
      first during which the context was stopped, in the second in which the call returned. */
  lemma {:induction false} ChecksFollowTurns(turns: seq<Turn>, n: nat)
    requires CheckedTurns(turns, n)
    ensures |CheckTimes(turns)| == n
    ensures forall i :: 0 <= i < n ==> CheckTimes(turns)[i] == turns[i].end / 1000
  {
    if n > 0 {
      if turns[0].stopped {
        assert n == 1;
      } else {
        assert CheckedTurns(turns[1..], n - 1);
        ChecksFollowTurns(turns[1..], n - 1);
      }
    }
  }

  lemma {:induction false} SomeTurnsChecked(turns: seq<Turn>) returns (n: nat)
    ensures CheckedTurns(turns, n)
  {
    n := 0;
    if turns != [] && !turns[0].failed {
      n := 1;
      if !turns[0].stopped {
        var m := SomeTurnsChecked(turns[1..]);
        n := m + 1;
      }
    }
  }

  /** What the last of a run of checks, at time `last`, leaves of a session: it has ended and
      was asked to close, or its peer was silent for less than the interval and 60 seconds; and
      if for as long as the interval, a ping is outstanding or pending, or was just refused. */
  predicate LeftBy(t: State, interval: int, last: int) {
    if t.cont then
      last - t.stamp < interval + 60 &&
      (last - t.stamp >= interval ==>
         t.pinged || t.pingPending || (t.wire != [] && t.wire[|t.wire| - 1] == Ping(false)))
    else t.closeAsked
  }

  lemma OneCheckLeaves(s: State, interval: int, now: int, sent: int)
    requires interval >= 1
    ensures LeftBy(CheckSession(s, interval, now, sent), interval, now)
  {
    if !s.cont || now - s.stamp >= interval + 60 {
      SilentSessionClosed(s, interval, now, sent);
    } else if now - s.stamp >= interval && !s.pinged {
      QuietSessionPinged(s, interval, now, sent);
    } else {
      HeardSessionLeftAlone(s, interval, now, sent);
    }
  }

  /** So it is after all the checks of the loop, if nothing else happens to the session. */
  lemma {:induction false} ChecksLeave(s: State, interval: int, turns: seq<Turn>, k: nat)
    requires interval >= 1 && CheckTimes(turns) != [] && forall turn <- turns :: k < |turn.sents|
    ensures LeftBy(Checked(s, interval, turns, k), interval, CheckTimes(turns)[|CheckTimes(turns)| - 1])
    decreases |turns|
  {
    var now := Seconds(turns[0].end);
    var t := CheckSession(s, interval, now, turns[0].sents[k]);
    if turns[0].stopped || CheckTimes(turns[1..]) == [] {
      OneCheckLeaves(s, interval, now, turns[0].sents[k]);
      if !turns[0].stopped {
        NoTimesNoChecks(t, interval, turns[1..], k);
      }
    } else {
      ChecksLeave(t, interval, turns[1..], k);
    }
  }

  /** The checks are made one by one, each on what the one before has left. */
  lemma {:induction false} ChecksInOrder(s: State, interval: int, turns: seq<Turn>, k: nat, n: nat)
    returns (states: seq<State>)
    requires CheckedTurns(turns, n) && forall turn <- turns :: k < |turn.sents|
    ensures |states| == n + 1 && states[0] == s && states[n] == Checked(s, interval, turns, k)
    ensures forall i :: 0 <= i < n ==>
      states[i + 1] == CheckSession(states[i], interval, turns[i].end / 1000, turns[i].sents[k])
    decreases |turns|
  {
    states := [s];
    if n > 0 {
      var t := CheckSession(s, interval, turns[0].end / 1000, turns[0].sents[k]);
      var rest := [t];
      if !turns[0].stopped {
        assert CheckedTurns(turns[1..], n - 1);
        rest := ChecksInOrder(t, interval, turns[1..], k, n - 1);
      } else {
        assert n == 1;
      }
      states := [s] + rest;
      assert forall i :: 0 < i < n ==> turns[i] == turns[1..][i - 1];
    }
  }

  lemma NoTimesNoChecks(s: State, interval: int, turns: seq<Turn>, k: nat)
    requires CheckTimes(turns) == [] && forall turn <- turns :: k < |turn.sents|
    ensures Checked(s, interval, turns, k) == s
  {
  }

  /** Consecutive checks are at most `interval` seconds apart, the first counted from
      `start`. */
  predicate Spaced(times: seq<int>, start: int, interval: int) {
    times == [] || (0 <= times[0] - start <= interval && Spaced(times[1..], times[0], interval))
  }

  /** The timeout that usbws_service computes from the interval keeps its checks that far
      apart on the clock of seconds that they read. */
  lemma {:induction false} ChecksSpaced(turns: seq<Turn>, start: int, interval: int)
    requires KeepsTimeout(turns, start, interval * 1000)
    ensures Spaced(CheckTimes(turns), Seconds(start), interval)
  {
    if turns != [] && !turns[0].failed {
      assert CheckTimes(turns)[0] == Seconds(turns[0].end);
      if !turns[0].stopped {
        ChecksSpaced(turns[1..], turns[0].end, interval);
        assert CheckTimes(turns)[1..] == CheckTimes(turns[1..]);
      }
    }
  }

  /** One more turn that did not fail has one more check. */
  lemma OneTurn(checks: seq<int>, turns: seq<Turn>)
    requires turns != [] && !turns[0].failed
    ensures checks + CheckTimes(turns) ==
      checks + [Seconds(turns[0].end)] + (if turns[0].stopped then [] else CheckTimes(turns[1..]))
  {
  }

  /** One call of the library, and the check after it unless it failed. */
  method ServeTurn(ctx: Context, sessions: seq<Session>, turn: Turn)
    requires AllDistinct(sessions) && |turn.sents| == |sessions|
    modifies ctx`cont, sessions
    ensures ctx.cont == (old(ctx.cont) && !turn.stopped)
    ensures forall k :: 0 <= k < |sessions| ==>
      sessions[k].View() ==
        if turn.failed then old(sessions[k].View())
        else CheckSession(old(sessions[k].View()), ctx.pingPong, Seconds(turn.end), turn.sents[k])
  {
    if turn.stopped {
      ctx.Stop();
    }
    if !turn.failed {
      HealthCheck(sessions, ctx.pingPong, Seconds(turn.end), turn.sents);
    }
  }

  /** The loop of usbws_service. */
  method ServeLoop(ctx: Context, sessions: seq<Session>, turns: seq<Turn>) returns (checks: seq<int>)
    requires AllDistinct(sessions) && (forall turn <- turns :: |turn.sents| == |sessions|) && ctx.cont
    modifies ctx`cont, sessions
    ensures checks == CheckTimes(turns)
    ensures forall k :: 0 <= k < |sessions| ==>
      sessions[k].View() == Checked(old(sessions[k].View()), ctx.pingPong, turns, k)
  {
    checks := [];
    var left := turns;
    while ctx.cont && left != []
      invariant ctx.pingPong == old(ctx.pingPong)
      invariant forall turn <- left :: |turn.sents| == |sessions|
      invariant CheckTimes(turns) == checks + (if ctx.cont then CheckTimes(left) else [])
      invariant forall k :: 0 <= k < |sessions| ==>
        Checked(old(sessions[k].View()), ctx.pingPong, turns, k) ==
        (if ctx.cont then Checked(sessions[k].View(), ctx.pingPong, left, k) else sessions[k].View())
      decreases |left|
    {
      var turn := left[0];
      ServeTurn(ctx, sessions, turn);
      if turn.failed {
        break;
      }
      OneTurn(checks, left);
      left := left[1..];
      checks := checks + [Seconds(turn.end)];
    }
  }

  /** usbws_service: a context that was stopped before makes no checks. */
  method Serve(ctx: Context, sessions: seq<Session>, turns: seq<Turn>, start: int) returns (checks: seq<int>)
    requires AllDistinct(sessions) && forall turn <- turns :: |turn.sents| == |sessions|
    requires KeepsTimeout(turns, start, ctx.pingPong * 1000)
    modifies ctx`cont, sessions
    ensures checks == if old(ctx.cont) then CheckTimes(turns) else []
    ensures Spaced(checks, Seconds(start), ctx.pingPong)
    ensures ctx.pingPong >= 1 && checks != [] ==>
      forall k :: 0 <= k < |sessions| ==> LeftBy(sessions[k].View(), ctx.pingPong, checks[|checks| - 1])
    ensures forall k :: 0 <= k < |sessions| ==>
      sessions[k].View() ==
        (if old(ctx.cont) then Checked(old(sessions[k].View()), ctx.pingPong, turns, k) else old(sessions[k].View()))
  {
    if !ctx.cont {
      return [];
    }
    checks := ServeLoop(ctx, sessions, turns);
    ChecksSpaced(turns, start, ctx.pingPong);
    if ctx.pingPong >= 1 && checks != [] {
      forall k | 0 <= k < |sessions| ensures LeftBy(sessions[k].View(), ctx.pingPong, checks[|checks| - 1]) {
        ChecksLeave(old(sessions[k].View()), ctx.pingPong, turns, k);
      }
    }
  }

  /** What main makes of the interval option, and the service it starts: the checks are as far
      apart as the option says, or 60 seconds without one. */
  method Daemon(option: Option<int>, sessions: seq<Session>, turns: seq<Turn>, start: int)
    returns (checks: seq<int>)
    requires AllDistinct(sessions) && forall turn <- turns :: |turn.sents| == |sessions|
    requires KeepsTimeout(turns, start, if option.Some? then option.value * 1000 else 60_000)
    modifies sessions
    ensures checks == CheckTimes(turns)
    ensures Spaced(checks, Seconds(start), if option.Some? then option.value else 60)
    ensures forall k :: 0 <= k < |sessions| ==>
      sessions[k].View() ==
        Checked(old(sessions[k].View()), if option.Some? then option.value else 60, turns, k)
  {
    var ctx := new Context();
    if option.Some? {
      ctx.SetPingPong(option.value);
    }
    checks := Serve(ctx, sessions, turns, start);
  }

  // ----- the runs of a session that such a loop serves

  function HealthTimes(acts: seq<SendProtocol.Act>): seq<int> {
    if acts == [] then []
    else (if acts[0].Callback? && acts[0].e.HealthCheck? then [acts[0].e.now] else []) + HealthTimes(acts[1..])
  }

  /** A run of a session on a clock that does not run back. */
  predicate Clocked(t: KeepAlive.Timed, acts: seq<SendProtocol.Act>)
    requires SendProtocol.Inv(t.g)
    decreases |acts|
  {
    acts == [] ||
    (SendProtocol.Enabled(t.g, acts[0]) && t.clock <= KeepAlive.TimeOf(t, acts[0]) &&
     Clocked(KeepAlive.Tick(t, acts[0]), acts[1..]))
  }

  lemma FirstHealthTime(acts: seq<SendProtocol.Act>, times: seq<int>)
    requires acts != [] && HealthTimes(acts) <= times
    ensures if acts[0].Callback? && acts[0].e.HealthCheck?
            then times != [] && times[0] == acts[0].e.now && HealthTimes(acts[1..]) <= times[1..]
            else HealthTimes(acts[1..]) <= times
  {
    if acts[0].Callback? && acts[0].e.HealthCheck? {
      assert HealthTimes(acts)[0] == acts[0].e.now && HealthTimes(acts)[1..] == HealthTimes(acts[1..]);
    }
  }

  lemma {:induction false} SpacedRun(t: KeepAlive.Timed, acts: seq<SendProtocol.Act>, times: seq<int>)
    requires SendProtocol.Inv(t.g) && Clocked(t, acts)
    requires HealthTimes(acts) <= times && Spaced(times, t.lastCheck, t.g.interval)
    ensures KeepAlive.Run(t, KeepAlive.NoPromise, acts)
    decreases |acts|
  {
    if acts != [] {
      FirstHealthTime(acts, times);
      KeepAlive.TickFacts(t, acts[0]);
      var checks := acts[0].Callback? && acts[0].e.HealthCheck?;
      SpacedRun(KeepAlive.Tick(t, acts[0]), acts[1..], if checks then times[1..] else times);
    }
  }

  /** What module KeepAlive proves of runs whose checks are spaced holds of every session
      whose checks are those of the loop, from the turn in which it was established. */
  lemma ServedRunIsSpaced(turns: seq<Turn>, start: int, interval: int, now: int, acts: seq<SendProtocol.Act>)
    requires KeepsTimeout(turns, start, interval * 1000)
    requires Clocked(KeepAlive.Begin(interval, Seconds(start), now), acts) && HealthTimes(acts) <= CheckTimes(turns)
    ensures KeepAlive.Run(KeepAlive.Begin(interval, Seconds(start), now), KeepAlive.NoPromise, acts)
  {
    ChecksSpaced(turns, start, interval);
    SpacedRun(KeepAlive.Begin(interval, Seconds(start), now), acts, CheckTimes(turns));
  }
}
