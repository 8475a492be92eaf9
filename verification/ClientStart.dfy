/** The start of a client: usbws_client_open waits, in the application's thread, until the
    client thread reports that the connection was established or has failed
    (src/usbws_client.c:71-102, 147-158, 176-194). */
module ClientStart {
  datatype OpenerPc = Arriving | Testing | Deciding | Asleep | Woken | Leaving | Reading | Returned(sock: bool)

  /** The client thread, in its loop or inside __notify_start with the value it reports. */
  datatype ThreadPc = Looping | Notifying(val: int) | Locked(val: int) | Stored(val: int) | Signalled | Exited

  datatype Holder = Free | ByOpener | ByThread

  /** `up` says that in this open the established callback has stored 1, and `down` that the
      closed or failed one has stored -1. */
  datatype Client = Client(
    started: int, lock: Holder, opener: OpenerPc, thread: ThreadPc, up: bool, down: bool)

  datatype Act =
    | OpenerLocks
    | OpenerTests
    | OpenerSleeps
    | OpenerWakesSpuriously
    | OpenerUnlocks
    | OpenerReads
    /** The established callback: usbws_client_start_session. */
    | Established
    /** The closed or failed callback: usbws_client_stop_session. */
    | Stopped
    | ThreadLocks
    | ThreadStores
    | ThreadSignals
    | ThreadUnlocks
    /** lws_service fails or the context was stopped, and the context is destroyed; what
        callbacks that still brings come before. */
    | ThreadExits

  /** Just after pthread_create, with the value `started` has from before. */
  function Opened(started: int): Client {
    Client(started, Free, Arriving, Looping, false, false)
  }

  predicate Enabled(s: Client, a: Act) {
    match a
    case OpenerLocks => s.opener in {Arriving, Woken} && s.lock == Free
    case OpenerTests => s.opener == Testing
    case OpenerSleeps => s.opener == Deciding
    case OpenerWakesSpuriously => s.opener == Asleep
    case OpenerUnlocks => s.opener == Leaving
    case OpenerReads => s.opener == Reading
    case Established => s.thread == Looping
    case Stopped => s.thread == Looping
    case ThreadLocks => s.thread.Notifying? && s.lock == Free
    case ThreadStores => s.thread.Locked?
    case ThreadSignals => s.thread.Stored?
    case ThreadUnlocks => s.thread == Signalled
    case ThreadExits => s.thread == Looping
  }

  function Next(s: Client, a: Act): Client
    requires Enabled(s, a)
  {
    match a
    case OpenerLocks => s.(opener := Testing, lock := ByOpener)
    case OpenerTests => s.(opener := if s.started == 0 then Deciding else Leaving)
    case OpenerSleeps => s.(opener := Asleep, lock := Free)
    case OpenerWakesSpuriously => s.(opener := Woken)
    case OpenerUnlocks => s.(opener := Reading, lock := Free)
    case OpenerReads => s.(opener := Returned(s.started >= 0))
    case Established => s.(thread := Notifying(1))
    case Stopped => s.(thread := Notifying(-1))
    case ThreadLocks => s.(thread := Locked(s.thread.val), lock := ByThread)
    case ThreadStores =>
      s.(started := s.thread.val, thread := Stored(s.thread.val),
         up := s.up || s.thread.val > 0, down := s.down || s.thread.val < 0)
    case ThreadSignals => s.(thread := Signalled, opener := if s.opener == Asleep then Woken else s.opener)
    case ThreadUnlocks => s.(thread := Looping, lock := Free)
    case ThreadExits => s.(thread := Exited)
  }

  predicate Legal(s: Client, acts: seq<Act>)
    decreases |acts|
  {
    acts == [] || (Enabled(s, acts[0]) && Legal(Next(s, acts[0]), acts[1..]))
  }

  function Exec(s: Client, acts: seq<Act>): Client
    requires Legal(s, acts)
    decreases |acts|
  {
    if acts == [] then s else Exec(Next(s, acts[0]), acts[1..])
  }

  predicate Inv(s: Client, started0: int) {
    (s.opener in {Testing, Deciding, Leaving} <==> s.lock == ByOpener) &&
    (s.thread.Locked? || s.thread.Stored? || s.thread == Signalled <==> s.lock == ByThread) &&
    (s.thread.Notifying? || s.thread.Locked? || s.thread.Stored? ==> s.thread.val in {1, -1}) &&
    (if s.up || s.down then s.started != 0 else s.started == started0) &&
    (s.opener == Deciding ==> s.started == 0) &&
    (s.opener == Asleep ==> s.started == 0 || s.thread.Stored?) &&
    (s.opener in {Leaving, Reading} || s.opener.Returned? ==> s.started != 0) &&
    (s.started > 0 ==> s.up || started0 > 0) &&
    (s.started < 0 ==> s.down || started0 < 0) &&
    (s.opener == Returned(true) ==> s.up || started0 > 0) &&
    (s.opener == Returned(false) ==> s.down || started0 < 0)
  }

  lemma InvKept(s: Client, started0: int, a: Act)
    requires Inv(s, started0) && Enabled(s, a)
    ensures Inv(Next(s, a), started0)
  {
  }

  lemma {:induction false} RunInv(s: Client, started0: int, acts: seq<Act>)
    requires Inv(s, started0) && Legal(s, acts)
    ensures Inv(Exec(s, acts), started0)
    decreases |acts|
  {
    if acts != [] {
      InvKept(s, started0, acts[0]);
      RunInv(Next(s, acts[0]), started0, acts[1..]);
    }
  }

  lemma Cons(s: Client, a: Act, rest: seq<Act>) returns (acts: seq<Act>)
    requires Enabled(s, a) && Legal(Next(s, a), rest)
    ensures acts == [a] + rest && Legal(s, acts) && Exec(s, acts) == Exec(Next(s, a), rest)
  {
    acts := [a] + rest;
    assert acts[1..] == rest;
  }

  /** No report is slept through: once one was stored, the opener sleeps only while the
      reporting thread, inside the lock, has its signal still to send. */
  lemma NoReportSleptThrough(started0: int, acts: seq<Act>)
    requires Legal(Opened(started0), acts)
    ensures var s := Exec(Opened(started0), acts);
      s.opener == Asleep && (s.up || s.down) ==> s.thread.Stored? && s.lock == ByThread
  {
    RunInv(Opened(started0), started0, acts);
  }

  /** An opener that runs by itself, when an earlier open has left `started` as it is. */
  lemma OpenerAlone(started0: int) returns (acts: seq<Act>)
    requires started0 != 0
    ensures Legal(Opened(started0), acts)
    ensures var s := Exec(Opened(started0), acts); s.opener == Returned(started0 > 0) && !s.up && !s.down
  {
    var s0 := Opened(started0);
    var s1 := Next(s0, OpenerLocks);
    var s2 := Next(s1, OpenerTests);
    var s3 := Next(s2, OpenerUnlocks);
    acts := Cons(s3, OpenerReads, []);
    acts := Cons(s2, OpenerUnlocks, acts);
    acts := Cons(s1, OpenerTests, acts);
    acts := Cons(s0, OpenerLocks, acts);
  }

  /** The open hands out a socket only when this connection was established, in every run,
      if and only if no earlier open has left `started` positive. */
  lemma SocketMeansEstablishedExactlyWhen(started0: int)
    ensures started0 <= 0 <==>
      forall acts | Legal(Opened(started0), acts) ::
        var s := Exec(Opened(started0), acts);
        s.opener == Returned(true) ==> s.up
  {
    if started0 <= 0 {
      forall acts | Legal(Opened(started0), acts)
        ensures var s := Exec(Opened(started0), acts); s.opener == Returned(true) ==> s.up
      {
        RunInv(Opened(started0), started0, acts);
      }
    } else {
      var acts := OpenerAlone(started0);
      assert Legal(Opened(started0), acts);
    }
  }

  /** And it fails only when this connection was closed or could not be made, in every run,
      if and only if no earlier open has left `started` negative. */
  lemma FailureMeansStoppedExactlyWhen(started0: int)
    ensures started0 >= 0 <==>
      forall acts | Legal(Opened(started0), acts) ::
        var s := Exec(Opened(started0), acts);
        s.opener == Returned(false) ==> s.down
  {
    if started0 >= 0 {
      forall acts | Legal(Opened(started0), acts)
        ensures var s := Exec(Opened(started0), acts); s.opener == Returned(false) ==> s.down
      {
        RunInv(Opened(started0), started0, acts);
      }
    } else {
      var acts := OpenerAlone(started0);
      assert Legal(Opened(started0), acts);
    }
  }

  /** The thread reports, from the callback to the unlocking, while the opener does nothing. */
  lemma Reported(s: Client, up: bool, rest: seq<Act>) returns (acts: seq<Act>)
    requires s.thread == Looping && s.lock == Free && s.opener != Asleep
    requires Legal(AfterReport(s, up), rest)
    ensures Legal(s, acts) && Exec(s, acts) == Exec(AfterReport(s, up), rest)
  {
    var a := if up then Established else Stopped;
    var s1 := Next(s, a);
    var s2 := Next(s1, ThreadLocks);
    var s3 := Next(s2, ThreadStores);
    var s4 := Next(s3, ThreadSignals);
    acts := Cons(s4, ThreadUnlocks, rest);
    acts := Cons(s3, ThreadSignals, acts);
    acts := Cons(s2, ThreadStores, acts);
    acts := Cons(s1, ThreadLocks, acts);
    acts := Cons(s, a, acts);
  }

  function AfterReport(s: Client, up: bool): Client {
    s.(started := if up then 1 else -1, up := s.up || up, down := s.down || !up)
  }

  /** A first open can end with `started` at 1, its thread gone without a report of the end,
      and with -1, if there was one: so either start above is reached. */
  lemma LeavesStarted(closed: bool) returns (acts: seq<Act>)
    ensures Legal(Opened(0), acts)
    ensures var s := Exec(Opened(0), acts);
      s.opener == Returned(true) && s.thread == Exited && s.started == if closed then -1 else 1
  {
    var s0 := Opened(0);
    var s1 := AfterReport(s0, true);
    var s2 := Next(s1, OpenerLocks);
    var s3 := Next(s2, OpenerTests);
    var s4 := Next(s3, OpenerUnlocks);
    var s5 := Next(s4, OpenerReads);
    if closed {
      acts := Cons(AfterReport(s5, false), ThreadExits, []);
      acts := Reported(s5, false, acts);
    } else {
      acts := Cons(s5, ThreadExits, []);
    }
    acts := Cons(s4, OpenerReads, acts);
    acts := Cons(s3, OpenerUnlocks, acts);
    acts := Cons(s2, OpenerTests, acts);
    acts := Cons(s1, OpenerLocks, acts);
    acts := Reported(s0, true, acts);
  }

  /** An opener that still sleeps when the client thread has gone was never reported to, in
      every run. */
  lemma SleepsOnOnlyUnreported(acts: seq<Act>)
    requires Legal(Opened(0), acts)
    ensures var s := Exec(Opened(0), acts);
      s.opener == Asleep && s.thread == Exited ==> !s.up && !s.down && s.started == 0
  {
    RunInv(Opened(0), 0, acts);
  }

  /** And there is such a run: the thread goes before any callback has come, and from then on
      nothing but a spurious wake-up can happen. */
  lemma CanSleepOnForever() returns (acts: seq<Act>)
    ensures Legal(Opened(0), acts)
    ensures var s := Exec(Opened(0), acts);
      && s.opener == Asleep && s.thread == Exited
      && forall a :: Enabled(s, a) ==> a == OpenerWakesSpuriously
  {
    var s0 := Opened(0);
    var s1 := Next(s0, OpenerLocks);
    var s2 := Next(s1, OpenerTests);
    var s3 := Next(s2, OpenerSleeps);
    acts := Cons(s3, ThreadExits, []);
    acts := Cons(s2, OpenerSleeps, acts);
    acts := Cons(s1, OpenerTests, acts);
    acts := Cons(s0, OpenerLocks, acts);
  }
}
