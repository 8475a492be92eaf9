/** The two condition variables of a session, with every lock, test, wait and signal a
    step of its own: the wait loops of usbws_send and usbws_recv
    (src/usbws_session.c:396-400, 420-428), usbws_session_discontinue, which clears `cont`
    outside both locks (lines 35-51), and the close that joins the worker after it
    (lines 333-337; src/usbwsd.c:224-233). */
module Wakeup {
  import opened ByteStream

  datatype Cond = SendComplete | RecvQueue

  /** Out of the loop; about to lock; locked, about to test; locked, about to wait; waiting,
      unlocked; woken, about to lock again; locked, about to leave. */
  datatype WaiterPc = Outside | Arriving | Testing | Deciding | Asleep | Woken | Leaving

  datatype Waiter = Waiter(on: Cond, pc: WaiterPc)

  /** The steps of usbws_session_discontinue. */
  datatype StopperPc =
    | Before | Cleared | SendLocked | SendSignalled | SendDone | RecvLocked | RecvSignalled | Done

  datatype Holder = Free | ByWaiter(i: nat) | ByStopper(j: nat)

  /** `blocked` holds for a condition while there is something to wait for: the buffer is
      not yet sent, the queue is empty. */
  datatype Sys = Sys(
    cont: bool, sendBlocked: bool, recvBlocked: bool, sendLock: Holder, recvLock: Holder,
    waiters: seq<Waiter>, stoppers: seq<StopperPc>)

  datatype Act =
    | Enter(i: nat)
    | Lock(i: nat)
    | Test(i: nat)
    | Sleep(i: nat)
    | WakeSpuriously(i: nat)
    | Unlock(i: nat)
    /** The next step of a discontinuer; a signal wakes `woken`, a sleeper if there is any. */
    | Stop(j: nat, woken: Option<nat>)
    /** Under the lock: the buffer was sent, or a frame was queued. */
    | Notify(c: Cond, woken: Option<nat>)
    /** A buffer was published, or the queue was emptied. */
    | Block(c: Cond)

  function Blocked(s: Sys, c: Cond): bool {
    if c.SendComplete? then s.sendBlocked else s.recvBlocked
  }

  function LockOf(s: Sys, c: Cond): Holder {
    if c.SendComplete? then s.sendLock else s.recvLock
  }

  function SetLock(s: Sys, c: Cond, h: Holder): Sys {
    if c.SendComplete? then s.(sendLock := h) else s.(recvLock := h)
  }

  function SetBlocked(s: Sys, c: Cond, b: bool): Sys {
    if c.SendComplete? then s.(sendBlocked := b) else s.(recvBlocked := b)
  }

  function SetPc(s: Sys, i: nat, pc: WaiterPc): Sys
    requires i < |s.waiters|
  {
    s.(waiters := s.waiters[i := s.waiters[i].(pc := pc)])
  }

  /** What a signal on `c` may wake: one sleeper, or nobody if nobody sleeps. */
  predicate CanWake(s: Sys, c: Cond, woken: Option<nat>) {
    match woken
    case Some(i) => i < |s.waiters| && s.waiters[i] == Waiter(c, Asleep)
    case None => forall i :: 0 <= i < |s.waiters| ==> s.waiters[i] != Waiter(c, Asleep)
  }

  function Signal(s: Sys, c: Cond, woken: Option<nat>): Sys
    requires CanWake(s, c, woken)
  {
    if woken.Some? then SetPc(s, woken.value, Woken) else s
  }

  predicate Enabled(s: Sys, a: Act) {
    match a
    case Enter(i) => i < |s.waiters| && s.waiters[i].pc == Outside
    case Lock(i) =>
      i < |s.waiters| && s.waiters[i].pc in {Arriving, Woken} && LockOf(s, s.waiters[i].on) == Free
    case Test(i) => i < |s.waiters| && s.waiters[i].pc == Testing
    case Sleep(i) => i < |s.waiters| && s.waiters[i].pc == Deciding
    case WakeSpuriously(i) => i < |s.waiters| && s.waiters[i].pc == Asleep
    case Unlock(i) => i < |s.waiters| && s.waiters[i].pc == Leaving
    case Stop(j, woken) =>
      j < |s.stoppers| &&
      (match s.stoppers[j]
       case Cleared => s.sendLock == Free
       case SendLocked => CanWake(s, SendComplete, woken)
       case SendDone => s.recvLock == Free
       case RecvLocked => CanWake(s, RecvQueue, woken)
       case Done => false
       case _ => true)
    case Notify(c, woken) => LockOf(s, c) == Free && CanWake(s, c, woken)
    case Block(_) => true
  }

  function StopStep(s: Sys, j: nat, woken: Option<nat>): Sys
    requires Enabled(s, Stop(j, woken))
  {
    match s.stoppers[j]
    case Before => s.(cont := false, stoppers := s.stoppers[j := Cleared])
    case Cleared => s.(sendLock := ByStopper(j), stoppers := s.stoppers[j := SendLocked])
    case SendLocked => Signal(s, SendComplete, woken).(stoppers := s.stoppers[j := SendSignalled])
    case SendSignalled => s.(sendLock := Free, stoppers := s.stoppers[j := SendDone])
    case SendDone => s.(recvLock := ByStopper(j), stoppers := s.stoppers[j := RecvLocked])
    case RecvLocked => Signal(s, RecvQueue, woken).(stoppers := s.stoppers[j := RecvSignalled])
    case RecvSignalled => s.(recvLock := Free, stoppers := s.stoppers[j := Done])
  }

  function Next(s: Sys, a: Act): Sys
    requires Enabled(s, a)
  {
    match a
    case Enter(i) => SetPc(s, i, Arriving)
    case Lock(i) => SetLock(SetPc(s, i, Testing), s.waiters[i].on, ByWaiter(i))
    case Test(i) => SetPc(s, i, if s.cont && Blocked(s, s.waiters[i].on) then Deciding else Leaving)
    case Sleep(i) => SetLock(SetPc(s, i, Asleep), s.waiters[i].on, Free)
    case WakeSpuriously(i) => SetPc(s, i, Woken)
    case Unlock(i) => SetLock(SetPc(s, i, Outside), s.waiters[i].on, Free)
    case Stop(j, woken) => StopStep(s, j, woken)
    case Notify(c, woken) => SetBlocked(Signal(s, c, woken), c, false)
    case Block(c) => SetBlocked(s, c, true)
  }

  function Init(on: seq<Cond>, stoppers: nat): Sys {
    Sys(true, true, true, Free, Free, seq(|on|, i requires 0 <= i < |on| => Waiter(on[i], Outside)),
        seq(stoppers, _ => Before))
  }

  /** A run: the states it goes through and the steps between them. */
  ghost predicate Run(on: seq<Cond>, stoppers: nat, tr: seq<Sys>, acts: seq<Act>) {
    |tr| == |acts| + 1 && tr[0] == Init(on, stoppers) &&
    forall k :: 0 <= k < |acts| ==> Enabled(tr[k], acts[k]) && tr[k + 1] == Next(tr[k], acts[k])
  }

  // ----- what every step keeps

  /** This discontinuer has delivered its signal on `c`. */
  predicate HasSignalled(p: StopperPc, c: Cond) {
    match p
    case RecvSignalled => true
    case Done => true
    case SendSignalled => c.SendComplete?
    case SendDone => c.SendComplete?
    case RecvLocked => c.SendComplete?
    case _ => false
  }

  predicate HoldsFor(p: StopperPc, c: Cond) {
    if c.SendComplete? then p.SendLocked? || p.SendSignalled? else p.RecvLocked? || p.RecvSignalled?
  }

  predicate Inside(pc: WaiterPc) {
    pc.Testing? || pc.Deciding? || pc.Leaving?
  }

  /** A lock is held by whoever is inside, and by nobody else. */
  predicate Locks(s: Sys, c: Cond) {
    (forall i :: 0 <= i < |s.waiters| && s.waiters[i].on == c ==>
      (Inside(s.waiters[i].pc) <==> LockOf(s, c) == ByWaiter(i))) &&
    (forall j :: 0 <= j < |s.stoppers| ==> (HoldsFor(s.stoppers[j], c) <==> LockOf(s, c) == ByStopper(j)))
  }

  /** The holder of a lock is one of the threads. */
  predicate Held(s: Sys, c: Cond) {
    match LockOf(s, c)
    case Free => true
    case ByWaiter(i) => i < |s.waiters| && s.waiters[i].on == c
    case ByStopper(j) => j < |s.stoppers|
  }

  /** `cont` is cleared exactly when some discontinuer has begun. */
  ghost predicate ContCleared(s: Sys) {
    s.cont <==> forall j :: 0 <= j < |s.stoppers| ==> s.stoppers[j] == Before
  }

  /** Nobody sleeps on `c`, or is about to. */
  predicate Quiet(s: Sys, c: Cond) {
    forall i :: 0 <= i < |s.waiters| ==> s.waiters[i] != Waiter(c, Deciding) && s.waiters[i] != Waiter(c, Asleep)
  }

  /** Once a signal was delivered, nobody sleeps on that condition or is about to. */
  predicate Drained(s: Sys, c: Cond) {
    forall j :: 0 <= j < |s.stoppers| && HasSignalled(s.stoppers[j], c) ==> Quiet(s, c)
  }

  /** Nobody sleeps on a condition that is met, or is about to. */
  predicate SleepsForReason(s: Sys, c: Cond) {
    Blocked(s, c) || Quiet(s, c)
  }

  /** Nobody sleeps on `c` through the end of the session, or without a reason. */
  predicate Rested(s: Sys, c: Cond) {
    Drained(s, c) && SleepsForReason(s, c)
  }

  ghost predicate Inv(s: Sys) {
    ContCleared(s) && forall c :: Locks(s, c) && Held(s, c) && Rested(s, c)
  }

  /** No two threads wait on one condition. */
  predicate OneWaiterEach(on: seq<Cond>) {
    forall i, j :: 0 <= i < j < |on| ==> on[i] != on[j]
  }

  predicate WaitersAre(s: Sys, on: seq<Cond>) {
    |s.waiters| == |on| && forall i :: 0 <= i < |on| ==> s.waiters[i].on == on[i]
  }

  lemma PcKeepsWaiters(s: Sys, i: nat, pc: WaiterPc, on: seq<Cond>)
    requires WaitersAre(s, on) && i < |s.waiters|
    ensures WaitersAre(SetPc(s, i, pc), on)
  {
  }

  lemma SignalKeepsWaiters(s: Sys, c: Cond, woken: Option<nat>, on: seq<Cond>)
    requires WaitersAre(s, on) && CanWake(s, c, woken)
    ensures WaitersAre(Signal(s, c, woken), on)
  {
    if woken.Some? {
      PcKeepsWaiters(s, woken.value, Woken, on);
    }
  }

  lemma WaitersStay(s: Sys, a: Act, on: seq<Cond>)
    requires WaitersAre(s, on) && Enabled(s, a)
    ensures WaitersAre(Next(s, a), on) && |Next(s, a).stoppers| == |s.stoppers|
  {
    match a
    case Stop(j, woken) =>
      if s.stoppers[j] == SendLocked {
        SignalKeepsWaiters(s, SendComplete, woken, on);
      } else if s.stoppers[j] == RecvLocked {
        SignalKeepsWaiters(s, RecvQueue, woken, on);
      }
    case Notify(c, woken) => SignalKeepsWaiters(s, c, woken, on);
    case Enter(i) => PcKeepsWaiters(s, i, Arriving, on);
    case Lock(i) => PcKeepsWaiters(s, i, Testing, on);
    case Test(i) => PcKeepsWaiters(s, i, if s.cont && Blocked(s, s.waiters[i].on) then Deciding else Leaving, on);
    case Sleep(i) => PcKeepsWaiters(s, i, Asleep, on);
    case WakeSpuriously(i) => PcKeepsWaiters(s, i, Woken, on);
    case Unlock(i) => PcKeepsWaiters(s, i, Outside, on);
    case Block(_) =>
  }

  lemma ContKept(s: Sys, a: Act)
    requires ContCleared(s) && Enabled(s, a)
    ensures ContCleared(Next(s, a))
  {
    var t := Next(s, a);
    if a.Stop? {
      assert t.stoppers[a.j] != Before;
      forall j | 0 <= j < |s.stoppers| && s.stoppers[j] != Before ensures t.stoppers[j] != Before {
      }
    }
  }

  lemma PcKeepsLocks(s: Sys, i: nat, pc: WaiterPc, c: Cond)
    requires Locks(s, c) && i < |s.waiters| && (Inside(pc) <==> Inside(s.waiters[i].pc))
    ensures Locks(SetPc(s, i, pc), c)
  {
  }

  lemma SignalKeepsLocks(s: Sys, d: Cond, woken: Option<nat>, c: Cond)
    requires Locks(s, c) && CanWake(s, d, woken)
    ensures Locks(Signal(s, d, woken), c)
  {
    if woken.Some? {
      PcKeepsLocks(s, woken.value, Woken, c);
    }
  }

  /** A discontinuer moves on without taking or leaving a lock for `c`. */
  lemma StopperMoves(s: Sys, j: nat, p: StopperPc, c: Cond)
    requires Locks(s, c) && j < |s.stoppers| && (HoldsFor(p, c) <==> HoldsFor(s.stoppers[j], c))
    ensures Locks(s.(stoppers := s.stoppers[j := p]), c)
  {
  }

  lemma StopperLocks(s: Sys, j: nat, d: Cond, p: StopperPc, h: Holder, c: Cond)
    requires Locks(s, c) && j < |s.stoppers|
    requires if h.Free? then HoldsFor(s.stoppers[j], d) else h == ByStopper(j) && LockOf(s, d) == Free
    requires HoldsFor(p, c) <==> (if c == d then !h.Free? else HoldsFor(s.stoppers[j], c))
    ensures Locks(SetLock(s, d, h).(stoppers := s.stoppers[j := p]), c)
  {
  }

  lemma StopSenderKeepsLocks(s: Sys, j: nat, woken: Option<nat>, c: Cond)
    requires Locks(s, c) && Enabled(s, Stop(j, woken))
    requires s.stoppers[j].Cleared? || s.stoppers[j].SendLocked? || s.stoppers[j].SendSignalled?
    ensures Locks(StopStep(s, j, woken), c)
  {
    match s.stoppers[j]
    case Cleared => StopperLocks(s, j, SendComplete, SendLocked, ByStopper(j), c);
    case SendLocked =>
      SignalKeepsLocks(s, SendComplete, woken, c);
      StopperMoves(Signal(s, SendComplete, woken), j, SendSignalled, c);
    case SendSignalled => StopperLocks(s, j, SendComplete, SendDone, Free, c);
  }

  lemma StopReceiverKeepsLocks(s: Sys, j: nat, woken: Option<nat>, c: Cond)
    requires Locks(s, c) && Enabled(s, Stop(j, woken))
    requires s.stoppers[j].SendDone? || s.stoppers[j].RecvLocked? || s.stoppers[j].RecvSignalled?
    ensures Locks(StopStep(s, j, woken), c)
  {
    match s.stoppers[j]
    case SendDone => StopperLocks(s, j, RecvQueue, RecvLocked, ByStopper(j), c);
    case RecvLocked =>
      SignalKeepsLocks(s, RecvQueue, woken, c);
      StopperMoves(Signal(s, RecvQueue, woken), j, RecvSignalled, c);
    case RecvSignalled => StopperLocks(s, j, RecvQueue, Done, Free, c);
  }

  lemma StopKeepsLocks(s: Sys, j: nat, woken: Option<nat>, c: Cond)
    requires Locks(s, c) && Enabled(s, Stop(j, woken))
    ensures Locks(StopStep(s, j, woken), c)
  {
    match s.stoppers[j]
    case Before => StopperMoves(s.(cont := false), j, Cleared, c);
    case SendDone => StopReceiverKeepsLocks(s, j, woken, c);
    case RecvLocked => StopReceiverKeepsLocks(s, j, woken, c);
    case RecvSignalled => StopReceiverKeepsLocks(s, j, woken, c);
    case _ => StopSenderKeepsLocks(s, j, woken, c);
  }

  lemma LockTaken(s: Sys, i: nat, pc: WaiterPc, c: Cond)
    requires Locks(s, c) && i < |s.waiters| && Inside(pc) && LockOf(s, s.waiters[i].on) == Free
    ensures Locks(SetLock(SetPc(s, i, pc), s.waiters[i].on, ByWaiter(i)), c)
  {
  }

  lemma LockReleased(s: Sys, i: nat, pc: WaiterPc, c: Cond)
    requires Locks(s, c) && i < |s.waiters| && !Inside(pc) && Inside(s.waiters[i].pc)
    ensures Locks(SetLock(SetPc(s, i, pc), s.waiters[i].on, Free), c)
  {
  }

  lemma LoopKeepsLocks(s: Sys, a: Act, c: Cond)
    requires Locks(s, c) && Enabled(s, a) && (a.Enter? || a.Test? || a.WakeSpuriously?)
    ensures Locks(Next(s, a), c)
  {
    match a
    case Enter(i) => PcKeepsLocks(s, i, Arriving, c);
    case Test(i) => PcKeepsLocks(s, i, if s.cont && Blocked(s, s.waiters[i].on) then Deciding else Leaving, c);
    case WakeSpuriously(i) => PcKeepsLocks(s, i, Woken, c);
  }

  lemma LockingKeepsLocks(s: Sys, a: Act, c: Cond)
    requires Locks(s, c) && Enabled(s, a) && (a.Lock? || a.Sleep? || a.Unlock?)
    ensures Locks(Next(s, a), c)
  {
    match a
    case Lock(i) => LockTaken(s, i, Testing, c);
    case Sleep(i) => LockReleased(s, i, Asleep, c);
    case Unlock(i) => LockReleased(s, i, Outside, c);
  }

  lemma NotifyKeepsLocks(s: Sys, d: Cond, woken: Option<nat>, c: Cond)
    requires Locks(s, c) && Enabled(s, Notify(d, woken))
    ensures Locks(Next(s, Notify(d, woken)), c)
  {
    SignalKeepsLocks(s, d, woken, c);
  }

  lemma LocksKept(s: Sys, a: Act, c: Cond)
    requires Inv(s) && Enabled(s, a)
    ensures Locks(Next(s, a), c)
  {
    assert Locks(s, c);
    match a
    case Stop(j, woken) => StopKeepsLocks(s, j, woken, c);
    case Notify(d, woken) => NotifyKeepsLocks(s, d, woken, c);
    case Block(_) =>
    case Lock(i) => LockingKeepsLocks(s, a, c);
    case Sleep(i) => LockingKeepsLocks(s, a, c);
    case Unlock(i) => LockingKeepsLocks(s, a, c);
    case _ => LoopKeepsLocks(s, a, c);
  }

  lemma HeldKept(s: Sys, a: Act, c: Cond, on: seq<Cond>)
    requires Held(s, c) && Enabled(s, a) && WaitersAre(s, on)
    ensures Held(Next(s, a), c)
  {
    WaitersStay(s, a, on);
    var t := Next(s, a);
    if LockOf(t, c) == LockOf(s, c) && LockOf(s, c).ByWaiter? {
      var i := LockOf(s, c).i;
      assert t.waiters[i].on == on[i] == s.waiters[i].on;
    }
  }

  lemma PcKeepsQuiet(s: Sys, i: nat, pc: WaiterPc, c: Cond)
    requires Quiet(s, c) && i < |s.waiters|
    requires pc !in {Deciding, Asleep} || s.waiters[i].on != c || s.waiters[i].pc == Deciding
    ensures Quiet(SetPc(s, i, pc), c)
  {
  }

  lemma NobodyInside(s: Sys, c: Cond)
    requires Locks(s, c) && !LockOf(s, c).ByWaiter?
    ensures forall i :: 0 <= i < |s.waiters| ==> s.waiters[i] != Waiter(c, Deciding)
  {
  }

  /** One signal wakes all that sleep on its condition, since that is one thread at most. */
  lemma SignalQuiets(s: Sys, c: Cond, woken: Option<nat>, on: seq<Cond>)
    requires CanWake(s, c, woken) && WaitersAre(s, on) && OneWaiterEach(on)
    requires Locks(s, c) && !LockOf(s, c).ByWaiter?
    ensures Quiet(Signal(s, c, woken), c)
  {
    NobodyInside(s, c);
    var t := Signal(s, c, woken);
    forall i | 0 <= i < |t.waiters| ensures t.waiters[i] != Waiter(c, Deciding) && t.waiters[i] != Waiter(c, Asleep) {
      assert woken.Some? && i != woken.value ==> on[i] != on[woken.value];
    }
  }

  lemma SignalSpares(s: Sys, c: Cond, woken: Option<nat>, d: Cond)
    requires CanWake(s, c, woken) && Quiet(s, d)
    ensures Quiet(Signal(s, c, woken), d)
  {
    if woken.Some? {
      PcKeepsQuiet(s, woken.value, Woken, d);
    }
  }

  /** A discontinuer moves on without having signalled `c` anew. */
  lemma StopperKeepsRest(s: Sys, j: nat, p: StopperPc, c: Cond)
    requires Rested(s, c) && j < |s.stoppers| && (HasSignalled(p, c) ==> HasSignalled(s.stoppers[j], c))
    ensures Rested(s.(stoppers := s.stoppers[j := p]), c)
  {
    var t := s.(stoppers := s.stoppers[j := p]);
    assert Quiet(s, c) ==> Quiet(t, c);
    forall k | 0 <= k < |t.stoppers| && HasSignalled(t.stoppers[k], c) ensures Quiet(t, c) {
      assert HasSignalled(s.stoppers[k], c);
    }
  }

  /** It signals `d`. */
  lemma StopperSignalRests(s: Sys, j: nat, d: Cond, p: StopperPc, woken: Option<nat>, c: Cond, on: seq<Cond>)
    requires Rested(s, c) && Locks(s, d) && j < |s.stoppers| && LockOf(s, d) == ByStopper(j)
    requires CanWake(s, d, woken) && WaitersAre(s, on) && OneWaiterEach(on)
    requires c != d ==> HasSignalled(p, c) ==> HasSignalled(s.stoppers[j], c)
    ensures Rested(Signal(s, d, woken).(stoppers := s.stoppers[j := p]), c)
  {
    var g := Signal(s, d, woken);
    var t := g.(stoppers := s.stoppers[j := p]);
    if c == d {
      SignalQuiets(s, d, woken, on);
      assert Quiet(t, c);
    } else {
      if Quiet(s, c) {
        SignalSpares(s, d, woken, c);
      }
      assert Rested(g, c);
      StopperKeepsRest(g, j, p, c);
    }
  }

  lemma StopKeepsRest(s: Sys, j: nat, woken: Option<nat>, c: Cond, on: seq<Cond>)
    requires Inv(s) && Enabled(s, Stop(j, woken)) && WaitersAre(s, on) && OneWaiterEach(on)
    ensures Rested(StopStep(s, j, woken), c)
  {
    assert Rested(s, c) && Locks(s, SendComplete) && Locks(s, RecvQueue);
    match s.stoppers[j]
    case Before => StopperKeepsRest(s.(cont := false), j, Cleared, c);
    case Cleared => StopperKeepsRest(s.(sendLock := ByStopper(j)), j, SendLocked, c);
    case SendLocked => StopperSignalRests(s, j, SendComplete, SendSignalled, woken, c, on);
    case SendSignalled => StopperKeepsRest(s.(sendLock := Free), j, SendDone, c);
    case SendDone => StopperKeepsRest(s.(recvLock := ByStopper(j)), j, RecvLocked, c);
    case RecvLocked => StopperSignalRests(s, j, RecvQueue, RecvSignalled, woken, c, on);
    case RecvSignalled => StopperKeepsRest(s.(recvLock := Free), j, Done, c);
  }

  lemma NotifyKeepsRest(s: Sys, d: Cond, woken: Option<nat>, c: Cond, on: seq<Cond>)
    requires Rested(s, c) && Locks(s, d) && Enabled(s, Notify(d, woken)) && WaitersAre(s, on) && OneWaiterEach(on)
    ensures Rested(Next(s, Notify(d, woken)), c)
  {
    if c == d {
      SignalQuiets(s, d, woken, on);
      assert Quiet(Next(s, Notify(d, woken)), c);
    } else if Quiet(s, c) {
      SignalSpares(s, d, woken, c);
      assert Quiet(Next(s, Notify(d, woken)), c);
    }
  }

  lemma PcKeepsRest(s: Sys, i: nat, pc: WaiterPc, c: Cond)
    requires ContCleared(s) && Rested(s, c) && i < |s.waiters|
    requires pc == Asleep ==> s.waiters[i].pc == Deciding
    requires pc == Deciding ==> s.cont && Blocked(s, s.waiters[i].on)
    ensures Rested(SetPc(s, i, pc), c)
  {
    if Quiet(s, c) && !(pc == Deciding && s.waiters[i].on == c) {
      PcKeepsQuiet(s, i, pc, c);
    }
  }

  lemma LockKeepsRest(s: Sys, d: Cond, h: Holder, c: Cond)
    requires Rested(s, c)
    ensures Rested(SetLock(s, d, h), c)
  {
    assert Quiet(s, c) ==> Quiet(SetLock(s, d, h), c);
  }

  lemma RestKept(s: Sys, a: Act, c: Cond, on: seq<Cond>)
    requires Inv(s) && Enabled(s, a) && WaitersAre(s, on) && OneWaiterEach(on)
    ensures Rested(Next(s, a), c)
  {
    assert Rested(s, c);
    match a
    case Stop(j, woken) => StopKeepsRest(s, j, woken, c, on);
    case Notify(d, woken) =>
      assert Locks(s, d);
      NotifyKeepsRest(s, d, woken, c, on);
    case Lock(i) =>
      PcKeepsRest(s, i, Testing, c);
      LockKeepsRest(SetPc(s, i, Testing), s.waiters[i].on, ByWaiter(i), c);
    case Sleep(i) =>
      PcKeepsRest(s, i, Asleep, c);
      LockKeepsRest(SetPc(s, i, Asleep), s.waiters[i].on, Free, c);
    case Unlock(i) =>
      PcKeepsRest(s, i, Outside, c);
      LockKeepsRest(SetPc(s, i, Outside), s.waiters[i].on, Free, c);
    case Enter(i) => PcKeepsRest(s, i, Arriving, c);
    case Test(i) => PcKeepsRest(s, i, if s.cont && Blocked(s, s.waiters[i].on) then Deciding else Leaving, c);
    case WakeSpuriously(i) => PcKeepsRest(s, i, Woken, c);
    case Block(d) =>
      assert Quiet(s, c) ==> Quiet(Next(s, a), c);
  }

  lemma InvKept(s: Sys, a: Act, on: seq<Cond>)
    requires Inv(s) && Enabled(s, a) && WaitersAre(s, on) && OneWaiterEach(on)
    ensures Inv(Next(s, a))
  {
    ContKept(s, a);
    forall c ensures Locks(Next(s, a), c) && Held(Next(s, a), c) && Rested(Next(s, a), c) {
      LocksKept(s, a, c);
      HeldKept(s, a, c, on);
      RestKept(s, a, c, on);
    }
  }

  lemma {:induction false} RunInv(on: seq<Cond>, stoppers: nat, tr: seq<Sys>, acts: seq<Act>, k: nat)
    requires Run(on, stoppers, tr, acts) && OneWaiterEach(on) && k < |tr|
    ensures Inv(tr[k]) && WaitersAre(tr[k], on) && |tr[k].stoppers| == stoppers
  {
    if k > 0 {
      RunInv(on, stoppers, tr, acts, k - 1);
      InvKept(tr[k - 1], acts[k - 1], on);
      WaitersStay(tr[k - 1], acts[k - 1], on);
    }
  }

  // ----- why a thread leaves its loop

  lemma SignalOnlyWakes(s: Sys, c: Cond, woken: Option<nat>, i: nat)
    requires CanWake(s, c, woken) && i < |s.waiters|
    ensures var t := Signal(s, c, woken);
      i < |t.waiters| &&
      if woken == Some(i) then s.waiters[i].pc == Asleep && t.waiters[i].pc == Woken else t.waiters[i] == s.waiters[i]
  {
  }

  lemma StopOnlyWakes(s: Sys, j: nat, woken: Option<nat>, i: nat)
    requires Enabled(s, Stop(j, woken)) && i < |s.waiters|
    ensures var t := StopStep(s, j, woken);
      i < |t.waiters| &&
      (t.waiters[i] == s.waiters[i] || (s.waiters[i].pc == Asleep && t.waiters[i].pc == Woken))
  {
    if s.stoppers[j].SendLocked? {
      SignalOnlyWakes(s, SendComplete, woken, i);
    } else if s.stoppers[j].RecvLocked? {
      SignalOnlyWakes(s, RecvQueue, woken, i);
    }
  }

  /** A thread leaves its wait loop only from a test, made under its lock, that has found the
      session ended or nothing left to wait for; otherwise that test sends it to sleep. */
  lemma LeavesForReason(s: Sys, a: Act, i: nat)
    requires Enabled(s, a) && i < |s.waiters| && s.waiters[i].pc !in {Outside, Leaving}
    ensures i < |Next(s, a).waiters| && Next(s, a).waiters[i].pc != Outside
    ensures Next(s, a).waiters[i].pc == Leaving <==>
      s.waiters[i].pc == Testing && a == Test(i) && !(s.cont && Blocked(s, s.waiters[i].on))
    ensures Next(s, a).waiters[i].pc == Asleep ==>
      s.waiters[i].pc == Asleep || (a == Sleep(i) && s.waiters[i].pc == Deciding)
    ensures Next(s, a).waiters[i].pc == Deciding ==>
      s.waiters[i].pc == Deciding || (a == Test(i) && s.cont && Blocked(s, s.waiters[i].on))
  {
    match a
    case Stop(j, woken) => StopOnlyWakes(s, j, woken, i);
    case Notify(c, woken) => SignalOnlyWakes(s, c, woken, i);
    case _ =>
  }

  /** And it tests, decides and leaves only while it holds the lock of its condition. */
  lemma InsideHoldsLock(on: seq<Cond>, stoppers: nat, tr: seq<Sys>, acts: seq<Act>, k: nat, i: nat)
    requires Run(on, stoppers, tr, acts) && OneWaiterEach(on) && k < |tr| && i < |tr[k].waiters|
    ensures Inside(tr[k].waiters[i].pc) <==> LockOf(tr[k], tr[k].waiters[i].on) == ByWaiter(i)
  {
    RunInv(on, stoppers, tr, acts, k);
    assert Locks(tr[k], tr[k].waiters[i].on);
  }

  // ----- no thread sleeps through the end of the session

  /** This discontinuer has cleared `cont` and has still to signal `c`. */
  predicate Owes(p: StopperPc, c: Cond) {
    p != Before && !HasSignalled(p, c)
  }

  /** A thread asleep although the session has ended is about to be signalled. */
  ghost predicate NoLostWakeup(s: Sys) {
    forall i :: 0 <= i < |s.waiters| && s.waiters[i].pc == Asleep && !s.cont ==>
      exists j :: 0 <= j < |s.stoppers| && Owes(s.stoppers[j], s.waiters[i].on)
  }

  lemma InvGivesNoLostWakeup(s: Sys)
    requires Inv(s)
    ensures NoLostWakeup(s)
  {
    forall i | 0 <= i < |s.waiters| && s.waiters[i].pc == Asleep && !s.cont
      ensures exists j :: 0 <= j < |s.stoppers| && Owes(s.stoppers[j], s.waiters[i].on)
    {
      var c := s.waiters[i].on;
      assert Rested(s, c) && s.waiters[i] == Waiter(c, Asleep);
      var j :| 0 <= j < |s.stoppers| && s.stoppers[j] != Before;
      assert Owes(s.stoppers[j], c);
    }
  }

  predicate Awake(s: Sys) {
    !s.cont && forall i :: 0 <= i < |s.waiters| ==> s.waiters[i].pc !in {Deciding, Asleep}
  }

  lemma DoneMeansAwake(s: Sys, j: nat)
    requires Inv(s) && j < |s.stoppers| && s.stoppers[j] == Done
    ensures Awake(s)
  {
    assert Rested(s, SendComplete) && Rested(s, RecvQueue);
    assert HasSignalled(s.stoppers[j], SendComplete) && HasSignalled(s.stoppers[j], RecvQueue);
    forall i | 0 <= i < |s.waiters| ensures s.waiters[i].pc !in {Deciding, Asleep} {
      assert s.waiters[i] == Waiter(s.waiters[i].on, s.waiters[i].pc);
    }
  }

  lemma {:induction false} StaysDone(
    on: seq<Cond>, stoppers: nat, tr: seq<Sys>, acts: seq<Act>, j: nat, k: nat, m: nat)
    requires Run(on, stoppers, tr, acts)
    requires k <= m < |tr| && j < |tr[k].stoppers| && tr[k].stoppers[j] == Done
    ensures j < |tr[m].stoppers| && tr[m].stoppers[j] == Done
    decreases m
  {
    if k < m {
      StaysDone(on, stoppers, tr, acts, j, k, m - 1);
      DoneStaysDone(tr[m - 1], acts[m - 1], j);
    }
  }

  /** Once one discontinuer has been through, as the close path has before it joins the
      worker, no thread sleeps or is about to, then and ever after, and the session never
      lasts again. */
  lemma NobodySleepsAfterTeardown(
    on: seq<Cond>, stoppers: nat, tr: seq<Sys>, acts: seq<Act>, j: nat, k: nat, m: nat)
    requires Run(on, stoppers, tr, acts) && OneWaiterEach(on)
    requires k <= m < |tr| && j < |tr[k].stoppers| && tr[k].stoppers[j] == Done
    ensures Awake(tr[m])
  {
    RunInv(on, stoppers, tr, acts, m);
    StaysDone(on, stoppers, tr, acts, j, k, m);
    DoneMeansAwake(tr[m], j);
  }

  /** Thread i's own next step, or that of the thread that holds the lock it wants. */
  predicate Concerns(s: Sys, a: Act, i: nat)
    requires i < |s.waiters|
  {
    match a
    case Lock(k) => k == i
    case Test(k) => k == i || LockOf(s, s.waiters[i].on) == ByWaiter(k)
    case Unlock(k) => k == i || LockOf(s, s.waiters[i].on) == ByWaiter(k)
    case Stop(j, _) => LockOf(s, s.waiters[i].on) == ByStopper(j)
    case _ => false
  }

  /** How many steps a thread is from being out of its wait loop, when no test sends it to
      sleep. */
  function StepsOut(pc: WaiterPc): nat {
    match pc
    case Outside => 0
    case Leaving => 1
    case Testing => 2
    case _ => 3
  }

  /** How many steps the holder of a lock is from releasing it. */
  function StepsHeld(s: Sys, c: Cond): nat
    requires Held(s, c)
  {
    match LockOf(s, c)
    case Free => 0
    case ByWaiter(k) => StepsOut(s.waiters[k].pc)
    case ByStopper(j) => if s.stoppers[j].SendLocked? || s.stoppers[j].RecvLocked? then 2 else 1
  }

  /** The step brings thread i nearer to being out of its loop, or leaves it where it is and
      brings the lock that it wants nearer to being free. */
  predicate BringsOn(s: Sys, a: Act, i: nat)
    requires Enabled(s, a) && i < |s.waiters|
  {
    var t, c := Next(s, a), s.waiters[i].on;
    i < |t.waiters| && t.waiters[i].on == c && Held(s, c) && Held(t, c) &&
    (StepsOut(t.waiters[i].pc) < StepsOut(s.waiters[i].pc) ||
     (t.waiters[i].pc == s.waiters[i].pc && StepsHeld(t, c) < StepsHeld(s, c)))
  }

  lemma InsiderGoesOn(s: Sys, i: nat, k: nat) returns (a: Act)
    requires Inv(s) && Awake(s) && i < |s.waiters| && k < |s.waiters| && Inside(s.waiters[k].pc)
    requires k == i || LockOf(s, s.waiters[i].on) == ByWaiter(k)
    ensures Concerns(s, a, i) && Enabled(s, a) && BringsOn(s, a, i)
  {
    var c := s.waiters[i].on;
    assert Locks(s, c) && Held(s, c);
    a := if s.waiters[k].pc == Testing then Test(k) else Unlock(k);
  }

  lemma StopperGoesOn(s: Sys, i: nat, j: nat) returns (a: Act)
    requires Inv(s) && Awake(s) && i < |s.waiters| && LockOf(s, s.waiters[i].on) == ByStopper(j)
    ensures Concerns(s, a, i) && Enabled(s, a) && BringsOn(s, a, i)
  {
    var c := s.waiters[i].on;
    assert Locks(s, c) && Held(s, c) && CanWake(s, c, None);
    a := Stop(j, None);
  }

  lemma LockerGoesOn(s: Sys, i: nat) returns (a: Act)
    requires Inv(s) && Awake(s) && i < |s.waiters|
    requires s.waiters[i].pc.Arriving? || s.waiters[i].pc.Woken?
    requires LockOf(s, s.waiters[i].on) == Free
    ensures Concerns(s, a, i) && Enabled(s, a) && BringsOn(s, a, i)
  {
    assert Held(s, s.waiters[i].on);
    a := Lock(i);
  }

  lemma CanGoOn(s: Sys, i: nat) returns (a: Act)
    requires Inv(s) && Awake(s) && i < |s.waiters| && s.waiters[i].pc != Outside
    ensures Concerns(s, a, i) && Enabled(s, a) && BringsOn(s, a, i)
  {
    var c := s.waiters[i].on;
    assert Locks(s, c) && Held(s, c);
    if Inside(s.waiters[i].pc) {
      a := InsiderGoesOn(s, i, i);
    } else {
      match LockOf(s, c)
      case Free => a := LockerGoesOn(s, i);
      case ByWaiter(k) => a := InsiderGoesOn(s, i, k);
      case ByStopper(j) => a := StopperGoesOn(s, i, j);
    }
  }

  /** From then on nobody is stuck: while thread i is in its wait loop, it can take its own
      next step, or the holder of its lock can, and that brings it on. */
  lemma NobodyStuckAfterTeardown(
    on: seq<Cond>, stoppers: nat, tr: seq<Sys>, acts: seq<Act>, j: nat, k: nat, m: nat, i: nat)
    requires Run(on, stoppers, tr, acts) && OneWaiterEach(on)
    requires k <= m < |tr| && j < |tr[k].stoppers| && tr[k].stoppers[j] == Done
    requires i < |tr[m].waiters| && tr[m].waiters[i].pc != Outside
    ensures exists a :: Concerns(tr[m], a, i) && Enabled(tr[m], a) && BringsOn(tr[m], a, i)
  {
    NobodySleepsAfterTeardown(on, stoppers, tr, acts, j, k, m);
    RunInv(on, stoppers, tr, acts, m);
    var a := CanGoOn(tr[m], i);
  }

  lemma NeverFurther(s: Sys, a: Act, i: nat)
    requires Awake(s) && Enabled(s, a) && i < |s.waiters| && a != Enter(i)
    ensures i < |Next(s, a).waiters| && StepsOut(Next(s, a).waiters[i].pc) <= StepsOut(s.waiters[i].pc)
    ensures a == Lock(i) || a == Test(i) || a == Unlock(i) ==>
      StepsOut(Next(s, a).waiters[i].pc) < StepsOut(s.waiters[i].pc)
  {
  }

  /** And no step takes a thread that is in its loop further from being out of it: its own
      steps, of which there are three at most, each bring it nearer. */
  lemma LoopEndsAfterTeardown(
    on: seq<Cond>, stoppers: nat, tr: seq<Sys>, acts: seq<Act>, j: nat, k: nat, m: nat, i: nat)
    requires Run(on, stoppers, tr, acts) && OneWaiterEach(on)
    requires k <= m < |acts| && j < |tr[k].stoppers| && tr[k].stoppers[j] == Done
    requires i < |tr[m].waiters| && tr[m].waiters[i].pc != Outside
    ensures i < |tr[m + 1].waiters| && StepsOut(tr[m + 1].waiters[i].pc) <= StepsOut(tr[m].waiters[i].pc) <= 3
    ensures acts[m] == Lock(i) || acts[m] == Test(i) || acts[m] == Unlock(i) ==>
      StepsOut(tr[m + 1].waiters[i].pc) < StepsOut(tr[m].waiters[i].pc)
  {
    NobodySleepsAfterTeardown(on, stoppers, tr, acts, j, k, m);
    NeverFurther(tr[m], acts[m], i);
  }

  lemma DoneStaysDone(s: Sys, a: Act, j: nat)
    requires Enabled(s, a) && j < |s.stoppers| && s.stoppers[j] == Done
    ensures j < |Next(s, a).stoppers| && Next(s, a).stoppers[j] == Done
  {
  }

  // ----- with two threads on one condition a wake-up is lost

  lemma Extend(on: seq<Cond>, stoppers: nat, tr: seq<Sys>, acts: seq<Act>, a: Act)
    returns (tr': seq<Sys>, acts': seq<Act>, s: Sys)
    requires Run(on, stoppers, tr, acts) && Enabled(tr[|acts|], a)
    ensures Run(on, stoppers, tr', acts') && s == Next(tr[|acts|], a) == tr'[|acts'|]
  {
    s := Next(tr[|acts|], a);
    tr', acts' := tr + [s], acts + [a];
  }

  /** A waiter goes to sleep while nobody else holds its lock. */
  lemma GoesToSleep(on: seq<Cond>, stoppers: nat, tr: seq<Sys>, acts: seq<Act>, i: nat)
    returns (tr': seq<Sys>, acts': seq<Act>, s: Sys)
    requires Run(on, stoppers, tr, acts)
    requires var s0 := tr[|acts|];
      i < |s0.waiters| && s0.waiters[i].pc == Outside && s0.cont && Blocked(s0, s0.waiters[i].on) &&
      LockOf(s0, s0.waiters[i].on) == Free
    ensures Run(on, stoppers, tr', acts') && s == tr'[|acts'|] == SetPc(tr[|acts|], i, Asleep)
  {
    tr', acts', s := Extend(on, stoppers, tr, acts, Enter(i));
    tr', acts', s := Extend(on, stoppers, tr', acts', Lock(i));
    tr', acts', s := Extend(on, stoppers, tr', acts', Test(i));
    tr', acts', s := Extend(on, stoppers, tr', acts', Sleep(i));
    assert s == SetPc(tr[|acts|], i, Asleep);
  }

  /** The first discontinuer clears `cont` and signals the sender. */
  lemma StopsSender(on: seq<Cond>, stoppers: nat, tr: seq<Sys>, acts: seq<Act>, woken: Option<nat>)
    returns (tr': seq<Sys>, acts': seq<Act>, s: Sys)
    requires Run(on, stoppers, tr, acts)
    requires var s0 := tr[|acts|];
      s0.stoppers != [] && s0.stoppers[0] == Before && s0.sendLock == Free && CanWake(s0, SendComplete, woken)
    ensures Run(on, stoppers, tr', acts') && s == tr'[|acts'|]
    ensures var s0 := tr[|acts|];
      s == Signal(s0, SendComplete, woken).(cont := false, stoppers := s0.stoppers[0 := SendDone])
  {
    tr', acts', s := Extend(on, stoppers, tr, acts, Stop(0, None));
    tr', acts', s := Extend(on, stoppers, tr', acts', Stop(0, None));
    tr', acts', s := Extend(on, stoppers, tr', acts', Stop(0, woken));
    tr', acts', s := Extend(on, stoppers, tr', acts', Stop(0, None));
  }

  /** And then the receiver. */
  lemma StopsReceiver(on: seq<Cond>, stoppers: nat, tr: seq<Sys>, acts: seq<Act>, woken: Option<nat>)
    returns (tr': seq<Sys>, acts': seq<Act>, s: Sys)
    requires Run(on, stoppers, tr, acts)
    requires var s0 := tr[|acts|];
      s0.stoppers != [] && s0.stoppers[0] == SendDone && s0.recvLock == Free && CanWake(s0, RecvQueue, woken)
    ensures Run(on, stoppers, tr', acts') && s == tr'[|acts'|]
    ensures var s0 := tr[|acts|]; s == Signal(s0, RecvQueue, woken).(stoppers := s0.stoppers[0 := Done])
  {
    tr', acts', s := Extend(on, stoppers, tr, acts, Stop(0, None));
    tr', acts', s := Extend(on, stoppers, tr', acts', Stop(0, woken));
    tr', acts', s := Extend(on, stoppers, tr', acts', Stop(0, None));
  }

  /** A discontinuer goes through while waiters i and k, and no others, sleep on `c`: its
      one signal there wakes i. */
  lemma StopsOnce(on: seq<Cond>, stoppers: nat, tr: seq<Sys>, acts: seq<Act>, i: nat, k: nat)
    returns (tr': seq<Sys>, acts': seq<Act>, s: Sys)
    requires Run(on, stoppers, tr, acts) && stoppers > 0
    requires var s0 := tr[|acts|];
      i < k < |s0.waiters| && s0.waiters[i].on == s0.waiters[k].on && s0.stoppers == seq(stoppers, _ => Before) &&
      s0.sendLock == s0.recvLock == Free &&
      (forall n :: 0 <= n < |s0.waiters| ==> s0.waiters[n].pc == (if n == i || n == k then Asleep else Outside))
    ensures Run(on, stoppers, tr', acts') && s == tr'[|acts'|]
    ensures !s.cont && k < |s.waiters| && s.waiters[k].pc == Asleep
    ensures forall j :: 0 <= j < |s.stoppers| ==> s.stoppers[j] in {Before, Done}
  {
    var c := tr[|acts|].waiters[i].on;
    tr', acts', s := StopsSender(on, stoppers, tr, acts, if c.SendComplete? then Some(i) else None);
    tr', acts', s := StopsReceiver(on, stoppers, tr', acts', if c.RecvQueue? then Some(i) else None);
  }

  lemma WakeupLost(on: seq<Cond>, stoppers: nat, i: nat, k: nat)
    returns (tr: seq<Sys>, acts: seq<Act>)
    requires i < k < |on| && on[i] == on[k] && stoppers > 0
    ensures Run(on, stoppers, tr, acts) && !NoLostWakeup(tr[|acts|])
  {
    tr, acts := [Init(on, stoppers)], [];
    var s;
    tr, acts, s := GoesToSleep(on, stoppers, tr, acts, i);
    tr, acts, s := GoesToSleep(on, stoppers, tr, acts, k);
    tr, acts, s := StopsOnce(on, stoppers, tr, acts, i, k);
    assert s.waiters[k].pc == Asleep;
  }

  /** In every run no thread sleeps through the end of the session unnoticed, if and only if
      no two threads wait on one condition. */
  lemma NoLostWakeupExactlyWhen(on: seq<Cond>, stoppers: nat)
    requires stoppers > 0
    ensures OneWaiterEach(on) <==>
      forall tr, acts | Run(on, stoppers, tr, acts) :: NoLostWakeup(tr[|acts|])
  {
    if OneWaiterEach(on) {
      forall tr, acts | Run(on, stoppers, tr, acts) ensures NoLostWakeup(tr[|acts|]) {
        RunInv(on, stoppers, tr, acts, |acts|);
        InvGivesNoLostWakeup(tr[|acts|]);
      }
    } else {
      var i, k :| 0 <= i < k < |on| && on[i] == on[k];
      var tr, acts := WakeupLost(on, stoppers, i, k);
      assert Run(on, stoppers, tr, acts);
    }
  }

  /** With one thread on each condition, one that sleeps has something to wait for: neither
      the completion of a send nor the arrival of a frame is slept through. */
  lemma SleepersHaveReason(on: seq<Cond>, stoppers: nat, tr: seq<Sys>, acts: seq<Act>, i: nat)
    requires Run(on, stoppers, tr, acts) && OneWaiterEach(on)
    requires i < |tr[|acts|].waiters| && tr[|acts|].waiters[i].pc == Asleep
    ensures Blocked(tr[|acts|], tr[|acts|].waiters[i].on)
  {
    RunInv(on, stoppers, tr, acts, |acts|);
    var s := tr[|acts|];
    assert Rested(s, s.waiters[i].on);
    assert s.waiters[i] == Waiter(s.waiters[i].on, Asleep);
  }
}
