/** The condition-variable algorithm that Pre-built.2/README.CV lists for pthreads-win32: a gate
    semaphore (semBlockLock), a queue semaphore (semBlockQueue), a mutex (mtxUnblockLock) and
    three counters, driven by any number of threads that wait, time out, signal, broadcast and
    destroy.  Every read, write, semaphore operation and mutex operation on the shared variables
    is a step of its own; the one exception is the garbage collection of the two counters, which
    runs with both locks held.
 */
module ConditionVariable {
  import opened Wrappers

  type Tid = nat

  /** The outcome of the cleanup handler's test of nWaitersToUnblock (-1, 0 and 1). */
  datatype Last = NoSignal | NotLast | LastSignal

  /** What a thread does next. A `woken` cleanup follows a successful wait on the queue semaphore,
      any other cleanup a timeout, a cancellation or a failed release of the caller's mutex. */
  datatype PC =
    | Idle
    // ptw32_cond_timedwait
    | WGate                      // sem_wait(semBlockLock)
    | WLoad                      // read nWaitersBlocked
    | WStore(v: int)             // write nWaitersBlocked
    | WOpen                      // sem_post(semBlockLock)
    | WRelease                   // unlock the caller's mutex
    | WBlock                     // sem_timedwait(semBlockQueue)
    // ptw32_cond_wait_cleanup
    | CLock(woken: bool)         // lock mtxUnblockLock
    | CLoad(woken: bool)         // read nWaitersUnblocked
    | CStore(woken: bool, v: int)// write nWaitersUnblocked
    | CTest(woken: bool)         // compare nWaitersToUnblock with zero
    | CDec(woken: bool, v: int)  // write nWaitersToUnblock
    | CUnlock(e: Last)           // unlock mtxUnblockLock
    | CPost(e: Last)             // sem_post(semBlockLock), sem_post(semBlockQueue) or neither
    | CRelock                    // lock the caller's mutex
    // ptw32_cond_unblock
    | UGate(all: bool)           // sem_wait(semBlockLock)
    | ULock(all: bool)           // lock mtxUnblockLock
    | UAdjust(all: bool)         // collect the threads already unblocked
    | UDecide(all: bool)         // open a batch or not
    | UUnlockPost                // unlock mtxUnblockLock, batch open
    | UPost                      // sem_post(semBlockQueue)
    | UGatePost                  // sem_post(semBlockLock), nobody waits
    | UUnlock                    // unlock mtxUnblockLock, nobody waits
    // pthread_cond_destroy
    | DGate                      // sem_wait(semBlockLock)
    | DLock                      // lock mtxUnblockLock
    | DCheck                     // still waiters blocked?
    | DBusyPost                  // sem_post(semBlockLock), answer EBUSY
    | DBusyUnlock                // unlock mtxUnblockLock, answer EBUSY
    | DFree                      // destroy both semaphores and the mutex, free

  /** The condition variable itself. */
  datatype Shared = Shared(
    blocked: int,                // nWaitersBlocked
    unblocked: int,              // nWaitersUnblocked
    toUnblock: int,              // nWaitersToUnblock
    queue: nat,                  // semBlockQueue
    gate: nat,                   // semBlockLock
    mutex: Option<Tid>,          // owner of mtxUnblockLock
    freed: bool)

  datatype State = State(cv: Shared, pcs: map<Tid, PC>)

  /** `Proceed` takes the next step as written; the calls start an operation; `TimeOut` ends the
      wait on the queue semaphore without a token (timeout or cancellation); `ReleaseFails` is a
      caller's mutex that cannot be unlocked; `GateFails` a semBlockLock wait that returns an error. */
  datatype Action = Proceed | CallWait | CallUnblock(all: bool) | CallDestroy | TimeOut | ReleaseFails | GateFails

  function Init(): State {
    State(Shared(0, 0, 0, 0, 1, None, false), map[])
  }

  function At(s: State, t: Tid): PC {
    if t in s.pcs then s.pcs[t] else Idle
  }

  /** What a step leaves: where the thread goes on, and the shared variables. */
  datatype Move = Move(pc: PC, cv: Shared)

  /** One step of thread `t` standing at `pc`, or None where it cannot take that action now. */
  function Next(pc: PC, cv: Shared, t: Tid, a: Action): Option<Move> {
    if pc.Idle? then
      (match a
       case CallWait => Some(Move(WGate, cv))
       case CallUnblock(all) => Some(Move(UGate(all), cv))
       case CallDestroy => Some(Move(DGate, cv))
       case _ => None)
    else match a
    case Proceed => if pc.WGate? || pc.WLoad? || pc.WStore? || pc.WOpen? || pc.WRelease? || pc.WBlock? then WaitStep(pc, cv)
                    else if pc.UGate? || pc.ULock? || pc.UAdjust? || pc.UDecide? || pc.UUnlockPost? || pc.UPost? ||
                            pc.UGatePost? || pc.UUnlock? then UnblockStep(pc, cv, t)
                    else if pc.DGate? || pc.DLock? || pc.DCheck? || pc.DBusyPost? || pc.DBusyUnlock? || pc.DFree?
                    then DestroyStep(pc, cv, t)
                    else CleanupStep(pc, cv, t)
    case TimeOut => if pc.WBlock? then Some(Move(CLock(false), cv)) else None
    case ReleaseFails => if pc.WRelease? then Some(Move(CLock(false), cv)) else None
    case GateFails => if pc.WGate? || pc.UGate? || pc.DGate? then Some(Move(Idle, cv)) else None
    case _ => None
  }

  function PassGate(cv: Shared, next: PC): Option<Move> {
    if cv.gate == 0 then None else Some(Move(next, cv.(gate := cv.gate - 1)))
  }

  function Acquire(cv: Shared, t: Tid, next: PC): Option<Move> {
    if cv.mutex.Some? then None else Some(Move(next, cv.(mutex := Some(t))))
  }

  function Release(cv: Shared, next: PC): Option<Move> {
    Some(Move(next, cv.(mutex := None)))
  }

  /** ptw32_cond_timedwait */
  function WaitStep(pc: PC, cv: Shared): Option<Move> {
    match pc
    case WGate => PassGate(cv, WLoad)
    case WLoad => Some(Move(WStore(cv.blocked), cv))
    case WStore(v) => Some(Move(WOpen, cv.(blocked := v + 1)))
    case WOpen => Some(Move(WRelease, cv.(gate := cv.gate + 1)))
    case WRelease => Some(Move(WBlock, cv))
    case WBlock => if cv.queue == 0 then None else Some(Move(CLock(true), cv.(queue := cv.queue - 1)))
    case _ => None
  }

  /** ptw32_cond_wait_cleanup */
  function CleanupStep(pc: PC, cv: Shared, t: Tid): Option<Move> {
    match pc
    case CLock(w) => Acquire(cv, t, CLoad(w))
    case CLoad(w) => Some(Move(CStore(w, cv.unblocked), cv))
    case CStore(w, v) => Some(Move(CTest(w), cv.(unblocked := v + 1)))
    case CTest(w) => Some(Move(if cv.toUnblock == 0 then CUnlock(NoSignal) else CDec(w, cv.toUnblock), cv))
    case CDec(w, v) => Some(Move(CUnlock(if v - 1 == 0 then LastSignal else NotLast), cv.(toUnblock := v - 1)))
    case CUnlock(e) => Release(cv, CPost(e))
    case CPost(e) => Some(Move(CRelock, match e
      case NoSignal => cv
      case NotLast => cv.(queue := cv.queue + 1)
      case LastSignal => cv.(gate := cv.gate + 1)))
    case CRelock => Some(Move(Idle, cv))
    case _ => None
  }

  /** ptw32_cond_unblock */
  function UnblockStep(pc: PC, cv: Shared, t: Tid): Option<Move> {
    match pc
    case UGate(all) => PassGate(cv, ULock(all))
    case ULock(all) => Acquire(cv, t, UAdjust(all))
    case UAdjust(all) =>
      Some(Move(UDecide(all),
                if cv.unblocked != 0 then cv.(blocked := cv.blocked - cv.unblocked, unblocked := 0) else cv))
    case UDecide(all) =>
      Some(if cv.blocked > 0 then Move(UUnlockPost, cv.(toUnblock := if all then cv.blocked else 1))
           else Move(UGatePost, cv))
    case UUnlockPost => Release(cv, UPost)
    case UPost => Some(Move(Idle, cv.(queue := cv.queue + 1)))
    case UGatePost => Some(Move(UUnlock, cv.(gate := cv.gate + 1)))
    case UUnlock => Release(cv, Idle)
    case _ => None
  }

  /** pthread_cond_destroy */
  function DestroyStep(pc: PC, cv: Shared, t: Tid): Option<Move> {
    match pc
    case DGate => PassGate(cv, DLock)
    case DLock => Acquire(cv, t, DCheck)
    case DCheck => Some(Move(if cv.blocked - cv.unblocked > 0 then DBusyPost else DFree, cv))
    case DBusyPost => Some(Move(DBusyUnlock, cv.(gate := cv.gate + 1)))
    case DBusyUnlock => Release(cv, Idle)
    case DFree => Some(Move(Idle, cv.(mutex := None, freed := true)))
    case _ => None
  }

  function Step(s: State, t: Tid, a: Action): Option<State> {
    if s.cv.freed then None else
    match Next(At(s, t), s.cv, t, a)
    case Some(m) => Some(State(m.cv, s.pcs[t := m.pc]))
    case None => None
  }

  predicate NeedsMutex(pc: PC) {
    pc.CLock? || pc.ULock? || pc.DLock?
  }

  /** Has called in and waits for the gate semaphore. */
  predicate AtGate(pc: PC) {
    pc.WGate? || pc.UGate? || pc.DGate?
  }

  /** Where a thread has to wait, and which steps it can take where: an operation goes on unless it waits
      for the gate, the mutex or a token; only the wait for a token ends without one, only the release of
      the caller's mutex and the wait for the gate fail. */
  lemma WhoWaits(pc: PC, cv: Shared, t: Tid)
    ensures Next(pc, cv, t, Proceed).Some? <==>
      !pc.Idle? && (AtGate(pc) ==> cv.gate > 0) && (NeedsMutex(pc) ==> cv.mutex == None) && (pc.WBlock? ==> cv.queue > 0)
    ensures Next(pc, cv, t, TimeOut).Some? <==> pc.WBlock?
    ensures Next(pc, cv, t, ReleaseFails).Some? <==> pc.WRelease?
    ensures Next(pc, cv, t, GateFails).Some? <==> AtGate(pc)
    ensures forall a :: IsCall(a) ==> (Next(pc, cv, t, a).Some? <==> pc.Idle?)
  {}

  predicate IsCall(a: Action) {
    a.CallWait? || a.CallUnblock? || a.CallDestroy?
  }

  // ----- Counting threads by where they stand -----

  ghost function Where(pcs: map<Tid, PC>, p: PC -> bool): set<Tid> {
    set t | t in pcs && p(pcs[t])
  }

  ghost function Num(s: State, p: PC -> bool): nat {
    |Where(s.pcs, p)|
  }

  /** Counted in nWaitersBlocked and not yet in nWaitersUnblocked. */
  predicate Registered(pc: PC) {
    pc.WOpen? || pc.WRelease? || pc.WBlock? || pc.CLock? || pc.CLoad? || pc.CStore?
  }

  /** Counted as blocked and not yet through the cleanup handler's bookkeeping. */
  predicate Uncleared(pc: PC) {
    Registered(pc) || pc.CTest? || pc.CDec?
  }

  /** Owns the gate semaphore. */
  predicate Holder(pc: PC) {
    pc.WLoad? || pc.WStore? || pc.WOpen? || pc.ULock? || pc.UAdjust? || pc.UDecide? || pc.UGatePost? ||
    pc.DLock? || pc.DCheck? || pc.DBusyPost? || pc.DFree? ||
    ((pc.CUnlock? || pc.CPost?) && pc.e == LastSignal)
  }

  /** Took a token from the queue semaphore and is on its way to the decrement, or is on its way
      to post the queue semaphore. */
  predicate Carrier(pc: PC) {
    ((pc.CLock? || pc.CLoad? || pc.CStore? || pc.CTest? || pc.CDec?) && pc.woken) ||
    pc.UUnlockPost? || pc.UPost? || ((pc.CUnlock? || pc.CPost?) && pc.e == NotLast)
  }

  /** Cleans up without having been woken. */
  predicate Unwoken(pc: PC) {
    (pc.CLock? || pc.CLoad? || pc.CStore? || pc.CTest? || pc.CDec?) && !pc.woken
  }

  predicate InMutex(pc: PC) {
    pc.CLoad? || pc.CStore? || pc.CTest? || pc.CDec? || pc.CUnlock? || pc.UAdjust? || pc.UDecide? ||
    pc.UUnlockPost? || pc.UGatePost? || pc.UUnlock? || pc.DCheck? || pc.DBusyPost? || pc.DBusyUnlock? || pc.DFree?
  }

  function One(b: bool): nat { if b then 1 else 0 }

  lemma WhereUpdate(s: State, t: Tid, pc: PC, p: PC -> bool)
    requires !p(Idle)
    ensures |Where(s.pcs[t := pc], p)| == Num(s, p) - One(p(At(s, t))) + One(p(pc))
  {
    var before, after := Where(s.pcs, p), Where(s.pcs[t := pc], p);
    if p(pc) {
      assert after == before + {t};
    } else {
      assert after == before - {t};
    }
  }

  lemma {:induction false} Smaller(a: set<Tid>, b: set<Tid>)
    requires a <= b
    ensures |a| <= |b|
  {
    if a == {} {
    } else {
      var x :| x in a;
      Smaller(a - {x}, b - {x});
    }
  }

  lemma OneThread(s: State, t: Tid, p: PC -> bool)
    requires p(At(s, t)) && !p(Idle)
    ensures Num(s, p) >= 1
  {
    Smaller({t}, Where(s.pcs, p));
  }

  lemma TwoThreads(s: State, t: Tid, u: Tid, p: PC -> bool)
    requires t != u && p(At(s, t)) && p(At(s, u)) && !p(Idle)
    ensures Num(s, p) >= 2
  {
    Smaller({t, u}, Where(s.pcs, p));
  }

  // ----- The invariant -----

  /** mtxUnblockLock belongs to the one thread inside its critical section, if any. */
  ghost predicate MutexOwned(s: State) {
    forall t: Tid :: InMutex(At(s, t)) <==> s.cv.mutex == Some(t)
  }

  /** What a thread remembers of a shared counter is still its value. */
  predicate Current(pc: PC, cv: Shared) {
    && (pc.WStore? ==> pc.v == cv.blocked)
    && (pc.CStore? ==> pc.v == cv.unblocked)
    && (pc.CDec? ==> pc.v == cv.toUnblock > 0)
    && (pc.UDecide? ==> cv.unblocked == 0)
    && (pc.DFree? ==> cv.blocked - cv.unblocked <= 0)
  }

  ghost predicate ReadsCurrent(s: State) {
    forall t: Tid :: Current(At(s, t), s.cv)
  }

  /** The gate is open, or exactly one of a thread and an unfinished batch keeps it closed. */
  ghost predicate GateExclusive(s: State) {
    s.cv.gate + Num(s, Holder) + One(s.cv.toUnblock > 0) == 1
  }

  ghost predicate Conserved(s: State) {
    s.cv.blocked - s.cv.unblocked == Num(s, Registered)
  }

  /** An open batch has enough waiters to serve, and a token on its way to one of them. */
  ghost predicate NotStranded(s: State) {
    && 0 <= s.cv.toUnblock <= Num(s, Uncleared)
    && (s.cv.toUnblock > 0 ==> s.cv.queue + Num(s, Carrier) > 0)
  }

  ghost predicate Inv(s: State) {
    MutexOwned(s) && ReadsCurrent(s) && GateExclusive(s) && Conserved(s) && NotStranded(s)
  }

  lemma InitInv()
    ensures Inv(Init())
  {
    var s := Init();
    assert Where(s.pcs, Holder) == {} == Where(s.pcs, Registered);
    assert Where(s.pcs, Uncleared) == {} == Where(s.pcs, Carrier);
  }

  // ----- What a step does to the thread that takes it and to the shared variables -----

  /** The mutex changes hands only through a thread that takes or drops it. */
  lemma NextMutex(pc: PC, cv: Shared, t: Tid, a: Action)
    requires Next(pc, cv, t, a).Some? && (InMutex(pc) <==> cv.mutex == Some(t))
    ensures var m := Next(pc, cv, t, a).value;
      && (InMutex(m.pc) <==> m.cv.mutex == Some(t))
      && (m.cv.mutex == cv.mutex || (cv.mutex == None && m.cv.mutex == Some(t)) || (cv.mutex == Some(t) && m.cv.mutex == None))
  {}

  /** Only the owner of mtxUnblockLock changes what it guards, and only the owner of the gate changes
      nWaitersBlocked. */
  lemma NextGuarded(pc: PC, cv: Shared, t: Tid, a: Action)
    requires Next(pc, cv, t, a).Some?
    ensures var m := Next(pc, cv, t, a).value;
      && (m.cv.unblocked != cv.unblocked || m.cv.toUnblock != cv.toUnblock ==> InMutex(pc))
      && (m.cv.blocked != cv.blocked ==> Holder(pc))
  {}

  lemma NextCurrent(pc: PC, cv: Shared, t: Tid, a: Action)
    requires Next(pc, cv, t, a).Some? && Current(pc, cv) && cv.toUnblock >= 0
    ensures var m := Next(pc, cv, t, a).value; Current(m.pc, m.cv) && m.cv.toUnblock >= 0
  {}

  lemma NextGate(pc: PC, cv: Shared, t: Tid, a: Action)
    requires Next(pc, cv, t, a).Some? && Current(pc, cv) && cv.toUnblock >= 0
    requires !pc.DFree? && (pc.UDecide? ==> cv.toUnblock == 0)
    ensures var m := Next(pc, cv, t, a).value;
      m.cv.gate + One(Holder(m.pc)) + One(m.cv.toUnblock > 0) == cv.gate + One(Holder(pc)) + One(cv.toUnblock > 0)
  {}

  lemma NextConserved(pc: PC, cv: Shared, t: Tid, a: Action)
    requires Next(pc, cv, t, a).Some? && Current(pc, cv)
    ensures var m := Next(pc, cv, t, a).value;
      m.cv.blocked - m.cv.unblocked - One(Registered(m.pc)) == cv.blocked - cv.unblocked - One(Registered(pc))
  {}

  /** Outside the opening of a batch, nWaitersToUnblock falls exactly when a waiter passes the
      bookkeeping with a batch open. */
  lemma NextServes(pc: PC, cv: Shared, t: Tid, a: Action)
    requires Next(pc, cv, t, a).Some? && Current(pc, cv) && cv.toUnblock >= 0 && !pc.UDecide?
    ensures var m := Next(pc, cv, t, a).value;
      m.cv.toUnblock - cv.toUnblock ==
        if cv.toUnblock == 0 then 0 else One(Uncleared(m.pc)) - One(Uncleared(pc)) - One(pc.WStore?)
  {}

  /** Tokens plus carriers drop only when a thread passes the bookkeeping, as the last one of the
      batch or with no batch open. */
  lemma NextTokens(pc: PC, cv: Shared, t: Tid, a: Action)
    requires Next(pc, cv, t, a).Some? && Current(pc, cv) && cv.toUnblock >= 0 && !pc.UDecide?
    ensures var m := Next(pc, cv, t, a).value;
      && (m.cv.toUnblock > 0 ==> m.cv.queue + One(Carrier(m.pc)) >= cv.queue + One(Carrier(pc)))
      && (Unwoken(pc) || m.cv.queue + One(Carrier(m.pc)) <= cv.queue + One(Carrier(pc)))
      && (m.cv.queue + One(Carrier(m.pc)) != cv.queue + One(Carrier(pc)) ==> pc.CTest? || pc.CDec?)
  {}

  // ----- Every step keeps the invariant -----

  lemma StepMutex(s: State, t: Tid, a: Action, s': State)
    requires Inv(s) && Step(s, t, a) == Some(s')
    ensures MutexOwned(s')
  {
    NextMutex(At(s, t), s.cv, t, a);
    forall u: Tid ensures InMutex(At(s', u)) <==> s'.cv.mutex == Some(u) {
      assert InMutex(At(s, u)) <==> s.cv.mutex == Some(u);
    }
  }

  /** What another thread remembers stays current. */
  lemma OtherReads(s: State, t: Tid, a: Action, u: Tid)
    requires Inv(s) && Next(At(s, t), s.cv, t, a).Some? && u != t
    ensures Current(At(s, u), Next(At(s, t), s.cv, t, a).value.cv)
  {
    NextGuarded(At(s, t), s.cv, t, a);
    assert InMutex(At(s, u)) <==> s.cv.mutex == Some(u);
    assert InMutex(At(s, t)) <==> s.cv.mutex == Some(t);
    assert Current(At(s, u), s.cv);
    if Holder(At(s, u)) && Holder(At(s, t)) {
      TwoThreads(s, t, u, Holder);
    }
  }

  lemma StepReads(s: State, t: Tid, a: Action, s': State)
    requires Inv(s) && Step(s, t, a) == Some(s')
    ensures ReadsCurrent(s')
  {
    assert Current(At(s, t), s.cv);
    NextCurrent(At(s, t), s.cv, t, a);
    forall u: Tid ensures Current(At(s', u), s'.cv) {
      if u != t {
        OtherReads(s, t, a, u);
      }
    }
  }

  lemma StepGate(s: State, t: Tid, a: Action, s': State)
    requires Inv(s) && Step(s, t, a) == Some(s') && !s'.cv.freed
    ensures GateExclusive(s')
  {
    if Holder(At(s, t)) {
      OneThread(s, t, Holder);
    }
    NextGate(At(s, t), s.cv, t, a);
    WhereUpdate(s, t, At(s', t), Holder);
  }

  lemma StepConserved(s: State, t: Tid, a: Action, s': State)
    requires Inv(s) && Step(s, t, a) == Some(s')
    ensures Conserved(s')
  {
    NextConserved(At(s, t), s.cv, t, a);
    WhereUpdate(s, t, At(s', t), Registered);
  }

  /** With mtxUnblockLock in other hands nobody is halfway through the bookkeeping. */
  lemma MutexSettles(s: State, t: Tid)
    requires MutexOwned(s) && s.cv.mutex == Some(t) && !Uncleared(At(s, t))
    ensures Where(s.pcs, Uncleared) == Where(s.pcs, Registered)
  {
    forall u | u in s.pcs ensures Uncleared(s.pcs[u]) == Registered(s.pcs[u]) {
      assert InMutex(At(s, u)) <==> s.cv.mutex == Some(u);
    }
  }

  lemma StepNotStranded(s: State, t: Tid, a: Action, s': State)
    requires Inv(s) && Step(s, t, a) == Some(s')
    ensures NotStranded(s')
  {
    var pc := At(s, t);
    WhereUpdate(s, t, At(s', t), Uncleared);
    WhereUpdate(s, t, At(s', t), Carrier);
    if pc.UDecide? {
      assert InMutex(pc) <==> s.cv.mutex == Some(t);
      MutexSettles(s, t);
      if At(s', t).UUnlockPost? {
        OneThread(s', t, Carrier);
      }
    } else {
      NextServes(pc, s.cv, t, a);
      NextTokens(pc, s.cv, t, a);
      NextCurrent(pc, s.cv, t, a);
      if pc.WStore? {
        OneThread(s, t, Holder);
      }
    }
  }

  lemma StepInv(s: State, t: Tid, a: Action, s': State)
    requires Inv(s) && Step(s, t, a) == Some(s')
    ensures s'.cv.freed || Inv(s')
  {
    StepMutex(s, t, a, s');
    StepReads(s, t, a, s');
    if !s'.cv.freed {
      StepGate(s, t, a, s');
    }
    StepConserved(s, t, a, s');
    StepNotStranded(s, t, a, s');
  }

  // ----- Runs -----

  datatype Event = Event(t: Tid, a: Action)

  /** `states` is what the threads of `events`, interleaved in that order, lead to. */
  ghost predicate Run(states: seq<State>, events: seq<Event>) {
    && |states| == |events| + 1
    && states[0] == Init()
    && forall i: nat :: i < |events| ==> StepAt(states, events, i)
  }

  ghost predicate StepAt(states: seq<State>, events: seq<Event>, i: nat)
    requires i < |events| < |states|
  {
    Step(states[i], events[i].t, events[i].a) == Some(states[i + 1])
  }

  lemma {:induction false} RunInv(states: seq<State>, events: seq<Event>, i: nat)
    requires Run(states, events) && i < |states|
    ensures states[i].cv.freed || Inv(states[i])
    ensures i < |events| ==> Inv(states[i])
  {
    if i == 0 {
      InitInv();
    } else {
      RunInv(states, events, i - 1);
      assert StepAt(states, events, i - 1);
      StepInv(states[i - 1], events[i - 1].t, events[i - 1].a, states[i]);
    }
    if i < |events| {
      assert StepAt(states, events, i);
    }
  }

  /** Gate exclusion: two threads never own the gate together, nobody owns it while a batch is
      open, and a thread about to open a batch finds the last one finished. */
  lemma GateExclusion(states: seq<State>, events: seq<Event>, i: nat, t: Tid, u: Tid)
    requires Run(states, events) && i < |states| && !states[i].cv.freed && Holder(At(states[i], t))
    ensures Holder(At(states[i], u)) ==> t == u
    ensures states[i].cv.gate == 0 && states[i].cv.toUnblock == 0
  {
    RunInv(states, events, i);
    OneThread(states[i], t, Holder);
    if t != u && Holder(At(states[i], u)) {
      TwoThreads(states[i], t, u, Holder);
    }
  }

  /** Conservation: the two running counters differ by the threads counted but not cleaned up. */
  lemma WaiterConservation(states: seq<State>, events: seq<Event>, i: nat)
    requires Run(states, events) && i < |states| && !states[i].cv.freed
    ensures states[i].cv.blocked - states[i].cv.unblocked == |set t | t in states[i].pcs && Registered(states[i].pcs[t])|
  {
    RunInv(states, events, i);
    assert Where(states[i].pcs, Registered) == set t | t in states[i].pcs && Registered(states[i].pcs[t]);
  }

  /** pthread_cond_destroy goes on to free exactly when no thread is counted and uncleaned. */
  lemma DestroyAnswers(states: seq<State>, events: seq<Event>, i: nat)
    requires Run(states, events) && i < |events| && At(states[i], events[i].t) == DCheck
    ensures At(states[i + 1], events[i].t) ==
      if exists u :: Registered(At(states[i], u)) then DBusyPost else DFree
  {
    RunInv(states, events, i);
    assert StepAt(states, events, i);
    var s := states[i];
    if u :| Registered(At(s, u)) {
      OneThread(s, u, Registered);
    } else {
      assert Where(s.pcs, Registered) == {} by {
        forall u | u in s.pcs ensures !Registered(s.pcs[u]) {
          assert !Registered(At(s, u));
        }
      }
    }
  }

  /** No stranded signal: an open batch still has that many waiters to serve, and either a token
      waits in the queue semaphore or a thread carries one. */
  lemma NoStrandedSignal(states: seq<State>, events: seq<Event>, i: nat)
    requires Run(states, events) && i < |states| && !states[i].cv.freed && states[i].cv.toUnblock > 0
    ensures states[i].cv.toUnblock <= Num(states[i], Uncleared)
    ensures states[i].cv.queue > 0 || exists t :: Carrier(At(states[i], t))
  {
    RunInv(states, events, i);
    if states[i].cv.queue == 0 {
      var t :| t in Where(states[i].pcs, Carrier);
      assert Carrier(At(states[i], t));
    }
  }

  // ----- The ledger of tokens -----

  /** A waiter that gave up is about to use up a signal meant for another. */
  predicate TakesOver(pc: PC) {
    pc.CDec? && !pc.woken
  }

  /** A waiter that was woken finds no signal left. */
  predicate FindsNone(pc: PC, cv: Shared) {
    pc.CTest? && pc.woken && cv.toUnblock == 0
  }

  /** How many of the first i steps took over a signal. */
  function TakenOver(states: seq<State>, events: seq<Event>, i: nat): nat
    requires i < |states| == |events| + 1
  {
    if i == 0 then 0 else TakenOver(states, events, i - 1) + One(TakesOver(At(states[i - 1], events[i - 1].t)))
  }

  /** How many of the first i steps were wakeups that found no signal. */
  function Wasted(states: seq<State>, events: seq<Event>, i: nat): nat
    requires i < |states| == |events| + 1
  {
    if i == 0 then 0 else
    Wasted(states, events, i - 1) + One(FindsNone(At(states[i - 1], events[i - 1].t), states[i - 1].cv))
  }

  /** Tokens are made by opening a batch and used up by finishing it, except that a signal taken over
      leaves one too many, and a wakeup without a signal uses one up. */
  lemma NextLedger(pc: PC, cv: Shared, t: Tid, a: Action)
    requires Next(pc, cv, t, a).Some? && Current(pc, cv) && cv.toUnblock >= 0
    requires pc.UDecide? ==> cv.toUnblock == 0
    ensures var m := Next(pc, cv, t, a).value;
      m.cv.queue + One(Carrier(m.pc)) - One(m.cv.toUnblock > 0) + One(FindsNone(pc, cv)) ==
      cv.queue + One(Carrier(pc)) - One(cv.toUnblock > 0) + One(TakesOver(pc))
  {}

  lemma LedgerStep(s: State, t: Tid, a: Action, s': State)
    requires Inv(s) && Step(s, t, a) == Some(s')
    ensures s'.cv.queue + Num(s', Carrier) - One(s'.cv.toUnblock > 0) + One(FindsNone(At(s, t), s.cv)) ==
            s.cv.queue + Num(s, Carrier) - One(s.cv.toUnblock > 0) + One(TakesOver(At(s, t)))
  {
    assert Current(At(s, t), s.cv);
    if Holder(At(s, t)) {
      OneThread(s, t, Holder);
    }
    NextLedger(At(s, t), s.cv, t, a);
    WhereUpdate(s, t, At(s', t), Carrier);
  }

  /** In every state of every run, timeouts included: the tokens in the queue semaphore and on their
      way are one for an open batch, plus the signals taken over, minus the wakeups without one. */
  lemma {:induction false} TokenLedger(states: seq<State>, events: seq<Event>, i: nat)
    requires Run(states, events) && i < |states|
    ensures states[i].cv.queue + Num(states[i], Carrier) + Wasted(states, events, i) ==
            One(states[i].cv.toUnblock > 0) + TakenOver(states, events, i)
  {
    if i == 0 {
      assert Where(states[0].pcs, Carrier) == {};
    } else {
      TokenLedger(states, events, i - 1);
      RunInv(states, events, i - 1);
      assert StepAt(states, events, i - 1);
      LedgerStep(states[i - 1], events[i - 1].t, events[i - 1].a, states[i]);
    }
  }

  /** A wakeup without a signal is always paid for by a signal taken over before. */
  lemma WastedWasTaken(states: seq<State>, events: seq<Event>, i: nat)
    requires Run(states, events) && i < |states|
    ensures Wasted(states, events, i) <= TakenOver(states, events, i)
  {
    TokenLedger(states, events, i);
    RunInv(states, events, i);
    if states[i].cv.freed {
      TokenLedger(states, events, i - 1);
      RunInv(states, events, i - 1);
      assert StepAt(states, events, i - 1);
    }
  }

  /** Exactly one token per open batch, none otherwise. */
  ghost predicate OneToken(s: State) {
    s.cv.queue + Num(s, Carrier) == One(s.cv.toUnblock > 0)
  }

  /** There is one token per open batch exactly while every signal taken over has been made up for. */
  lemma OneTokenExactly(states: seq<State>, events: seq<Event>, i: nat)
    requires Run(states, events) && i < |states|
    ensures OneToken(states[i]) <==> TakenOver(states, events, i) == Wasted(states, events, i)
  {
    TokenLedger(states, events, i);
  }

  /** While every signal taken over has been made up for, no wakeup is spurious: a woken thread finds
      a batch open and serves it. */
  lemma NoSpuriousWakeup(states: seq<State>, events: seq<Event>, i: nat, t: Tid)
    requires Run(states, events) && i < |states| && TakenOver(states, events, i) == Wasted(states, events, i)
    requires At(states[i], t).CTest? && At(states[i], t).woken
    ensures states[i].cv.toUnblock > 0
  {
    TokenLedger(states, events, i);
    OneThread(states[i], t, Carrier);
    RunInv(states, events, i);
  }

  // ----- Runs in which every wait ends by a signal -----

  predicate Untimed(events: seq<Event>) {
    forall i :: 0 <= i < |events| ==> events[i].a != TimeOut && events[i].a != ReleaseFails
  }

  lemma NextUntimed(pc: PC, cv: Shared, t: Tid, a: Action)
    requires Next(pc, cv, t, a).Some? && a != TimeOut && a != ReleaseFails && !Unwoken(pc)
    ensures !Unwoken(Next(pc, cv, t, a).value.pc)
  {}

  /** Without timeouts nobody gives up, so no signal is taken over and no wakeup is without one. */
  lemma {:induction false} UntimedTakesNone(states: seq<State>, events: seq<Event>, i: nat)
    requires Run(states, events) && Untimed(events) && i < |states|
    ensures Num(states[i], Unwoken) == 0 && TakenOver(states, events, i) == 0
  {
    if i == 0 {
      assert Where(states[0].pcs, Unwoken) == {};
    } else {
      UntimedTakesNone(states, events, i - 1);
      assert StepAt(states, events, i - 1);
      var s, e := states[i - 1], events[i - 1];
      if Unwoken(At(s, e.t)) {
        OneThread(s, e.t, Unwoken);
      }
      NextUntimed(At(s, e.t), s.cv, e.t, e.a);
      WhereUpdate(s, e.t, At(states[i], e.t), Unwoken);
    }
  }

  /** So without timeouts there is always one token per open batch, and every waiter that reaches the
      test was woken and finds a signal. */
  lemma OneTokenAlways(states: seq<State>, events: seq<Event>, i: nat)
    requires Run(states, events) && Untimed(events) && i < |states|
    ensures OneToken(states[i]) && Num(states[i], Unwoken) == 0
    ensures forall t: Tid :: At(states[i], t).CTest? ==> At(states[i], t).woken && states[i].cv.toUnblock > 0
  {
    UntimedTakesNone(states, events, i);
    WastedWasTaken(states, events, i);
    OneTokenExactly(states, events, i);
    forall t: Tid | At(states[i], t).CTest?
      ensures At(states[i], t).woken && states[i].cv.toUnblock > 0
    {
      if Unwoken(At(states[i], t)) {
        OneThread(states[i], t, Unwoken);
      } else {
        NoSpuriousWakeup(states, events, i, t);
      }
    }
  }

  // ----- Destruction -----

  /** Has no access to the condition variable left. */
  predicate Outside(pc: PC) {
    pc.Idle? || pc.CRelock? || pc == CPost(NoSignal)
  }

  /** Is about to post the queue semaphore. */
  predicate Posting(pc: PC) {
    pc.UPost? || pc == CPost(NotLast)
  }

  /** While a thread frees the condition variable, every other thread is done with it, waits for its
      gate, or still owes the queue semaphore a post. */
  lemma DestroyLeaves(states: seq<State>, events: seq<Event>, i: nat, t: Tid, u: Tid)
    requires Run(states, events) && i < |states| && !states[i].cv.freed && At(states[i], t) == DFree && u != t
    ensures Outside(At(states[i], u)) || AtGate(At(states[i], u)) || Posting(At(states[i], u))
  {
    RunInv(states, events, i);
    GateExclusion(states, events, i, t, u);
    var s := states[i];
    assert InMutex(At(s, u)) <==> s.cv.mutex == Some(u);
    assert InMutex(At(s, t)) <==> s.cv.mutex == Some(t);
    assert Current(At(s, t), s.cv);
    if Registered(At(s, u)) {
      OneThread(s, u, Registered);
    }
  }

  /** Nobody owes a post exactly if the tokens left in the queue semaphore and the wakeups without a
      signal make up for all signals taken over. */
  lemma NonePosting(states: seq<State>, events: seq<Event>, i: nat, t: Tid)
    requires Run(states, events) && i < |states| && !states[i].cv.freed && At(states[i], t) == DFree
    ensures (forall u: Tid :: u != t ==> !Posting(At(states[i], u))) <==>
            states[i].cv.queue + Wasted(states, events, i) == TakenOver(states, events, i)
  {
    var s := states[i];
    GateExclusion(states, events, i, t, t);
    TokenLedger(states, events, i);
    forall u: Tid | u != t ensures Posting(At(s, u)) <==> Carrier(At(s, u)) {
      DestroyLeaves(states, events, i, t, u);
    }
    if Num(s, Carrier) == 0 {
      forall u: Tid | u != t ensures !Posting(At(s, u)) {
        if Carrier(At(s, u)) {
          OneThread(s, u, Carrier);
        }
      }
    } else {
      var u :| u in Where(s.pcs, Carrier);
      assert Carrier(At(s, u)) && !Carrier(At(s, t));
    }
  }

  /** When destruction is safe: every other thread is done with the condition variable exactly if the
      ledger is even, so that nobody owes a post, and nobody waits for the gate that is being freed. */
  lemma DestroySafeExactly(states: seq<State>, events: seq<Event>, i: nat, t: Tid)
    requires Run(states, events) && i < |states| && !states[i].cv.freed && At(states[i], t) == DFree
    ensures (forall u: Tid :: u != t ==> Outside(At(states[i], u))) <==>
            states[i].cv.queue + Wasted(states, events, i) == TakenOver(states, events, i) &&
            forall u: Tid :: u != t ==> !AtGate(At(states[i], u))
  {
    NonePosting(states, events, i, t);
    forall u: Tid | u != t
      ensures Outside(At(states[i], u)) <==> !AtGate(At(states[i], u)) && !Posting(At(states[i], u))
    {
      DestroyLeaves(states, events, i, t, u);
    }
  }

  /** In particular it is safe, be there timeouts or not, if every signal taken over has been made up
      for and no other thread waits for the gate. */
  lemma DestroySafe(states: seq<State>, events: seq<Event>, i: nat, t: Tid, u: Tid)
    requires Run(states, events) && i < |states| && !states[i].cv.freed
    requires TakenOver(states, events, i) == Wasted(states, events, i)
    requires At(states[i], t) == DFree && u != t
    requires forall v: Tid :: v != t ==> !AtGate(At(states[i], v))
    ensures Outside(At(states[i], u))
  {
    GateExclusion(states, events, i, t, t);
    OneTokenExactly(states, events, i);
    DestroySafeExactly(states, events, i, t);
  }

  /** Freeing is the last thing that happens: a state is freed exactly if the step before was the freeing. */
  lemma FreedLast(states: seq<State>, events: seq<Event>, i: nat)
    requires Run(states, events) && i < |states|
    ensures states[i].cv.freed <==> i > 0 && At(states[i - 1], events[i - 1].t) == DFree
    ensures states[i].cv.freed ==> i == |events|
  {
    if i > 0 {
      assert StepAt(states, events, i - 1);
      NextFrees(At(states[i - 1], events[i - 1].t), states[i - 1].cv, events[i - 1].t, events[i - 1].a);
    }
    if i < |events| {
      assert StepAt(states, events, i);
    }
  }

  lemma NextFrees(pc: PC, cv: Shared, t: Tid, a: Action)
    requires Next(pc, cv, t, a).Some?
    ensures Next(pc, cv, t, a).value.cv.freed <==> cv.freed || pc == DFree
  {}

  lemma Extend(states: seq<State>, events: seq<Event>, t: Tid, a: Action, cv: Shared, pc: PC)
    returns (states': seq<State>, events': seq<Event>)
    requires Run(states, events) && !states[|events|].cv.freed
    requires Next(At(states[|events|], t), states[|events|].cv, t, a) == Some(Move(pc, cv))
    ensures Run(states', events')
    ensures states'[|events'|] == State(cv, states[|events|].pcs[t := pc])
    ensures Untimed(events) && a != TimeOut && a != ReleaseFails ==> Untimed(events')
    ensures states <= states' && events' == events + [Event(t, a)]
  {
    states', events' := states + [State(cv, states[|events|].pcs[t := pc])], events + [Event(t, a)];
    forall i: nat | i < |events'| ensures StepAt(states', events', i) {
      if i < |events| {
        assert StepAt(states, events, i);
      }
    }
  }

  lemma WaiterBlocks() returns (ss: seq<State>, es: seq<Event>)
    ensures Run(ss, es) && ss[|es|] == State(Shared(1, 0, 0, 0, 1, None, false), map[0 := WBlock])
  {
    ss, es := [Init()], [];
    ss, es := Extend(ss, es, 0, CallWait, Shared(0, 0, 0, 0, 1, None, false), WGate);
    ss, es := Extend(ss, es, 0, Proceed, Shared(0, 0, 0, 0, 0, None, false), WLoad);
    ss, es := Extend(ss, es, 0, Proceed, Shared(0, 0, 0, 0, 0, None, false), WStore(0));
    ss, es := Extend(ss, es, 0, Proceed, Shared(1, 0, 0, 0, 0, None, false), WOpen);
    ss, es := Extend(ss, es, 0, Proceed, Shared(1, 0, 0, 0, 1, None, false), WRelease);
    ss, es := Extend(ss, es, 0, Proceed, Shared(1, 0, 0, 0, 1, None, false), WBlock);
  }

  lemma SignallerDecides() returns (ss: seq<State>, es: seq<Event>)
    ensures Run(ss, es) && ss[|es|] == State(Shared(1, 0, 0, 0, 0, Some(1), false), map[0 := WBlock, 1 := UDecide(false)])
  {
    ss, es := WaiterBlocks();
    ss, es := Extend(ss, es, 1, CallUnblock(false), Shared(1, 0, 0, 0, 1, None, false), UGate(false));
    ss, es := Extend(ss, es, 1, Proceed, Shared(1, 0, 0, 0, 0, None, false), ULock(false));
    ss, es := Extend(ss, es, 1, Proceed, Shared(1, 0, 0, 0, 0, Some(1), false), UAdjust(false));
    ss, es := Extend(ss, es, 1, Proceed, Shared(1, 0, 0, 0, 0, Some(1), false), UDecide(false));
  }

  lemma SignallerPauses() returns (ss: seq<State>, es: seq<Event>)
    ensures Run(ss, es) && ss[|es|] == State(Shared(1, 0, 1, 0, 0, None, false), map[0 := WBlock, 1 := UPost])
  {
    ss, es := SignallerDecides();
    ss, es := Extend(ss, es, 1, Proceed, Shared(1, 0, 1, 0, 0, Some(1), false), UUnlockPost);
    ss, es := Extend(ss, es, 1, Proceed, Shared(1, 0, 1, 0, 0, None, false), UPost);
  }

  lemma WaiterTimesOut() returns (ss: seq<State>, es: seq<Event>)
    ensures Run(ss, es) && ss[|es|] == State(Shared(1, 1, 1, 0, 0, Some(0), false), map[0 := CTest(false), 1 := UPost])
  {
    ss, es := SignallerPauses();
    ss, es := Extend(ss, es, 0, TimeOut, Shared(1, 0, 1, 0, 0, None, false), CLock(false));
    ss, es := Extend(ss, es, 0, Proceed, Shared(1, 0, 1, 0, 0, Some(0), false), CLoad(false));
    ss, es := Extend(ss, es, 0, Proceed, Shared(1, 0, 1, 0, 0, Some(0), false), CStore(false, 0));
    ss, es := Extend(ss, es, 0, Proceed, Shared(1, 1, 1, 0, 0, Some(0), false), CTest(false));
  }

  lemma WaiterReopens() returns (ss: seq<State>, es: seq<Event>)
    ensures Run(ss, es) && ss[|es|] == State(Shared(1, 1, 0, 0, 1, None, false), map[0 := CRelock, 1 := UPost])
  {
    ss, es := WaiterTimesOut();
    ss, es := Extend(ss, es, 0, Proceed, Shared(1, 1, 1, 0, 0, Some(0), false), CDec(false, 1));
    ss, es := Extend(ss, es, 0, Proceed, Shared(1, 1, 0, 0, 0, Some(0), false), CUnlock(LastSignal));
    ss, es := Extend(ss, es, 0, Proceed, Shared(1, 1, 0, 0, 0, None, false), CPost(LastSignal));
    ss, es := Extend(ss, es, 0, Proceed, Shared(1, 1, 0, 0, 1, None, false), CRelock);
  }

  /** With a signal taken over it can be unsafe: a waiter times out before the signaller has posted the queue
      semaphore, and the condition variable can be freed under the signaller. */
  lemma DestroyRace() returns (ss: seq<State>, es: seq<Event>)
    ensures Run(ss, es) && At(ss[|es|], 2) == DFree && At(ss[|es|], 1) == UPost
  {
    ss, es := WaiterReopens();
    ss, es := Extend(ss, es, 2, CallDestroy, Shared(1, 1, 0, 0, 1, None, false), DGate);
    ss, es := Extend(ss, es, 2, Proceed, Shared(1, 1, 0, 0, 0, None, false), DLock);
    ss, es := Extend(ss, es, 2, Proceed, Shared(1, 1, 0, 0, 0, Some(2), false), DCheck);
    ss, es := Extend(ss, es, 2, Proceed, Shared(1, 1, 0, 0, 0, Some(2), false), DFree);
  }

  /** Nor is it safe without timeouts: a signaller has called in and waits for the gate semaphore, which
      the destroying thread holds and frees. */
  lemma GateRace() returns (ss: seq<State>, es: seq<Event>)
    ensures Run(ss, es) && Untimed(es) && At(ss[|es|], 2) == DFree && At(ss[|es|], 1) == UGate(false)
    ensures ss[|es|].cv.queue + Wasted(ss, es, |es|) == TakenOver(ss, es, |es|)
  {
    ss, es := [Init()], [];
    ss, es := Extend(ss, es, 1, CallUnblock(false), Shared(0, 0, 0, 0, 1, None, false), UGate(false));
    ss, es := Extend(ss, es, 2, CallDestroy, Shared(0, 0, 0, 0, 1, None, false), DGate);
    ss, es := Extend(ss, es, 2, Proceed, Shared(0, 0, 0, 0, 0, None, false), DLock);
    ss, es := Extend(ss, es, 2, Proceed, Shared(0, 0, 0, 0, 0, Some(2), false), DCheck);
    ss, es := Extend(ss, es, 2, Proceed, Shared(0, 0, 0, 0, 0, Some(2), false), DFree);
    UntimedTakesNone(ss, es, |es|);
    WastedWasTaken(ss, es, |es|);
  }

  // ----- Batches -----

  /** The last waiter of a batch, on its way to reopen the gate. */
  predicate LastOut(pc: PC) {
    (pc.CUnlock? || pc.CPost?) && pc.e == LastSignal
  }

  /** Nobody but a batch owns the gate: it is open for signals or its last waiter is leaving. */
  ghost predicate InBatch(s: State) {
    s.cv.gate == 0 && forall t: Tid :: Holder(At(s, t)) ==> LastOut(At(s, t))
  }

  /** Step i opens a batch and the gate stays closed up to state j. */
  ghost predicate Batch(states: seq<State>, events: seq<Event>, i: nat, j: nat) {
    && Run(states, events) && i < j < |events|
    && At(states[i], events[i].t).UDecide? && states[i].cv.blocked > 0
    && forall k :: i < k <= j ==> states[k].cv.gate == 0
  }

  /** Inside a call of signal or broadcast, or back from it. */
  predicate Unblocking(pc: PC, all: bool) {
    match pc
    case UGate(b) => b == all
    case ULock(b) => b == all
    case UAdjust(b) => b == all
    case UDecide(b) => b == all
    case _ => pc.Idle? || pc.UUnlockPost? || pc.UPost? || pc.UGatePost? || pc.UUnlock?
  }

  /** What thread t does at step i belongs to its call of signal or broadcast (all) at step c. */
  ghost predicate Called(events: seq<Event>, c: nat, t: Tid, all: bool, i: nat) {
    && c < i <= |events| && events[c] == Event(t, CallUnblock(all))
    && forall n :: c < n < i && events[n].t == t ==> !IsCall(events[n].a)
  }

  lemma NextUnblocking(pc: PC, cv: Shared, t: Tid, a: Action, all: bool)
    requires Next(pc, cv, t, a).Some? && (if pc.Idle? then a == CallUnblock(all) else Unblocking(pc, all))
    ensures Unblocking(Next(pc, cv, t, a).value.pc, all)
  {}

  /** A call of signal decides like a signal, and a call of broadcast like a broadcast. */
  lemma {:induction false} CallDecides(states: seq<State>, events: seq<Event>, c: nat, t: Tid, all: bool, i: nat)
    requires Run(states, events) && Called(events, c, t, all, i)
    ensures Unblocking(At(states[i], t), all)
    ensures At(states[i], t).UDecide? ==> At(states[i], t).all == all
    decreases i
  {
    var s, e := states[i - 1], events[i - 1];
    assert StepAt(states, events, i - 1);
    WhoWaits(At(s, e.t), s.cv, e.t);
    if c < i - 1 {
      CallDecides(states, events, c, t, all, i - 1);
    }
    if e.t == t {
      NextUnblocking(At(s, t), s.cv, t, e.a, all);
    }
  }

  lemma NextInside(pc: PC, cv: Shared, t: Tid, a: Action, all: bool)
    requires Next(pc, cv, t, a).Some? && !Next(pc, cv, t, a).value.pc.Idle? && Unblocking(Next(pc, cv, t, a).value.pc, all)
    ensures if pc.Idle? then a.CallUnblock? else Unblocking(pc, all) || Unblocking(pc, !all)
    ensures !pc.Idle? ==> !IsCall(a)
  {}

  /** Whoever is inside signal or broadcast has called it. */
  lemma {:induction false} WasCalled(states: seq<State>, events: seq<Event>, i: nat, t: Tid, all: bool)
    returns (c: nat, b: bool)
    requires Run(states, events) && i < |states|
    requires !At(states[i], t).Idle? && Unblocking(At(states[i], t), all)
    ensures Called(events, c, t, b, i)
    decreases i
  {
    var s, e := states[i - 1], events[i - 1];
    assert StepAt(states, events, i - 1);
    if e.t != t {
      c, b := WasCalled(states, events, i - 1, t, all);
    } else {
      NextInside(At(s, t), s.cv, t, e.a, all);
      if At(s, t).Idle? {
        c, b := i - 1, e.a.all;
      } else {
        c, b := WasCalled(states, events, i - 1, t, if Unblocking(At(s, t), all) then all else !all);
      }
    }
  }

  /** The call of signal or broadcast at step c opens a batch at step i, and the gate stays closed up to j. */
  ghost predicate BatchOf(states: seq<State>, events: seq<Event>, c: nat, all: bool, i: nat, j: nat) {
    Batch(states, events, i, j) && Called(events, c, events[i].t, all, i)
  }

  /** Every batch is opened by a call. */
  lemma BatchWasCalled(states: seq<State>, events: seq<Event>, i: nat, j: nat) returns (c: nat, all: bool)
    requires Batch(states, events, i, j)
    ensures BatchOf(states, events, c, all, i, j)
  {
    c, all := WasCalled(states, events, i, events[i].t, At(states[i], events[i].t).all);
  }

  function Decrements(states: seq<State>, events: seq<Event>, i: nat, j: nat): nat
    requires i <= j < |states| == |events| + 1
    decreases j
  {
    if i == j then 0
    else Decrements(states, events, i, j - 1) + One(At(states[j - 1], events[j - 1].t).CDec?)
  }

  lemma NextInBatch(pc: PC, cv: Shared, t: Tid, a: Action)
    requires Next(pc, cv, t, a).Some? && Current(pc, cv) && cv.toUnblock >= 0 && cv.gate == 0
    requires Holder(pc) ==> LastOut(pc)
    ensures var m := Next(pc, cv, t, a).value;
      && (Holder(m.pc) ==> LastOut(m.pc))
      && (Uncleared(m.pc) ==> Uncleared(pc))
      && m.cv.toUnblock == cv.toUnblock - One(pc.CDec?)
      && (Uncleared(pc) && !Uncleared(m.pc) ==> pc.CDec? || (pc.CTest? && cv.toUnblock == 0))
      && (m.cv.gate > 0 ==> pc == CPost(LastSignal))
      && m.cv.blocked == cv.blocked
  {}

  /** Right after the opening the waiters to serve are waiters counted at the opening. */
  lemma BatchOpens(states: seq<State>, events: seq<Event>, i: nat)
    requires Batch(states, events, i, i + 1)
    ensures InBatch(states[i + 1]) && states[i + 1].cv.blocked == states[i].cv.blocked
    ensures states[i + 1].cv.toUnblock == if At(states[i], events[i].t).all then states[i].cv.blocked else 1
    ensures Where(states[i + 1].pcs, Uncleared) == Where(states[i].pcs, Registered)
    ensures states[i].cv.blocked == Num(states[i], Registered)
  {
    var s, s', t := states[i], states[i + 1], events[i].t;
    RunInv(states, events, i);
    assert StepAt(states, events, i);
    assert InMutex(At(s, t)) <==> s.cv.mutex == Some(t);
    assert Current(At(s, t), s.cv);
    MutexSettles(s, t);
    assert Where(s'.pcs, Uncleared) == Where(s.pcs, Uncleared);
    forall u: Tid | Holder(At(s', u)) ensures LastOut(At(s', u)) {
      GateExclusion(states, events, i, t, u);
    }
  }

  lemma BatchStep(s: State, t: Tid, a: Action, s': State)
    requires Inv(s) && InBatch(s) && Step(s, t, a) == Some(s') && s'.cv.gate == 0
    ensures InBatch(s') && s'.cv.blocked == s.cv.blocked
    ensures s'.cv.toUnblock == s.cv.toUnblock - One(At(s, t).CDec?)
    ensures Where(s'.pcs, Uncleared) <= Where(s.pcs, Uncleared)
  {
    NextInBatch(At(s, t), s.cv, t, a);
    forall u: Tid | Holder(At(s', u)) ensures LastOut(At(s', u)) {
      assert Holder(At(s, u)) ==> LastOut(At(s, u));
    }
    forall u | u in Where(s'.pcs, Uncleared) ensures u in Where(s.pcs, Uncleared) {
      assert Uncleared(At(s', u)) && (u == t || At(s', u) == At(s, u));
    }
  }

  /** What holds at a state s of a batch of n waiters that was opened at s0, after d decrements. */
  ghost predicate During(s0: State, n: int, s: State, d: nat) {
    && InBatch(s) && s.cv.blocked == s0.cv.blocked && s.cv.toUnblock + d == n
    && Where(s.pcs, Uncleared) <= Where(s0.pcs, Registered)
  }

  lemma DuringStep(s0: State, n: int, s: State, d: nat, t: Tid, a: Action, s': State)
    requires During(s0, n, s, d)
    requires Inv(s) && Step(s, t, a) == Some(s') && s'.cv.gate == 0
    ensures During(s0, n, s', d + One(At(s, t).CDec?))
  {
    BatchStep(s, t, a, s');
  }

  lemma DuringFurther(states: seq<State>, events: seq<Event>, i: nat, k: nat, n: int, d: nat)
    requires Batch(states, events, i, k) && i + 1 < k && During(states[i], n, states[k - 1], d)
    ensures During(states[i], n, states[k], d + One(At(states[k - 1], events[k - 1].t).CDec?))
  {
    RunInv(states, events, k - 1);
    assert StepAt(states, events, k - 1);
    DuringStep(states[i], n, states[k - 1], d, events[k - 1].t, events[k - 1].a, states[k]);
  }

  lemma {:induction false} BatchInv(states: seq<State>, events: seq<Event>, i: nat, k: nat)
    requires Batch(states, events, i, k)
    ensures During(states[i], states[i + 1].cv.toUnblock, states[k], Decrements(states, events, i + 1, k))
    decreases k
  {
    if k == i + 1 {
      BatchOpens(states, events, i);
    } else {
      BatchInv(states, events, i, k - 1);
      DuringFurther(states, events, i, k, states[i + 1].cv.toUnblock, Decrements(states, events, i + 1, k - 1));
    }
  }

  /** A batch stays exactly as long as it takes to serve what was called: when the gate reopens,
      one waiter has passed the decrement for a signal, and every counted waiter for a broadcast. */
  lemma BatchServesItsNumber(states: seq<State>, events: seq<Event>, c: nat, all: bool, i: nat, j: nat)
    requires BatchOf(states, events, c, all, i, j) && states[j + 1].cv.gate > 0
    ensures At(states[j], events[j].t) == CPost(LastSignal)
    ensures Decrements(states, events, i + 1, j) == if all then Num(states[i], Registered) else 1
  {
    CallDecides(states, events, c, events[i].t, all, i);
    BatchOpens(states, events, i);
    BatchInv(states, events, i, j);
    RunInv(states, events, j);
    var s, t := states[j], events[j].t;
    assert StepAt(states, events, j);
    NextInBatch(At(s, t), s.cv, t, events[j].a);
    OneThread(s, t, Holder);
  }

  // ----- Broadcasts -----

  ghost predicate Broadcast(states: seq<State>, events: seq<Event>, i: nat, j: nat) {
    Batch(states, events, i, j) && At(states[i], events[i].t).all
  }

  lemma BroadcastStep(s: State, t: Tid, a: Action, s': State)
    requires Inv(s) && InBatch(s) && Step(s, t, a) == Some(s') && s.cv.toUnblock == Num(s, Uncleared)
    ensures s'.cv.toUnblock == Num(s', Uncleared)
  {
    NextInBatch(At(s, t), s.cv, t, a);
    WhereUpdate(s, t, At(s', t), Uncleared);
    if Uncleared(At(s, t)) {
      OneThread(s, t, Uncleared);
    }
    assert Current(At(s, t), s.cv);
  }

  /** While a broadcast is in progress no waiter joins those counted, and nWaitersToUnblock is the
      number of them that have not yet been through the bookkeeping. */
  lemma {:induction false} BroadcastInProgress(states: seq<State>, events: seq<Event>, i: nat, k: nat)
    requires Broadcast(states, events, i, k)
    ensures Where(states[k].pcs, Uncleared) <= Where(states[i].pcs, Registered)
    ensures states[k].cv.toUnblock == Num(states[k], Uncleared)
    ensures states[k].cv.blocked == states[i].cv.blocked
    decreases k
  {
    BatchInv(states, events, i, k);
    if k == i + 1 {
      BatchOpens(states, events, i);
    } else {
      BroadcastInProgress(states, events, i, k - 1);
      BatchInv(states, events, i, k - 1);
      RunInv(states, events, k - 1);
      assert StepAt(states, events, k - 1);
      BroadcastStep(states[k - 1], events[k - 1].t, events[k - 1].a, states[k]);
    }
  }

  /** When the gate reopens after a call of broadcast at step c, every waiter counted when it opened its
      batch has been through the bookkeeping, each by a decrement of its own during the broadcast. */
  lemma BroadcastComplete(states: seq<State>, events: seq<Event>, c: nat, i: nat, j: nat, u: Tid)
    requires BatchOf(states, events, c, true, i, j) && states[j + 1].cv.gate > 0
    requires Registered(At(states[i], u))
    ensures !Uncleared(At(states[j], u))
    ensures exists k :: i < k < j && events[k].t == u && At(states[k], u).CDec?
  {
    CallDecides(states, events, c, events[i].t, true, i);
    BroadcastInProgress(states, events, i, j);
    BatchServesItsNumber(states, events, c, true, i, j);
    BatchInv(states, events, i, j);
    RunInv(states, events, j);
    OneThread(states[j], events[j].t, Holder);
    if Uncleared(At(states[j], u)) {
      OneThread(states[j], u, Uncleared);
    }
    BatchOpens(states, events, i);
    assert u in Where(states[i + 1].pcs, Uncleared);
    LeavesByDecrement(states, events, i, j, u);
  }

  lemma {:induction false} LeavesByDecrement(states: seq<State>, events: seq<Event>, i: nat, k: nat, u: Tid)
    requires Broadcast(states, events, i, k)
    requires Uncleared(At(states[i + 1], u)) && !Uncleared(At(states[k], u))
    ensures exists n :: i < n < k && events[n].t == u && At(states[n], u).CDec?
    decreases k
  {
    var s, t, a := states[k - 1], events[k - 1].t, events[k - 1].a;
    if !Uncleared(At(s, u)) {
      LeavesByDecrement(states, events, i, k - 1, u);
    } else {
      BroadcastInProgress(states, events, i, k - 1);
      BatchInv(states, events, i, k - 1);
      RunInv(states, events, k - 1);
      OneThread(s, u, Uncleared);
      assert StepAt(states, events, k - 1);
      NextInBatch(At(s, t), s.cv, t, a);
    }
  }

  // ----- A broadcast to two waiters -----

  lemma TwoBlock() returns (ss: seq<State>, es: seq<Event>)
    ensures Run(ss, es) && ss[|es|] == State(Shared(2, 0, 0, 0, 1, None, false), map[0 := WBlock, 1 := WBlock])
  {
    ss, es := WaiterBlocks();
    ss, es := Extend(ss, es, 1, CallWait, Shared(1, 0, 0, 0, 1, None, false), WGate);
    ss, es := Extend(ss, es, 1, Proceed, Shared(1, 0, 0, 0, 0, None, false), WLoad);
    ss, es := Extend(ss, es, 1, Proceed, Shared(1, 0, 0, 0, 0, None, false), WStore(1));
    ss, es := Extend(ss, es, 1, Proceed, Shared(2, 0, 0, 0, 0, None, false), WOpen);
    ss, es := Extend(ss, es, 1, Proceed, Shared(2, 0, 0, 0, 1, None, false), WRelease);
    ss, es := Extend(ss, es, 1, Proceed, Shared(2, 0, 0, 0, 1, None, false), WBlock);
  }

  lemma TwoAreCalled() returns (ss: seq<State>, es: seq<Event>, c: nat)
    ensures Run(ss, es) && Called(es, c, 2, true, |es|)
    ensures ss[|es|] == State(Shared(2, 0, 0, 0, 0, Some(2), false), map[0 := WBlock, 1 := WBlock, 2 := UDecide(true)])
  {
    ss, es := TwoBlock();
    c := |es|;
    ss, es := Extend(ss, es, 2, CallUnblock(true), Shared(2, 0, 0, 0, 1, None, false), UGate(true));
    ss, es := Extend(ss, es, 2, Proceed, Shared(2, 0, 0, 0, 0, None, false), ULock(true));
    ss, es := Extend(ss, es, 2, Proceed, Shared(2, 0, 0, 0, 0, Some(2), false), UAdjust(true));
    ss, es := Extend(ss, es, 2, Proceed, Shared(2, 0, 0, 0, 0, Some(2), false), UDecide(true));
  }

  /** The call at step c decided at step i on a broadcast to two blocked waiters, and the gate is still closed. */
  ghost predicate Opened(ss: seq<State>, es: seq<Event>, c: nat, i: nat) {
    && Run(ss, es) && i < |es| && es[i].t == 2 && Called(es, c, 2, true, i)
    && At(ss[i], 2).UDecide? && ss[i].cv.blocked == 2 && At(ss[i], 0) == WBlock == At(ss[i], 1)
    && forall k :: i < k <= |es| ==> ss[k].cv.gate == 0
  }

  lemma ExtendOpen(ss: seq<State>, es: seq<Event>, c: nat, i: nat, t: Tid, a: Action, cv: Shared, pc: PC)
    returns (ss': seq<State>, es': seq<Event>)
    requires Opened(ss, es, c, i) && !ss[|es|].cv.freed && cv.gate == 0
    requires Next(At(ss[|es|], t), ss[|es|].cv, t, a) == Some(Move(pc, cv))
    ensures Opened(ss', es', c, i) && ss'[|es'|] == State(cv, ss[|es|].pcs[t := pc])
  {
    ss', es' := Extend(ss, es, t, a, cv, pc);
    forall k | i < k <= |es'| ensures ss'[k].cv.gate == 0 {
      assert k <= |es| ==> ss'[k] == ss[k];
    }
  }

  lemma TwoAreOwed() returns (ss: seq<State>, es: seq<Event>, c: nat, i: nat)
    ensures Opened(ss, es, c, i)
    ensures ss[|es|] == State(Shared(2, 0, 2, 0, 0, Some(2), false), map[0 := WBlock, 1 := WBlock, 2 := UUnlockPost])
  {
    ss, es, c := TwoAreCalled();
    i := |es|;
    ss, es := Extend(ss, es, 2, Proceed, Shared(2, 0, 2, 0, 0, Some(2), false), UUnlockPost);
  }

  lemma TwoArePosted() returns (ss: seq<State>, es: seq<Event>, c: nat, i: nat)
    ensures Opened(ss, es, c, i)
    ensures ss[|es|] == State(Shared(2, 0, 2, 1, 0, None, false), map[0 := WBlock, 1 := WBlock, 2 := Idle])
  {
    ss, es, c, i := TwoAreOwed();
    ss, es := ExtendOpen(ss, es, c, i, 2, Proceed, Shared(2, 0, 2, 0, 0, None, false), UPost);
    ss, es := ExtendOpen(ss, es, c, i, 2, Proceed, Shared(2, 0, 2, 1, 0, None, false), Idle);
  }

  lemma FirstWakes() returns (ss: seq<State>, es: seq<Event>, c: nat, i: nat)
    ensures Opened(ss, es, c, i)
    ensures ss[|es|] == State(Shared(2, 1, 2, 0, 0, Some(0), false), map[0 := CTest(true), 1 := WBlock, 2 := Idle])
  {
    ss, es, c, i := TwoArePosted();
    ss, es := ExtendOpen(ss, es, c, i, 0, Proceed, Shared(2, 0, 2, 0, 0, None, false), CLock(true));
    ss, es := ExtendOpen(ss, es, c, i, 0, Proceed, Shared(2, 0, 2, 0, 0, Some(0), false), CLoad(true));
    ss, es := ExtendOpen(ss, es, c, i, 0, Proceed, Shared(2, 0, 2, 0, 0, Some(0), false), CStore(true, 0));
    ss, es := ExtendOpen(ss, es, c, i, 0, Proceed, Shared(2, 1, 2, 0, 0, Some(0), false), CTest(true));
  }

  lemma FirstLeaves() returns (ss: seq<State>, es: seq<Event>, c: nat, i: nat)
    ensures Opened(ss, es, c, i)
    ensures ss[|es|] == State(Shared(2, 1, 1, 1, 0, None, false), map[0 := CRelock, 1 := WBlock, 2 := Idle])
  {
    ss, es, c, i := FirstWakes();
    ss, es := ExtendOpen(ss, es, c, i, 0, Proceed, Shared(2, 1, 2, 0, 0, Some(0), false), CDec(true, 2));
    ss, es := ExtendOpen(ss, es, c, i, 0, Proceed, Shared(2, 1, 1, 0, 0, Some(0), false), CUnlock(NotLast));
    ss, es := ExtendOpen(ss, es, c, i, 0, Proceed, Shared(2, 1, 1, 0, 0, None, false), CPost(NotLast));
    ss, es := ExtendOpen(ss, es, c, i, 0, Proceed, Shared(2, 1, 1, 1, 0, None, false), CRelock);
  }

  lemma SecondWakes() returns (ss: seq<State>, es: seq<Event>, c: nat, i: nat)
    ensures Opened(ss, es, c, i)
    ensures ss[|es|] == State(Shared(2, 2, 1, 0, 0, Some(1), false), map[0 := CRelock, 1 := CTest(true), 2 := Idle])
  {
    ss, es, c, i := FirstLeaves();
    ss, es := ExtendOpen(ss, es, c, i, 1, Proceed, Shared(2, 1, 1, 0, 0, None, false), CLock(true));
    ss, es := ExtendOpen(ss, es, c, i, 1, Proceed, Shared(2, 1, 1, 0, 0, Some(1), false), CLoad(true));
    ss, es := ExtendOpen(ss, es, c, i, 1, Proceed, Shared(2, 1, 1, 0, 0, Some(1), false), CStore(true, 1));
    ss, es := ExtendOpen(ss, es, c, i, 1, Proceed, Shared(2, 2, 1, 0, 0, Some(1), false), CTest(true));
  }

  lemma SecondLeaves() returns (ss: seq<State>, es: seq<Event>, c: nat, i: nat)
    ensures Opened(ss, es, c, i)
    ensures ss[|es|] == State(Shared(2, 2, 0, 0, 0, None, false), map[0 := CRelock, 1 := CPost(LastSignal), 2 := Idle])
  {
    ss, es, c, i := SecondWakes();
    ss, es := ExtendOpen(ss, es, c, i, 1, Proceed, Shared(2, 2, 1, 0, 0, Some(1), false), CDec(true, 1));
    ss, es := ExtendOpen(ss, es, c, i, 1, Proceed, Shared(2, 2, 0, 0, 0, Some(1), false), CUnlock(LastSignal));
    ss, es := ExtendOpen(ss, es, c, i, 1, Proceed, Shared(2, 2, 0, 0, 0, None, false), CPost(LastSignal));
  }

  /** It happens: two waiters are blocked, a third thread calls broadcast, both are woken, each makes its
      decrement, and the gate reopens. */
  lemma BroadcastHappens() returns (ss: seq<State>, es: seq<Event>, c: nat, i: nat, j: nat)
    ensures BatchOf(ss, es, c, true, i, j) && ss[j + 1].cv.gate > 0
    ensures At(ss[i], 0) == WBlock == At(ss[i], 1) && Decrements(ss, es, i + 1, j) == 2
    ensures exists k :: i < k < j && es[k].t == 0 && At(ss[k], 0).CDec?
    ensures exists k :: i < k < j && es[k].t == 1 && At(ss[k], 1).CDec?
  {
    ss, es, c, i := SecondLeaves();
    j := |es|;
    ss, es := Extend(ss, es, 1, Proceed, Shared(2, 2, 0, 0, 1, None, false), CRelock);
    BatchOpens(ss, es, i);
    BatchServesItsNumber(ss, es, c, true, i, j);
    BroadcastComplete(ss, es, c, i, j, 0);
    BroadcastComplete(ss, es, c, i, j, 1);
  }

  // ----- Operations end -----

  /** How many steps of its own a thread needs at most until its operation is over. */
  function Left(pc: PC): nat {
    match pc
    case Idle => 0
    case WGate => 14  case WLoad => 13  case WStore(_) => 12  case WOpen => 11  case WRelease => 10  case WBlock => 9
    case CLock(_) => 8  case CLoad(_) => 7  case CStore(_, _) => 6  case CTest(_) => 5  case CDec(_, _) => 4
    case CUnlock(_) => 3  case CPost(_) => 2  case CRelock => 1
    case UGate(_) => 6  case ULock(_) => 5  case UAdjust(_) => 4  case UDecide(_) => 3
    case UUnlockPost => 2  case UPost => 1  case UGatePost => 2  case UUnlock => 1
    case DGate => 5  case DLock => 4  case DCheck => 3  case DBusyPost => 2  case DBusyUnlock => 1  case DFree => 1
  }

  lemma NextLeft(pc: PC, cv: Shared, t: Tid, a: Action)
    requires Next(pc, cv, t, a).Some?
    ensures IsCall(a) <==> pc.Idle?
    ensures !IsCall(a) ==> Left(Next(pc, cv, t, a).value.pc) < Left(pc)
  {}

  /** The steps that thread t takes itself. */
  function OwnSteps(events: seq<Event>, t: Tid, i: nat, j: nat): nat
    requires i <= j <= |events|
    decreases j
  {
    if i == j then 0 else OwnSteps(events, t, i, j - 1) + One(events[j - 1].t == t)
  }

  /** No operation goes round in circles: until its next call a thread takes no more steps than are left,
      and once they are taken it is back outside. */
  lemma {:induction false} OperationEnds(states: seq<State>, events: seq<Event>, t: Tid, i: nat, j: nat)
    requires Run(states, events) && i <= j < |states|
    requires forall n :: i <= n < j && events[n].t == t ==> !IsCall(events[n].a)
    ensures OwnSteps(events, t, i, j) + Left(At(states[j], t)) <= Left(At(states[i], t)) <= 14
    ensures OwnSteps(events, t, i, j) == Left(At(states[i], t)) ==> At(states[j], t).Idle?
    decreases j
  {
    if i == j {
    } else {
      OperationEnds(states, events, t, i, j - 1);
      assert StepAt(states, events, j - 1);
      var s, e := states[j - 1], events[j - 1];
      NextLeft(At(s, e.t), s.cv, e.t, e.a);
    }
  }

  // ----- The gate does not stay closed -----

  const TOP := 12

  /** How many steps a thread past its gate has left, at most, before it is outside again. */
  function Rank(pc: PC): nat {
    match pc
    case WLoad => 12  case WStore(_) => 11  case WOpen => 10  case WRelease => 9  case WBlock => 8
    case CLock(_) => 7  case CLoad(_) => 6  case CStore(_, _) => 5  case CTest(_) => 4  case CDec(_, _) => 3
    case CUnlock(_) => 2  case CPost(_) => 1
    case ULock(_) => 6  case UAdjust(_) => 5  case UDecide(_) => 4  case UUnlockPost => 2  case UPost => 1
    case UGatePost => 2  case UUnlock => 1
    case DLock => 5  case DCheck => 4  case DBusyPost => 2  case DBusyUnlock => 1  case DFree => 1
    case _ => 0
  }

  function AtLeast(k: nat): PC -> bool {
    pc => Rank(pc) >= k
  }

  /** The sum of all ranks, each cut off at k. */
  ghost function Work(s: State, k: nat): nat {
    if k == 0 then 0 else Num(s, AtLeast(k)) + Work(s, k - 1)
  }

  function CutOff(rank: nat, k: nat): nat { if rank < k then rank else k }

  lemma {:induction false} WorkUpdate(s: State, t: Tid, m: Move, k: nat)
    ensures Work(State(m.cv, s.pcs[t := m.pc]), k) == Work(s, k) - CutOff(Rank(At(s, t)), k) + CutOff(Rank(m.pc), k)
  {
    if k == 0 {
    } else {
      WorkUpdate(s, t, m, k - 1);
      WhereUpdate(s, t, m.pc, AtLeast(k));
    }
  }

  lemma NextWork(pc: PC, cv: Shared, t: Tid, a: Action)
    requires Next(pc, cv, t, a).Some? && cv.gate == 0
    ensures var m := Next(pc, cv, t, a).value; if Rank(pc) > 0 then Rank(m.pc) < Rank(pc) else Rank(m.pc) == 0
    ensures Rank(pc) <= TOP
  {}

  /** A thread past the gate that needs neither the mutex nor a token can go on. */
  lemma CanProceed(s: State, t: Tid)
    requires Inv(s) && !s.cv.freed && Rank(At(s, t)) > 0
    requires s.cv.mutex == None || s.cv.mutex == Some(t)
    requires At(s, t).WBlock? ==> s.cv.queue > 0
    ensures Step(s, t, Proceed).Some?
  {
    assert InMutex(At(s, t)) <==> s.cv.mutex == Some(t);
  }

  lemma ClosedGateHasMover(s: State) returns (t: Tid)
    requires Inv(s) && s.cv.gate == 0
    ensures Rank(At(s, t)) > 0 && (s.cv.mutex == None || s.cv.mutex == Some(t))
    ensures At(s, t).WBlock? ==> s.cv.queue > 0
  {
    if s.cv.mutex.Some? {
      t := s.cv.mutex.value;
      assert InMutex(At(s, t));
    } else if s.cv.toUnblock == 0 {
      t :| t in Where(s.pcs, Holder);
    } else if s.cv.queue == 0 {
      t :| t in Where(s.pcs, Carrier);
    } else {
      t :| t in Where(s.pcs, Uncleared);
    }
  }

  /** With the gate closed some thread past it can take a step. */
  lemma ClosedGateMoves(states: seq<State>, events: seq<Event>, i: nat)
    requires Run(states, events) && i < |states| && !states[i].cv.freed && states[i].cv.gate == 0
    ensures exists t :: Rank(At(states[i], t)) > 0 && Step(states[i], t, Proceed).Some?
  {
    RunInv(states, events, i);
    var t := ClosedGateHasMover(states[i]);
    CanProceed(states[i], t);
  }

  function InsideSteps(states: seq<State>, events: seq<Event>, i: nat, j: nat): nat
    requires i <= j < |states| == |events| + 1
    decreases j
  {
    if i == j then 0
    else InsideSteps(states, events, i, j - 1) + One(Rank(At(states[j - 1], events[j - 1].t)) > 0)
  }

  lemma WorkStep(s: State, t: Tid, a: Action, s': State)
    requires Step(s, t, a) == Some(s') && s.cv.gate == 0
    ensures One(Rank(At(s, t)) > 0) + Work(s', TOP) <= Work(s, TOP)
  {
    var m := Next(At(s, t), s.cv, t, a).value;
    NextWork(At(s, t), s.cv, t, a);
    WorkUpdate(s, t, m, TOP);
  }

  ghost predicate Shrinks(states: seq<State>, events: seq<Event>, work: seq<nat>, n: nat)
    requires n < |events| && |work| == |states| == |events| + 1
  {
    One(Rank(At(states[n], events[n].t)) > 0) + work[n + 1] <= work[n]
  }

  lemma {:induction false} StepsUseWork(states: seq<State>, events: seq<Event>, work: seq<nat>, i: nat, j: nat)
    requires i <= j < |states| == |work| == |events| + 1
    requires forall n: nat :: i <= n < j ==> Shrinks(states, events, work, n)
    ensures InsideSteps(states, events, i, j) + work[j] <= work[i]
    decreases j
  {
    if i == j {
    } else {
      StepsUseWork(states, events, work, i, j - 1);
      assert Shrinks(states, events, work, j - 1);
    }
  }

  /** However the scheduler interleaves them, threads past the gate take a bounded number of steps
      while it is closed; with ClosedGateMoves, a gate that stays closed has run out of schedule,
      not of work. */
  lemma ClosedGateIsBounded(states: seq<State>, events: seq<Event>, i: nat, j: nat)
    requires Run(states, events) && i <= j < |states|
    requires forall k :: i <= k < j ==> states[k].cv.gate == 0
    ensures InsideSteps(states, events, i, j) + Work(states[j], TOP) <= Work(states[i], TOP)
  {
    var work := seq(|states|, n requires 0 <= n < |states| => Work(states[n], TOP));
    forall n: nat | i <= n < j ensures Shrinks(states, events, work, n) {
      assert StepAt(states, events, n);
      WorkStep(states[n], events[n].t, events[n].a, states[n + 1]);
    }
    StepsUseWork(states, events, work, i, j);
  }
}
