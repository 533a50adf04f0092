/**
  The wait, timeout and retry protocol of do_io, as steps of many concurrent calls over one event table.
  Timer callbacks, deliveries and closes are atomic steps.
 */
module DoIo {
  import opened Common
  import opened EventTable

  /** Where a call is. `timer` is the timer armed for the present attempt, if the descriptor has a timeout. */
  datatype Pc =
    | Trying
    | Armed(timer: Option<nat>)
    | Waiting(timer: Option<nat>, attempt: nat)
    | Returned(timedOut: bool)

  /** One call: its fiber, what it waits for, whether it has a timeout, and the address of its timer_info. */
  datatype Call = Call(fiber: nat, slot: Slot, timed: bool, pc: Pc, info: nat, attempts: nat)

  /** timer_info with its strong reference count; weak references see it as long as that is positive. */
  datatype Info = Info(strong: nat, cancelled: bool)

  datatype TimerState = Pending | Queued | Done

  /** A timer with what its callback captures: a weak reference and the slot. `call` records who armed it. */
  datatype TimerRec = TimerRec(call: nat, info: nat, slot: Slot, state: TimerState)

  /** The n-th wait of a call. */
  datatype WaitId = WaitId(call: nat, attempt: nat)

  datatype Cause = Readiness | Timeout | Close

  datatype S = S(
    table: Table,
    calls: map<nat, Call>,
    infos: map<nat, Info>,
    timers: map<nat, TimerRec>,
    running: map<nat, nat>,           // the call a fiber is in
    owner: map<Slot, nat>,            // the call registered for a slot
    log: map<WaitId, seq<Cause>>)     // what has consumed each wait

  /** Hands the waiter of slot k, if any, to the scheduler, and records why. */
  function Consume(s: S, k: Slot, cause: Cause): S {
    if k !in s.table.waiters then s
    else if k !in s.owner || s.owner[k] !in s.calls || !s.calls[s.owner[k]].pc.Waiting? then
      s.(table := Trigger(s.table, k))
    else
      var w := WaitId(s.owner[k], s.calls[s.owner[k]].pc.attempt);
      var causes := if w in s.log then s.log[w] else [];
      s.(table := Trigger(s.table, k), owner := s.owner - {k}, log := s.log[w := causes + [cause]])
  }

  function ConsumeMask(s: S, fd: nat, m: Mask, cause: Cause): S {
    var s1 := if m.read then Consume(s, Slot(fd, READ), cause) else s;
    if m.write then Consume(s1, Slot(fd, WRITE), cause) else s1
  }

  function CancelTimer(timers: map<nat, TimerRec>, t: Option<nat>): map<nat, TimerRec> {
    if t.Some? && t.value in timers && timers[t.value].state == Pending
    then timers[t.value := timers[t.value].(state := Done)]
    else timers
  }

  datatype Step =
    | Begin(c: nat, fiber: nat, slot: Slot, timed: bool, info: nat)
    | TryDone(c: nat)                              // the system call returned
    | TryAgain(c: nat, t: nat)                     // EAGAIN: arm the timer, if any
    | AddOk(c: nat)                                // addEvent registered the fiber, which yields
    | AddFails(c: nat)
    | AddOther(k: Slot, cb: nat)                   // someone else registers a callback
    | TimerDue(t: nat)                             // listExpiredCb hands the callback to the scheduler
    | RunTimeout(t: nat, works: bool)              // the callback runs; `works`: epoll_ctl agrees
    | Ready(fd: nat, mask: Mask)                   // delivery
    | CloseFd(fd: nat, works: bool)
    | Resume(c: nat, i: nat)                       // the scheduler takes the fiber from place i of the queue

  predicate Live(s: S, c: nat) {
    c in s.calls && !s.calls[c].pc.Returned?
  }

  /** What weak_ptr::lock finds. */
  predicate Locks(infos: map<nat, Info>, h: nat) {
    h in infos && infos[h].strong > 0
  }

  /** tinfo->cancelled */
  predicate Cancelled(s: S, c: nat) {
    c in s.calls && s.calls[c].info in s.infos && s.infos[s.calls[c].info].cancelled
  }

  predicate Enabled(s: S, a: Step) {
    match a
    case Begin(c, f, _, _, h) => c !in s.calls && f !in s.running && h !in s.infos
    case TryDone(c) => c in s.calls && s.calls[c].pc.Trying?
    case TryAgain(c, t) => c in s.calls && s.calls[c].pc.Trying? && t !in s.timers
    case AddOk(c) => c in s.calls && s.calls[c].pc.Armed? && s.calls[c].slot !in s.table.waiters
    case AddFails(c) => c in s.calls && s.calls[c].pc.Armed?
    case AddOther(k, _) => k !in s.table.waiters
    case TimerDue(t) => t in s.timers && s.timers[t].state == Pending
    case RunTimeout(t, _) => t in s.timers && s.timers[t].state == Queued
    case Ready(fd, mask) => mask.Within(Wanted(s.table, fd))
    case CloseFd(_, _) => true
    case Resume(c, i) =>
      && c in s.calls && s.calls[c].pc.Waiting?
      && i < |s.table.queue| && s.table.queue[i] == FiberTask(s.calls[c].fiber)
  }

  function SetPc(s: S, c: nat, pc: Pc): S
    requires c in s.calls
  {
    s.(calls := s.calls[c := s.calls[c].(pc := pc)])
  }

  /** A shared_ptr goes out of scope. */
  function Drop(infos: map<nat, Info>, h: nat): map<nat, Info> {
    if Locks(infos, h) then infos[h := infos[h].(strong := infos[h].strong - 1)] else infos
  }

  /** Leaving do_io drops its reference to the timer_info. */
  function Return(s: S, c: nat, timedOut: bool): S
    requires c in s.calls
  {
    SetPc(s, c, Returned(timedOut)).(running := s.running - {s.calls[c].fiber}, infos := Drop(s.infos, s.calls[c].info))
  }

  function Do(s: S, a: Step): S
    requires Enabled(s, a)
  {
    match a
    case Begin(c, f, slot, timed, h) =>
      s.(calls := s.calls[c := Call(f, slot, timed, Trying, h, 0)], running := s.running[f := c],
         infos := s.infos[h := Info(1, false)])
    case TryDone(c) => Return(s, c, false)
    case TryAgain(c, t) =>
      if s.calls[c].timed
      then SetPc(s, c, Armed(Some(t)))
             .(timers := s.timers[t := TimerRec(c, s.calls[c].info, s.calls[c].slot, Pending)])
      else SetPc(s, c, Armed(None))
    case AddOk(c) =>
      var call := s.calls[c];
      s.(table := Register(s.table, call.slot, FiberTask(call.fiber)),
         owner := s.owner[call.slot := c],
         log := s.log[WaitId(c, call.attempts) := []],
         calls := s.calls[c := call.(pc := Waiting(call.pc.timer, call.attempts), attempts := call.attempts + 1)])
    case AddFails(c) =>
      Return(s, c, false).(timers := CancelTimer(s.timers, s.calls[c].pc.timer))
    case AddOther(k, cb) => s.(table := Register(s.table, k, CallbackTask(cb)))
    case TimerDue(t) => s.(timers := s.timers[t := s.timers[t].(state := Queued)])
    case RunTimeout(t, works) =>
      var TimerRec(_, h, slot, _) := s.timers[t];
      var s1 := s.(timers := s.timers[t := s.timers[t].(state := Done)]);
      if !Locks(s.infos, h) || s.infos[h].cancelled then s1
      else
        var s2 := s1.(infos := s.infos[h := s.infos[h].(cancelled := true)]);   // then cancelEvent
        if works then Consume(s2, slot, Timeout) else s2
    case Ready(fd, mask) => ConsumeMask(s, fd, mask, Readiness)
    case CloseFd(fd, works) => if works then ConsumeMask(s, fd, Mask(true, true), Close) else s
    case Resume(c, i) =>
      var call := s.calls[c];
      var s1 := s.(table := s.table.(queue := s.table.queue[..i] + s.table.queue[i + 1..]),
                   timers := CancelTimer(s.timers, call.pc.timer));
      if Cancelled(s, c) then Return(s1, c, true) else SetPc(s1, c, Trying)
  }

  // ----- the invariant

  /** The wait of this call has been consumed and its fiber has not resumed yet. */
  predicate Woken(s: S, c: nat) {
    && c in s.calls && s.calls[c].pc.Waiting?
    && WaitId(c, s.calls[c].pc.attempt) in s.log && |s.log[WaitId(c, s.calls[c].pc.attempt)]| > 0
  }

  /** Slots and calls point at each other. */
  ghost predicate Owners(s: S) {
    && (forall k :: k in s.owner ==>
         && k in s.table.waiters && s.owner[k] in s.calls
         && var call := s.calls[s.owner[k]];
            call.pc.Waiting? && call.slot == k && s.table.waiters[k] == FiberTask(call.fiber)
            && WaitId(s.owner[k], call.pc.attempt) in s.log && s.log[WaitId(s.owner[k], call.pc.attempt)] == [])
    && (forall k :: k in s.table.waiters && s.table.waiters[k].FiberTask? ==> k in s.owner)
  }

  /** Every wait has been consumed by exactly one cause, or is the present wait of its call and still registered. */
  ghost predicate Logged(s: S) {
    && (forall w :: w in s.log ==>
         && w.call in s.calls && w.attempt < s.calls[w.call].attempts && |s.log[w]| <= 1
         && (s.log[w] == [] ==> Registered(s, w)))
    && (forall c :: c in s.calls && s.calls[c].pc.Waiting? ==> WaitId(c, s.calls[c].pc.attempt) in s.log)
  }

  predicate Registered(s: S, w: WaitId) {
    && w.call in s.calls && s.calls[w.call].pc.Waiting? && s.calls[w.call].pc.attempt == w.attempt
    && s.calls[w.call].slot in s.owner && s.owner[s.calls[w.call].slot] == w.call
  }

  ghost predicate Fibers(s: S) {
    && (forall c :: Live(s, c) ==> s.calls[c].fiber in s.running && s.running[s.calls[c].fiber] == c)
    && (forall f :: f in s.running ==> Live(s, s.running[f]) && s.calls[s.running[f]].fiber == f)
  }

  /** A fiber is in the queue once if its wait has been consumed, and else not at all. */
  ghost predicate QueuedOnce(s: S) {
    forall f :: multiset(s.table.queue)[FiberTask(f)] == if f in s.running && Woken(s, s.running[f]) then 1 else 0
  }

  /** The timer of the present attempt. */
  predicate Current(pc: Pc, t: nat) {
    (pc.Armed? || pc.Waiting?) && pc.timer == Some(t)
  }

  /** A timer is armed only for the present attempt of its call: none stays armed once a call retries or returns. */
  ghost predicate ArmedTimers(s: S) {
    && (forall t :: t in s.timers ==> s.timers[t].call in s.calls)
    && (forall t :: t in s.timers && s.timers[t].state == Pending ==> Current(s.calls[s.timers[t].call].pc, t))
  }

  /** A timed attempt has a timer of its own, which can still fire unless a timeout callback of the call has run. */
  ghost predicate AttemptTimers(s: S) {
    forall c :: c in s.calls && (s.calls[c].pc.Armed? || s.calls[c].pc.Waiting?) ==>
      && (s.calls[c].timed <==> s.calls[c].pc.timer.Some?)
      && (s.calls[c].timed ==> s.calls[c].pc.timer.value in s.timers
                               && s.timers[s.calls[c].pc.timer.value].call == c
                               && (!Cancelled(s, c) ==> s.timers[s.calls[c].pc.timer.value].state != Done))
  }

  ghost predicate TimersOk(s: S) {
    ArmedTimers(s) && AttemptTimers(s)
  }

  /** Each call has a timer_info of its own, alive exactly while the call is; its timers refer to it and its slot. */
  ghost predicate Infos(s: S) {
    && (forall c :: c in s.calls ==>
         s.calls[c].info in s.infos && s.infos[s.calls[c].info].strong == if Live(s, c) then 1 else 0)
    && (forall c, d :: c in s.calls && d in s.calls && c != d ==> s.calls[c].info != s.calls[d].info)
    && (forall t :: t in s.timers ==>
         && s.timers[t].call in s.calls
         && s.timers[t].info == s.calls[s.timers[t].call].info && s.timers[t].slot == s.calls[s.timers[t].call].slot)
  }

  ghost predicate Inv(s: S) {
    Owners(s) && Logged(s) && Fibers(s) && QueuedOnce(s) && TimersOk(s) && Infos(s)
  }

  lemma ConsumeOwners(s: S, k: Slot, cause: Cause)
    requires Owners(s)
    ensures Owners(Consume(s, k, cause))
  {
  }

  /** Taking the one waiter of an owned slot. */
  ghost predicate Takes(s: S, s': S, k: Slot, cause: Cause) {
    && k in s.owner && s.owner[k] in s.calls && s.calls[s.owner[k]].pc.Waiting?
    && s'.calls == s.calls && s'.owner == s.owner - {k}
    && s'.log == s.log[WaitId(s.owner[k], s.calls[s.owner[k]].pc.attempt) := [cause]]
  }

  lemma TakenLogged(s: S, s': S, k: Slot, cause: Cause)
    requires Owners(s) && Logged(s) && Takes(s, s', k, cause)
    ensures Logged(s')
  {
    var w := WaitId(s.owner[k], s.calls[s.owner[k]].pc.attempt);
    assert w in s.log;
    forall x | x in s.log && x != w && s.log[x] == []
      ensures Registered(s', x)
    {
      assert Registered(s, x);
    }
  }

  lemma ConsumeTakes(s: S, k: Slot, cause: Cause)
    requires k in s.owner && k in s.table.waiters && s.owner[k] in s.calls && s.calls[s.owner[k]].pc.Waiting?
    requires var w := WaitId(s.owner[k], s.calls[s.owner[k]].pc.attempt); w in s.log && s.log[w] == []
    ensures Takes(s, Consume(s, k, cause), k, cause) && s.table.queue <= Consume(s, k, cause).table.queue
  {
    var none: seq<Cause> := [];
    assert none + [cause] == [cause];
  }

  lemma ConsumeLogged(s: S, k: Slot, cause: Cause)
    requires Owners(s) && Logged(s)
    ensures Logged(Consume(s, k, cause))
  {
    if k in s.owner {
      ConsumeTakes(s, k, cause);
      TakenLogged(s, Consume(s, k, cause), k, cause);
    }
  }

  lemma ConsumeQueue(s: S, k: Slot, cause: Cause)
    requires Owners(s) && Fibers(s) && QueuedOnce(s)
    ensures QueuedOnce(Consume(s, k, cause))
  {
    var s' := Consume(s, k, cause);
    if k in s.table.waiters {
      forall f
        ensures multiset(s'.table.queue)[FiberTask(f)] == if f in s'.running && Woken(s', s'.running[f]) then 1 else 0
      {
        ConsumeWakes(s, k, cause, f);
        assert multiset(s'.table.queue) == multiset(s.table.queue) + multiset{s.table.waiters[k]};
      }
    }
  }

  /** Exactly the fiber handed over is woken. */
  lemma ConsumeWakes(s: S, k: Slot, cause: Cause, f: nat)
    requires Owners(s) && Fibers(s) && k in s.table.waiters
    ensures var s' := Consume(s, k, cause);
            s'.running == s.running
            && (f in s.running ==>
                 (Woken(s', s.running[f]) <==> Woken(s, s.running[f]) || s.table.waiters[k] == FiberTask(f)))
            && (s.table.waiters[k] == FiberTask(f) ==> f in s.running && !Woken(s, s.running[f]))
  {
    if k in s.owner {
      ConsumeTakes(s, k, cause);
    }
  }

  lemma ConsumeKeeps(s: S, k: Slot, cause: Cause)
    requires Inv(s)
    ensures Inv(Consume(s, k, cause))
  {
    ConsumeOwners(s, k, cause);
    ConsumeLogged(s, k, cause);
    ConsumeQueue(s, k, cause);
  }

  lemma ConsumeMaskKeeps(s: S, fd: nat, m: Mask, cause: Cause)
    requires Inv(s)
    ensures Inv(ConsumeMask(s, fd, m, cause))
  {
    var s1 := if m.read then Consume(s, Slot(fd, READ), cause) else s;
    ConsumeKeeps(s, Slot(fd, READ), cause);
    ConsumeKeeps(s1, Slot(fd, WRITE), cause);
  }

  lemma BeginOwners(s: S, a: Step)
    requires Owners(s) && Logged(s) && a.Begin? && Enabled(s, a)
    ensures Owners(Do(s, a)) && Logged(Do(s, a))
  {
  }

  lemma BeginQueue(s: S, a: Step)
    requires Fibers(s) && QueuedOnce(s) && a.Begin? && Enabled(s, a)
    ensures Fibers(Do(s, a)) && QueuedOnce(Do(s, a))
  {
  }

  lemma BeginTimers(s: S, a: Step)
    requires TimersOk(s) && Infos(s) && a.Begin? && Enabled(s, a)
    ensures TimersOk(Do(s, a))
  {
  }

  /** Steps of a call that is not waiting and does not start to. */
  predicate Quiet(a: Step) {
    a.TryDone? || a.TryAgain? || a.AddFails?
  }

  /** A call that does not wait, before or after, moves neither slots nor waits. */
  lemma MovedOwners(s: S, s': S, c: nat)
    requires Owners(s) && Logged(s) && c in s.calls && c in s'.calls
    requires !s.calls[c].pc.Waiting? && !s'.calls[c].pc.Waiting? && s'.calls[c].attempts == s.calls[c].attempts
    requires s' == s.(calls := s.calls[c := s'.calls[c]], timers := s'.timers, running := s'.running, infos := s'.infos)
    ensures Owners(s') && Logged(s')
  {
  }

  lemma QuietOwners(s: S, a: Step)
    requires Owners(s) && Logged(s) && Enabled(s, a) && Quiet(a)
    ensures Owners(Do(s, a)) && Logged(Do(s, a))
  {
    MovedOwners(s, Do(s, a), a.c);
  }

  lemma ReturnFibers(s: S, s': S, c: nat, timedOut: bool)
    requires Fibers(s) && Live(s, c) && s'.calls == s.calls[c := s.calls[c].(pc := Returned(timedOut))]
    requires s'.running == s.running - {s.calls[c].fiber}
    ensures Fibers(s')
  {
  }

  lemma MovedFibers(s: S, s': S, c: nat)
    requires Fibers(s) && Live(s, c) && Live(s', c) && s'.calls == s.calls[c := s'.calls[c]]
    requires s'.calls[c].fiber == s.calls[c].fiber && s'.running == s.running
    ensures Fibers(s')
  {
  }

  lemma QuietFibers(s: S, a: Step)
    requires Fibers(s) && Enabled(s, a) && Quiet(a)
    ensures Fibers(Do(s, a))
  {
    if a.TryAgain? {
      MovedFibers(s, Do(s, a), a.c);
    } else {
      ReturnFibers(s, Do(s, a), a.c, false);
    }
  }

  /** A call that is not woken, before or after, changes nothing about the queue. */
  lemma MovedQueue(s: S, s': S, c: nat)
    requires QueuedOnce(s) && Fibers(s) && Live(s, c) && c in s'.calls && !Woken(s, c) && !Woken(s', c)
    requires s'.calls == s.calls[c := s'.calls[c]] && s'.table == s.table && s'.log == s.log
    requires s'.running == s.running || s'.running == s.running - {s.calls[c].fiber}
    ensures QueuedOnce(s')
  {
    forall f
      ensures f in s'.running && Woken(s', s'.running[f]) <==> f in s.running && Woken(s, s.running[f])
    {
    }
  }

  lemma QuietQueue(s: S, a: Step)
    requires QueuedOnce(s) && Fibers(s) && Enabled(s, a) && Quiet(a)
    ensures QueuedOnce(Do(s, a))
  {
    if a.TryDone? {
      DoneQueue(s, a.c);
    } else if a.AddFails? {
      FailsQueue(s, a.c);
    } else {
      AgainQueue(s, a.c, a.t);
    }
  }

  lemma DoneQueue(s: S, c: nat)
    requires QueuedOnce(s) && Fibers(s) && Enabled(s, TryDone(c))
    ensures QueuedOnce(Do(s, TryDone(c)))
  {
    MovedQueue(s, Do(s, TryDone(c)), c);
  }

  lemma FailsQueue(s: S, c: nat)
    requires QueuedOnce(s) && Fibers(s) && Enabled(s, AddFails(c))
    ensures QueuedOnce(Do(s, AddFails(c)))
  {
    MovedQueue(s, Do(s, AddFails(c)), c);
  }

  lemma AgainQueue(s: S, c: nat, t: nat)
    requires QueuedOnce(s) && Fibers(s) && Enabled(s, TryAgain(c, t))
    ensures QueuedOnce(Do(s, TryAgain(c, t)))
  {
    MovedQueue(s, Do(s, TryAgain(c, t)), c);
  }

  /** An attempt that ends cancels its timer; the timers of other calls stay. */
  lemma EndedArmed(s: S, s': S, c: nat, timer: Option<nat>)
    requires ArmedTimers(s) && c in s.calls && c in s'.calls && s'.calls == s.calls[c := s'.calls[c]]
    requires timer.Some? ==> Current(s.calls[c].pc, timer.value)
    requires timer.None? ==> forall t :: !Current(s.calls[c].pc, t)
    requires s'.timers == CancelTimer(s.timers, timer)
    ensures ArmedTimers(s')
  {
  }

  lemma QuietArmed(s: S, a: Step)
    requires ArmedTimers(s) && Enabled(s, a) && Quiet(a)
    ensures ArmedTimers(Do(s, a))
  {
    if a.TryDone? {
      EndedArmed(s, Do(s, a), a.c, None);
    } else if a.AddFails? {
      EndedArmed(s, Do(s, a), a.c, s.calls[a.c].pc.timer);
    } else {
      AgainArmed(s, a.c, a.t);
    }
  }

  lemma AgainArmed(s: S, c: nat, t: nat)
    requires ArmedTimers(s) && Enabled(s, TryAgain(c, t))
    ensures ArmedTimers(Do(s, TryAgain(c, t)))
  {
  }

  /** A call that has no attempt under way does not concern the others. */
  lemma OtherAttempts(s: S, s': S, c: nat)
    requires AttemptTimers(s) && c in s'.calls && !s'.calls[c].pc.Armed? && !s'.calls[c].pc.Waiting?
    requires forall d :: d in s'.calls && d != c ==>
               d in s.calls && s'.calls[d] == s.calls[d] && (Cancelled(s, d) ==> Cancelled(s', d))
    requires forall t :: t in s.timers ==>
               t in s'.timers && s'.timers[t].call == s.timers[t].call
               && (s.timers[t].call != c ==> s'.timers[t] == s.timers[t])
    ensures AttemptTimers(s')
  {
  }

  lemma QuietAttempts(s: S, a: Step)
    requires AttemptTimers(s) && Enabled(s, a) && Quiet(a)
    ensures AttemptTimers(Do(s, a))
  {
    if a.TryDone? || a.AddFails? {
      DropKeepsFlag(s.infos, s.calls[a.c].info);
      OtherAttempts(s, Do(s, a), a.c);
    } else {
      ArmAttempts(s, a);
    }
  }

  lemma DropKeepsFlag(infos: map<nat, Info>, h: nat)
    ensures forall g :: g in infos <==> g in Drop(infos, h)
    ensures forall g :: g in infos ==> Drop(infos, h)[g].cancelled == infos[g].cancelled
  {
  }

  lemma ArmAttempts(s: S, a: Step)
    requires AttemptTimers(s) && a.TryAgain? && Enabled(s, a)
    ensures AttemptTimers(Do(s, a))
  {
    ArmedAttempts(s, Do(s, a), a.c, a.t);
  }

  lemma ArmedAttempts(s: S, s': S, c: nat, t: nat)
    requires AttemptTimers(s) && c in s.calls && t !in s.timers && s'.infos == s.infos
    requires s'.calls == s.calls[c := s.calls[c].(pc := Armed(if s.calls[c].timed then Some(t) else None))]
    requires s'.timers == if s.calls[c].timed
                          then s.timers[t := TimerRec(c, s.calls[c].info, s.calls[c].slot, Pending)] else s.timers
    ensures AttemptTimers(s')
  {
  }

  lemma AddOwners(s: S, a: Step)
    requires Owners(s) && Enabled(s, a) && (a.AddOk? || a.AddOther?)
    ensures Owners(Do(s, a))
  {
  }

  lemma AddLogged(s: S, a: Step)
    requires Owners(s) && Logged(s) && Enabled(s, a) && (a.AddOk? || a.AddOther?)
    ensures Logged(Do(s, a))
  {
    if a.AddOk? {
      AddOkLogged(s, a.c);
    } else {
      AddOtherLogged(s, a.k, a.cb);
    }
  }

  lemma AddOtherLogged(s: S, k: Slot, cb: nat)
    requires Logged(s) && Enabled(s, AddOther(k, cb))
    ensures Logged(Do(s, AddOther(k, cb)))
  {
    assert forall w :: Registered(s, w) ==> Registered(Do(s, AddOther(k, cb)), w);
  }

  lemma AddOkLogged(s: S, c: nat)
    requires Owners(s) && Logged(s) && Enabled(s, AddOk(c))
    ensures Logged(Do(s, AddOk(c)))
  {
    var s' := Do(s, AddOk(c));
    forall w | w in s.log && s.log[w] == []
      ensures Registered(s', w)
    {
      assert Registered(s, w);
    }
  }

  lemma AddQueue(s: S, a: Step)
    requires Logged(s) && Fibers(s) && QueuedOnce(s) && Enabled(s, a) && (a.AddOk? || a.AddOther?)
    ensures Fibers(Do(s, a)) && QueuedOnce(Do(s, a))
  {
  }

  lemma AddTimers(s: S, a: Step)
    requires TimersOk(s) && Enabled(s, a) && (a.AddOk? || a.AddOther?)
    ensures TimersOk(Do(s, a))
  {
  }

  /** The state in which the callback has set `cancelled` and not yet cancelled the event. */
  function Fired(s: S, t: nat): S
    requires t in s.timers && s.timers[t].info in s.infos
  {
    var h := s.timers[t].info;
    s.(timers := s.timers[t := s.timers[t].(state := Done)], infos := s.infos[h := s.infos[h].(cancelled := true)])
  }

  /** Timers and flags do not concern slots, waits, fibers and the queue. */
  lemma RestKept(s: S, s': S)
    requires Owners(s) && Logged(s) && Fibers(s) && QueuedOnce(s)
    requires s' == s.(timers := s'.timers, infos := s'.infos)
    ensures Owners(s') && Logged(s') && Fibers(s') && QueuedOnce(s')
  {
    assert forall c :: Woken(s', c) <==> Woken(s, c);
    assert forall w :: Registered(s', w) <==> Registered(s, w);
  }

  lemma FiredKeeps(s: S, t: nat)
    requires Inv(s) && t in s.timers && s.timers[t].info in s.infos
    ensures Inv(Fired(s, t))
  {
    FiredTimers(s, t);
    RestKept(s, Fired(s, t));
  }

  lemma FiredTimers(s: S, t: nat)
    requires TimersOk(s) && Infos(s) && t in s.timers && s.timers[t].info in s.infos
    ensures TimersOk(Fired(s, t)) && Infos(Fired(s, t))
  {
  }

  /** A callback that finds the timer_info gone or the flag set is done without further effect. */
  function Spent(s: S, t: nat): S
    requires t in s.timers
  {
    s.(timers := s.timers[t := s.timers[t].(state := Done)])
  }

  lemma IdleTimeoutKeeps(s: S, t: nat)
    requires Inv(s) && t in s.timers && s.timers[t].state == Queued
    requires !Live(s, s.timers[t].call) || Cancelled(s, s.timers[t].call)
    ensures Inv(Spent(s, t))
  {
    RestKept(s, Spent(s, t));
    SpentTimers(s, t);
  }

  lemma SpentTimers(s: S, t: nat)
    requires TimersOk(s) && Infos(s) && t in s.timers && s.timers[t].state == Queued
    requires !Live(s, s.timers[t].call) || Cancelled(s, s.timers[t].call)
    ensures TimersOk(Spent(s, t)) && Infos(Spent(s, t))
  {
  }

  lemma TimerKeeps(s: S, t: nat, works: bool)
    requires Inv(s) && Enabled(s, RunTimeout(t, works))
    ensures Inv(Do(s, RunTimeout(t, works)))
  {
    var c := s.timers[t].call;
    if !Live(s, c) || Cancelled(s, c) {
      IdleTimeoutKeeps(s, t);
    } else {
      FiredKeeps(s, t);
      ConsumeKeeps(Fired(s, t), s.calls[c].slot, Timeout);
    }
  }

  /** A call whose wait has been consumed owns no slot, so it may stop waiting. */
  lemma WokenLeaves(s: S, s': S, c: nat)
    requires Owners(s) && Logged(s) && Woken(s, c) && c in s'.calls && !s'.calls[c].pc.Waiting?
    requires s'.calls == s.calls[c := s'.calls[c]] && s'.calls[c].attempts == s.calls[c].attempts
    requires s'.owner == s.owner && s'.log == s.log && s'.table.waiters == s.table.waiters
    ensures Owners(s') && Logged(s')
  {
    assert forall k :: k in s.owner ==> s.owner[k] != c;
  }

  lemma ResumeOwners(s: S, c: nat, i: nat)
    requires Owners(s) && Logged(s) && Enabled(s, Resume(c, i)) && Woken(s, c)
    ensures Owners(Do(s, Resume(c, i))) && Logged(Do(s, Resume(c, i)))
  {
    WokenLeaves(s, Do(s, Resume(c, i)), c);
  }

  lemma ResumeFibers(s: S, c: nat, i: nat)
    requires Fibers(s) && Enabled(s, Resume(c, i))
    ensures Fibers(Do(s, Resume(c, i)))
  {
    if Cancelled(s, c) {
      ReturnFibers(s, Do(s, Resume(c, i)), c, true);
    } else {
      MovedFibers(s, Do(s, Resume(c, i)), c);
    }
  }

  lemma ResumeArmed(s: S, c: nat, i: nat)
    requires ArmedTimers(s) && Enabled(s, Resume(c, i))
    ensures ArmedTimers(Do(s, Resume(c, i)))
  {
    EndedArmed(s, Do(s, Resume(c, i)), c, s.calls[c].pc.timer);
  }

  lemma ResumeAttempts(s: S, c: nat, i: nat)
    requires AttemptTimers(s) && Enabled(s, Resume(c, i))
    ensures AttemptTimers(Do(s, Resume(c, i)))
  {
    var s' := Do(s, Resume(c, i));
    DropKeepsFlag(s.infos, s.calls[c].info);
    OnlyCancelled(s.timers, s.calls[c].pc.timer);
    assert s'.timers == CancelTimer(s.timers, s.calls[c].pc.timer);
    OtherAttempts(s, s', c);
  }

  lemma OnlyCancelled(timers: map<nat, TimerRec>, u: Option<nat>)
    ensures forall t :: t in timers ==> t in CancelTimer(timers, u)
    ensures forall t :: t in timers ==> CancelTimer(timers, u)[t].call == timers[t].call
    ensures forall t :: t in timers && Some(t) != u ==> CancelTimer(timers, u)[t] == timers[t]
  {
  }

  lemma TakeOne(q: seq<Task>, i: nat)
    requires i < |q|
    ensures multiset(q) == multiset(q[..i] + q[i + 1..]) + multiset{q[i]}
  {
    assert q == q[..i] + [q[i]] + q[i + 1..];
  }

  lemma ResumeQueue(s: S, c: nat, i: nat)
    requires QueuedOnce(s) && Fibers(s) && Enabled(s, Resume(c, i)) && Woken(s, c)
    ensures QueuedOnce(Do(s, Resume(c, i)))
  {
    var s', g := Do(s, Resume(c, i)), s.calls[c].fiber;
    assert Live(s, c) && s'.table.queue == s.table.queue[..i] + s.table.queue[i + 1..];
    forall f
      ensures multiset(s'.table.queue)[FiberTask(f)] == if f in s'.running && Woken(s', s'.running[f]) then 1 else 0
    {
      TakeOneCount(s.table.queue, i, FiberTask(f));
      if f == g {
        assert !Woken(s', c);
      } else {
        ResumeElsewhere(s, c, i, f);
      }
    }
  }

  lemma TakeOneCount(q: seq<Task>, i: nat, w: Task)
    requires i < |q|
    ensures multiset(q[..i] + q[i + 1..])[w] == multiset(q)[w] - if q[i] == w then 1 else 0
  {
    TakeOne(q, i);
  }

  lemma ResumeElsewhere(s: S, c: nat, i: nat, f: nat)
    requires Fibers(s) && Enabled(s, Resume(c, i)) && f != s.calls[c].fiber
    ensures var s' := Do(s, Resume(c, i));
            f in s'.running && Woken(s', s'.running[f]) <==> f in s.running && Woken(s, s.running[f])
  {
  }

  /** Only a fiber whose wait has been consumed is ever taken from the queue. */
  lemma ResumedIsWoken(s: S, c: nat, i: nat)
    requires Inv(s) && Enabled(s, Resume(c, i))
    ensures Woken(s, c)
  {
    assert s.table.queue[i] in multiset(s.table.queue);
    assert Live(s, c);
  }

  lemma DueTimers(s: S, s': S, t: nat)
    requires TimersOk(s) && Infos(s) && t in s.timers && s.timers[t].state == Pending
    requires s' == s.(timers := s.timers[t := s.timers[t].(state := Queued)])
    ensures TimersOk(s') && Infos(s')
  {
  }

  lemma TimerDueKeeps(s: S, a: Step)
    requires Inv(s) && a.TimerDue? && Enabled(s, a)
    ensures Inv(Do(s, a))
  {
    RestKept(s, Do(s, a));
    DueTimers(s, Do(s, a), a.t);
  }

  /** No timer is new, and what the callbacks captured has not changed. */
  ghost predicate SameTimers(s: S, s': S) {
    forall t :: t in s'.timers ==>
      t in s.timers && s'.timers[t].call == s.timers[t].call && s'.timers[t].info == s.timers[t].info
      && s'.timers[t].slot == s.timers[t].slot
  }

  lemma BeginInfos(s: S, a: Step)
    requires Infos(s) && a.Begin? && Enabled(s, a)
    ensures Infos(Do(s, a))
  {
  }

  lemma ReturnInfos(s: S, s': S, c: nat, timedOut: bool)
    requires Infos(s) && Live(s, c) && SameTimers(s, s')
    requires s'.calls == s.calls[c := s.calls[c].(pc := Returned(timedOut))]
    requires s'.infos == Drop(s.infos, s.calls[c].info)
    ensures Infos(s')
  {
  }

  lemma MovedInfos(s: S, s': S, c: nat)
    requires Infos(s) && Live(s, c) && Live(s', c) && SameTimers(s, s')
    requires s'.calls == s.calls[c := s'.calls[c]] && s'.infos == s.infos
    requires s'.calls[c].info == s.calls[c].info && s'.calls[c].slot == s.calls[c].slot
    ensures Infos(s')
  {
  }

  lemma ArmInfos(s: S, a: Step)
    requires Infos(s) && a.TryAgain? && Enabled(s, a)
    ensures Infos(Do(s, a))
  {
    ArmedInfos(s, Do(s, a), a.c, a.t);
  }

  lemma ArmedInfos(s: S, s': S, c: nat, t: nat)
    requires Infos(s) && Live(s, c) && s'.infos == s.infos
    requires s'.calls == s.calls[c := s.calls[c].(pc := Armed(if s.calls[c].timed then Some(t) else None))]
    requires s'.timers == if s.calls[c].timed
                          then s.timers[t := TimerRec(c, s.calls[c].info, s.calls[c].slot, Pending)] else s.timers
    ensures Infos(s')
  {
  }

  lemma ResumeInfos(s: S, c: nat, i: nat)
    requires Infos(s) && Enabled(s, Resume(c, i))
    ensures Infos(Do(s, Resume(c, i)))
  {
    var s' := Do(s, Resume(c, i));
    assert SameTimers(s, s');
    if Cancelled(s, c) {
      ReturnInfos(s, s', c, true);
    } else {
      MovedInfos(s, s', c);
    }
  }

  /** Steps of calls allocate, move on and drop. */
  lemma InfosKept(s: S, a: Step)
    requires Infos(s) && Enabled(s, a) && (Quiet(a) || a.AddOk? || a.AddOther?)
    ensures Infos(Do(s, a))
  {
    match a
    case TryDone(c) => ReturnInfos(s, Do(s, a), c, false);
    case AddFails(c) => ReturnInfos(s, Do(s, a), c, false);
    case TryAgain(_, _) => ArmInfos(s, a);
    case AddOk(c) => MovedInfos(s, Do(s, a), c);
    case _ =>
  }

  lemma BeginKeeps(s: S, a: Step)
    requires Inv(s) && a.Begin? && Enabled(s, a)
    ensures Inv(Do(s, a))
  {
    BeginOwners(s, a);
    BeginQueue(s, a);
    BeginTimers(s, a);
    BeginInfos(s, a);
  }

  lemma QuietKeeps(s: S, a: Step)
    requires Inv(s) && Quiet(a) && Enabled(s, a)
    ensures Inv(Do(s, a))
  {
    QuietOwners(s, a);
    QuietFibers(s, a);
    QuietQueue(s, a);
    QuietArmed(s, a);
    QuietAttempts(s, a);
    InfosKept(s, a);
  }

  lemma AddKeeps(s: S, a: Step)
    requires Inv(s) && (a.AddOk? || a.AddOther?) && Enabled(s, a)
    ensures Inv(Do(s, a))
  {
    AddOwners(s, a);
    AddLogged(s, a);
    AddQueue(s, a);
    AddTimers(s, a);
    InfosKept(s, a);
  }

  lemma ResumeKeeps(s: S, c: nat, i: nat)
    requires Inv(s) && Enabled(s, Resume(c, i))
    ensures Inv(Do(s, Resume(c, i)))
  {
    ResumedIsWoken(s, c, i);
    ResumeOwners(s, c, i);
    ResumeFibers(s, c, i);
    ResumeArmed(s, c, i);
    ResumeAttempts(s, c, i);
    ResumeQueue(s, c, i);
    ResumeInfos(s, c, i);
  }

  lemma StepKeepsInv(s: S, a: Step)
    requires Inv(s) && Enabled(s, a)
    ensures Inv(Do(s, a))
  {
    if a.Begin? {
      BeginKeeps(s, a);
    } else if Quiet(a) {
      QuietKeeps(s, a);
    } else if a.AddOk? || a.AddOther? {
      AddKeeps(s, a);
    } else if a.TimerDue? {
      TimerDueKeeps(s, a);
    } else if a.RunTimeout? {
      TimerKeeps(s, a.t, a.works);
    } else if a.Ready? {
      ConsumeMaskKeeps(s, a.fd, a.mask, Readiness);
    } else if a.CloseFd? {
      ConsumeMaskKeeps(s, a.fd, Mask(true, true), Close);
    } else {
      ResumeKeeps(s, a.c, a.i);
    }
  }

  // ----- whole runs

  const START := S(Table(map[], []), map[], map[], map[], map[], map[], map[])

  ghost predicate Run(ss: seq<S>, steps: seq<Step>) {
    && |ss| == |steps| + 1 && ss[0] == START
    && forall i {:trigger steps[i]} :: 0 <= i < |steps| ==>
         Enabled(ss[i], steps[i]) && ss[i + 1] == Do(ss[i], steps[i])
  }

  lemma InvNext(ss: seq<S>, steps: seq<Step>, i: nat)
    requires Run(ss, steps) && i < |steps| && Inv(ss[i])
    ensures Inv(ss[i + 1])
  {
    StepKeepsInv(ss[i], steps[i]);
  }

  lemma {:induction false} InvAt(ss: seq<S>, steps: seq<Step>, i: nat)
    requires Run(ss, steps) && i < |ss|
    ensures Inv(ss[i])
  {
    if i > 0 {
      InvAt(ss, steps, i - 1);
      InvNext(ss, steps, i - 1);
    }
  }

  lemma RunKeepsInv(ss: seq<S>, steps: seq<Step>)
    requires Run(ss, steps)
    ensures forall i :: 0 <= i < |ss| ==> Inv(ss[i])
  {
    forall i | 0 <= i < |ss|
      ensures Inv(ss[i])
    {
      InvAt(ss, steps, i);
    }
  }

  /**
    In every run each wait is consumed by exactly one of readiness, timeout and close, or is still registered; and
    a fiber is queued once exactly while its consumed wait has not been resumed.
   */
  lemma EachWaitConsumedOnce(ss: seq<S>, steps: seq<Step>, i: nat)
    requires Run(ss, steps) && i < |ss|
    ensures forall w :: w in ss[i].log ==> |ss[i].log[w]| == if Registered(ss[i], w) then 0 else 1
    ensures QueuedOnce(ss[i])
  {
    InvAt(ss, steps, i);
    var s := ss[i];
    forall w | w in s.log && Registered(s, w)
      ensures s.log[w] == []
    {
      assert s.calls[w.call].slot in s.owner;
    }
  }

  /** In every reachable state the timer_info of a call can be locked exactly while the call is in progress. */
  lemma InfoLivesWithCall(ss: seq<S>, steps: seq<Step>, i: nat, c: nat)
    requires Run(ss, steps) && i < |ss| && c in ss[i].calls
    ensures Locks(ss[i].infos, ss[i].calls[c].info) <==> Live(ss[i], c)
  {
    InvAt(ss, steps, i);
  }

  /** A call ends in a timeout only if a callback of one of its own timers ran while it was in progress. */
  lemma {:induction false} TimeoutNeedsOwnTimer(ss: seq<S>, steps: seq<Step>, i: nat, c: nat)
    requires Run(ss, steps) && i < |ss| && c in ss[i].calls
    requires Cancelled(ss[i], c) || ss[i].calls[c].pc == Returned(true)
    ensures exists j :: 0 <= j < i && OwnTimeout(ss[j], steps[j], c)
  {
    assert i > 0;
    if !OwnTimeout(ss[i - 1], steps[i - 1], c) {
      WasCancelled(ss, steps, i - 1, c);
      TimeoutNeedsOwnTimer(ss, steps, i - 1, c);
    }
  }

  lemma WasCancelled(ss: seq<S>, steps: seq<Step>, j: nat, c: nat)
    requires Run(ss, steps) && j < |steps| && c in ss[j + 1].calls && !OwnTimeout(ss[j], steps[j], c)
    requires Cancelled(ss[j + 1], c) || ss[j + 1].calls[c].pc == Returned(true)
    ensures c in ss[j].calls && (Cancelled(ss[j], c) || ss[j].calls[c].pc == Returned(true))
  {
    InvAt(ss, steps, j);
    CancelledBefore(ss[j], steps[j], c);
  }

  predicate OwnTimeout(s: S, a: Step, c: nat) {
    a.RunTimeout? && a.t in s.timers && s.timers[a.t].call == c && Live(s, c)
  }

  lemma CancelledBefore(s: S, a: Step, c: nat)
    requires Infos(s) && Enabled(s, a) && c in Do(s, a).calls && !OwnTimeout(s, a, c)
    requires Cancelled(Do(s, a), c) || Do(s, a).calls[c].pc == Returned(true)
    ensures c in s.calls && (Cancelled(s, c) || s.calls[c].pc == Returned(true))
  {
    if a.Ready? {
      ConsumeMaskCalls(s, a.fd, a.mask, Readiness);
    } else if a.CloseFd? {
      ConsumeMaskCalls(s, a.fd, Mask(true, true), Close);
    } else if a.RunTimeout? {
      OtherTimeout(s, a.t, a.works, c);
    } else if c in s.calls {
      if a.Resume? {
        ResumeStays(s, a.c, a.i, c);
      } else {
        QuietStays(s, a, c);
      }
    }
  }

  /** Any callback but an effective one of this call leaves the call as it was. */
  lemma OtherTimeout(s: S, t: nat, works: bool, c: nat)
    requires Infos(s) && Enabled(s, RunTimeout(t, works)) && !OwnTimeout(s, RunTimeout(t, works), c)
    ensures Do(s, RunTimeout(t, works)).calls == s.calls
    ensures Cancelled(Do(s, RunTimeout(t, works)), c) <==> Cancelled(s, c)
  {
    var h := s.timers[t].info;
    if Locks(s.infos, h) && !s.infos[h].cancelled {
      ConsumeCalls(Fired(s, t), s.timers[t].slot, Timeout);
      assert c in s.calls ==> s.calls[c].info != h;
    }
  }

  /** The flag stays set, and a call that has returned stays returned. */
  lemma CancelledStays(s: S, a: Step, c: nat)
    requires Infos(s) && Enabled(s, a) && c in s.calls
    ensures c in Do(s, a).calls && (Cancelled(s, c) ==> Cancelled(Do(s, a), c))
    ensures s.calls[c].pc.Returned? ==> Do(s, a).calls[c].pc == s.calls[c].pc
  {
    if a.Ready? {
      ConsumeMaskCalls(s, a.fd, a.mask, Readiness);
    } else if a.CloseFd? {
      ConsumeMaskCalls(s, a.fd, Mask(true, true), Close);
    } else if a.RunTimeout? {
      if OwnTimeout(s, a, c) {
        OwnCancels(s, a.t, a.works);
      } else {
        OtherTimeout(s, a.t, a.works, c);
      }
    } else if a.Resume? {
      ResumeStays(s, a.c, a.i, c);
    } else {
      QuietStays(s, a, c);
    }
  }

  lemma ResumeStays(s: S, d: nat, i: nat, c: nat)
    requires Enabled(s, Resume(d, i)) && c in s.calls
    ensures var s' := Do(s, Resume(d, i));
            c in s'.calls && (Cancelled(s, c) <==> Cancelled(s', c))
            && (c != d ==> s'.calls[c] == s.calls[c])
            && (s'.calls[c].pc == Returned(true) ==> Cancelled(s, c) || s.calls[c].pc == Returned(true))
  {
    DropKeepsFlag(s.infos, s.calls[d].info);
  }

  lemma QuietStays(s: S, a: Step, c: nat)
    requires Infos(s) && Enabled(s, a) && c in s.calls
    requires !a.RunTimeout? && !a.Ready? && !a.CloseFd? && !a.Resume?
    ensures var s' := Do(s, a);
            c in s'.calls && (Cancelled(s, c) <==> Cancelled(s', c))
            && (s.calls[c].pc.Returned? ==> s'.calls[c].pc == s.calls[c].pc)
            && (s'.calls[c].pc == Returned(true) ==> s.calls[c].pc == Returned(true))
  {
    if Quiet(a) {
      DropKeepsFlag(s.infos, s.calls[a.c].info);
    }
  }

  lemma {:induction false} StaysFrom(ss: seq<S>, steps: seq<Step>, i: nat, j: nat, c: nat)
    requires Run(ss, steps) && i <= j < |ss| && c in ss[i].calls
    ensures c in ss[j].calls && (Cancelled(ss[i], c) ==> Cancelled(ss[j], c))
    ensures ss[i].calls[c].pc.Returned? ==> ss[j].calls[c].pc == ss[i].calls[c].pc
    decreases j
  {
    if i < j {
      StaysFrom(ss, steps, i, j - 1, c);
      StaysNext(ss, steps, j - 1, c);
    }
  }

  lemma StaysNext(ss: seq<S>, steps: seq<Step>, j: nat, c: nat)
    requires Run(ss, steps) && j < |steps| && c in ss[j].calls
    ensures c in ss[j + 1].calls && (Cancelled(ss[j], c) ==> Cancelled(ss[j + 1], c))
    ensures ss[j].calls[c].pc.Returned? ==> ss[j + 1].calls[c].pc == ss[j].calls[c].pc
  {
    InvAt(ss, steps, j);
    CancelledStays(ss[j], steps[j], c);
  }

  lemma TimeoutCancels(ss: seq<S>, steps: seq<Step>, j: nat, c: nat)
    requires Run(ss, steps) && j < |steps| && OwnTimeout(ss[j], steps[j], c)
    ensures Cancelled(ss[j + 1], c)
  {
    InvAt(ss, steps, j);
    OwnCancels(ss[j], steps[j].t, steps[j].works);
  }

  lemma OwnCancels(s: S, t: nat, works: bool)
    requires Infos(s) && Enabled(s, RunTimeout(t, works)) && Live(s, s.timers[t].call)
    ensures Cancelled(Do(s, RunTimeout(t, works)), s.timers[t].call)
    ensures Do(s, RunTimeout(t, works)).calls == s.calls
  {
  }

  lemma ConsumeMaskCalls(s: S, fd: nat, m: Mask, cause: Cause)
    ensures ConsumeMask(s, fd, m, cause).calls == s.calls && ConsumeMask(s, fd, m, cause).infos == s.infos
  {
    var s1 := if m.read then Consume(s, Slot(fd, READ), cause) else s;
    ConsumeCalls(s, Slot(fd, READ), cause);
    ConsumeCalls(s1, Slot(fd, WRITE), cause);
  }

  lemma ConsumeCalls(s: S, k: Slot, cause: Cause)
    ensures Consume(s, k, cause).calls == s.calls && Consume(s, k, cause).infos == s.infos
  {
  }

  /** A timeout callback that acts on a registered wait consumes it and queues its fiber. */
  lemma TimeoutConsumes(s: S, t: nat)
    requires Inv(s) && Enabled(s, RunTimeout(t, true))
    requires var c := s.timers[t].call;
             Live(s, c) && !Cancelled(s, c) && s.calls[c].pc.Waiting?
             && Registered(s, WaitId(c, s.calls[c].pc.attempt))
    ensures var s', c := Do(s, RunTimeout(t, true)), s.timers[t].call;
            && s'.log[WaitId(c, s.calls[c].pc.attempt)] == [Timeout]
            && s'.table.queue == s.table.queue + [FiberTask(s.calls[c].fiber)]
            && Cancelled(s', c) && s.calls[c].slot !in s'.table.waiters
  {
    FiredKeeps(s, t);
    CallbackActs(s, t);
    ConsumeOwn(Fired(s, t), s.timers[t].call, Timeout);
  }

  lemma CallbackActs(s: S, t: nat)
    requires Infos(s) && Enabled(s, RunTimeout(t, true)) && Live(s, s.timers[t].call) && !Cancelled(s, s.timers[t].call)
    ensures var c := s.timers[t].call;
            Do(s, RunTimeout(t, true)) == Consume(Fired(s, t), s.calls[c].slot, Timeout)
            && Cancelled(Fired(s, t), c)
  {
  }

  lemma ConsumeOwn(s: S, c: nat, cause: Cause)
    requires Inv(s) && c in s.calls && s.calls[c].pc.Waiting? && Registered(s, WaitId(c, s.calls[c].pc.attempt))
    ensures var s' := Consume(s, s.calls[c].slot, cause);
            && s'.log == s.log[WaitId(c, s.calls[c].pc.attempt) := [cause]]
            && s'.table.queue == s.table.queue + [FiberTask(s.calls[c].fiber)]
            && s'.calls == s.calls && s'.infos == s.infos && s.calls[c].slot !in s'.table.waiters
  {
    var none: seq<Cause> := [];
    assert none + [cause] == [cause];
  }

  /** Consuming another slot leaves this wait alone. */
  lemma ConsumeOther(s: S, k: Slot, c: nat, cause: Cause)
    requires Owners(s) && Logged(s) && c in s.calls && s.calls[c].pc.Waiting? && s.calls[c].slot != k
    ensures var s', w := Consume(s, k, cause), WaitId(c, s.calls[c].pc.attempt);
            && s'.calls == s.calls && w in s.log && w in s'.log && s'.log[w] == s.log[w]
            && (Registered(s, w) ==> Registered(s', w))
            && s.table.queue <= s'.table.queue
  {
    if k in s.owner {
      assert s.owner[k] != c;
      ConsumeTakes(s, k, cause);
    }
  }

  /** The wait of this call has been consumed, by this cause alone, and its fiber is queued. */
  ghost predicate ConsumedBy(s: S, s': S, c: nat, cause: Cause)
    requires c in s.calls && s.calls[c].pc.Waiting?
  {
    var w := WaitId(c, s.calls[c].pc.attempt);
    w in s'.log && s'.log[w] == [cause] && FiberTask(s.calls[c].fiber) in s'.table.queue
  }

  lemma MaskConsumes(s: S, c: nat, mask: Mask, cause: Cause)
    requires Inv(s) && c in s.calls && s.calls[c].pc.Waiting? && mask.Has(s.calls[c].slot.event)
    requires Registered(s, WaitId(c, s.calls[c].pc.attempt))
    ensures ConsumedBy(s, ConsumeMask(s, s.calls[c].slot.fd, mask, cause), c, cause)
  {
    var k := s.calls[c].slot;
    if k.event == READ {
      var s1 := Consume(s, k, cause);
      ConsumeOwn(s, c, cause);
      assert s1.table.queue[|s.table.queue|] == FiberTask(s.calls[c].fiber);
      ConsumeKeeps(s, k, cause);
      ConsumeOther(s1, Slot(k.fd, WRITE), c, cause);
    } else {
      var s1 := if mask.read then Consume(s, Slot(k.fd, READ), cause) else s;
      ConsumeKeeps(s, Slot(k.fd, READ), cause);
      ConsumeOther(s, Slot(k.fd, READ), c, cause);
      ConsumeOwn(s1, c, cause);
    }
  }

  /** Readiness consumes every wait of the descriptor it covers. */
  lemma ReadyConsumes(s: S, c: nat, mask: Mask)
    requires Inv(s) && c in s.calls && s.calls[c].pc.Waiting? && mask.Has(s.calls[c].slot.event)
    requires Registered(s, WaitId(c, s.calls[c].pc.attempt)) && Enabled(s, Ready(s.calls[c].slot.fd, mask))
    ensures ConsumedBy(s, Do(s, Ready(s.calls[c].slot.fd, mask)), c, Readiness)
  {
    MaskConsumes(s, c, mask, Readiness);
  }

  /** Closing the descriptor consumes every wait on it. */
  lemma CloseConsumes(s: S, c: nat)
    requires Inv(s) && c in s.calls && s.calls[c].pc.Waiting?
    requires Registered(s, WaitId(c, s.calls[c].pc.attempt))
    ensures ConsumedBy(s, Do(s, CloseFd(s.calls[c].slot.fd, true)), c, Close)
  {
    CloseIsMask(s, s.calls[c].slot.fd);
    MaskConsumes(s, c, Mask(true, true), Close);
  }

  lemma CloseIsMask(s: S, fd: nat)
    ensures Do(s, CloseFd(fd, true)) == ConsumeMask(s, fd, Mask(true, true), Close)
  {
  }

  /** Once the call has returned, at any later time a leftover callback of its changes nothing but its own timer. */
  lemma LeftoverCallbackIsHarmless(ss: seq<S>, steps: seq<Step>, i: nat, j: nat, c: nat)
    requires Run(ss, steps) && i <= j < |steps| && c in ss[i].calls && ss[i].calls[c].pc.Returned?
    requires steps[j].RunTimeout? && ss[j].timers[steps[j].t].call == c
    ensures var t := steps[j].t; ss[j + 1] == ss[j].(timers := ss[j].timers[t := ss[j].timers[t].(state := Done)])
  {
    StaysFrom(ss, steps, i, j, c);
    InvAt(ss, steps, j);
    ExpiredCallback(ss[j], steps[j].t, steps[j].works);
  }

  lemma ExpiredCallback(s: S, t: nat, works: bool)
    requires Infos(s) && Enabled(s, RunTimeout(t, works)) && !Live(s, s.timers[t].call)
    ensures Do(s, RunTimeout(t, works)) == s.(timers := s.timers[t := s.timers[t].(state := Done)])
  {
  }

  /** The flag is set exactly if a timeout callback of the call has run while it was in progress. */
  lemma CancelledIff(ss: seq<S>, steps: seq<Step>, i: nat, c: nat)
    requires Run(ss, steps) && i < |ss| && c in ss[i].calls
    ensures Cancelled(ss[i], c) <==> exists j :: 0 <= j < i && OwnTimeout(ss[j], steps[j], c)
  {
    if Cancelled(ss[i], c) {
      TimeoutNeedsOwnTimer(ss, steps, i, c);
    }
    forall j | 0 <= j < i && OwnTimeout(ss[j], steps[j], c)
      ensures Cancelled(ss[i], c)
    {
      TimeoutCancels(ss, steps, j, c);
      StaysFrom(ss, steps, j + 1, i, c);
    }
  }

  /**
    Over every run: a timeout callback changes nothing but its own timer exactly if its call has returned or a
    timeout callback of that call has run before.
   */
  lemma CallbackIdleIff(ss: seq<S>, steps: seq<Step>, i: nat)
    requires Run(ss, steps) && i < |steps| && steps[i].RunTimeout?
    ensures var s, t := ss[i], steps[i].t;
            ss[i + 1] == s.(timers := s.timers[t := s.timers[t].(state := Done)]) <==>
            !Live(s, s.timers[t].call) || exists j :: 0 <= j < i && OwnTimeout(ss[j], steps[j], s.timers[t].call)
  {
    var s, t, works := ss[i], steps[i].t, steps[i].works;
    InvAt(ss, steps, i);
    CancelledIff(ss, steps, i, s.timers[t].call);
    CallbackIdle(s, t, works);
  }

  lemma CallbackIdle(s: S, t: nat, works: bool)
    requires Infos(s) && Enabled(s, RunTimeout(t, works))
    ensures Do(s, RunTimeout(t, works)) == s.(timers := s.timers[t := s.timers[t].(state := Done)]) <==>
            !Live(s, s.timers[t].call) || Cancelled(s, s.timers[t].call)
  {
    if !Live(s, s.timers[t].call) {
      ExpiredCallback(s, t, works);
    } else if !Cancelled(s, s.timers[t].call) {
      OwnCancels(s, t, works);
    }
  }

  /**
    Over every run: a call that is resumed returns with a timeout exactly if a timeout callback of it has run before,
    and otherwise it tries again.
   */
  lemma ResumeOutcome(ss: seq<S>, steps: seq<Step>, i: nat, c: nat, n: nat)
    requires Run(ss, steps) && i < |steps| && steps[i] == Resume(c, n)
    ensures c in ss[i + 1].calls
    ensures ss[i + 1].calls[c].pc ==
            if exists j :: 0 <= j < i && OwnTimeout(ss[j], steps[j], c) then Returned(true) else Trying
  {
    CancelledIff(ss, steps, i, c);
    Resumed(ss[i], c, n);
  }

  lemma Resumed(s: S, c: nat, n: nat)
    requires Enabled(s, Resume(c, n))
    ensures var s' := Do(s, Resume(c, n));
            c in s'.calls && s'.calls[c].pc == if Cancelled(s, c) then Returned(true) else Trying
  {
  }

  /** The other ways out: a call that is not resumed never returns with a timeout. */
  lemma OtherOutcome(s: S, a: Step)
    requires Enabled(s, a) && (a.TryDone? || a.AddFails?)
    ensures a.c in Do(s, a).calls && Do(s, a).calls[a.c].pc == Returned(false)
  {
  }

  /** If the system refuses, a timeout callback or a close takes no waiter and queues nobody. */
  lemma RefusedTakesNobody(s: S, a: Step)
    requires Enabled(s, a) && ((a.RunTimeout? && !a.works) || (a.CloseFd? && !a.works))
    ensures var s' := Do(s, a);
            s'.table == s.table && s'.log == s.log && s'.owner == s.owner && s'.calls == s.calls
  {
  }

  /** Some timer of the call is armed or has its callback queued, and that callback would still act. */
  ghost predicate CanTimeOut(s: S, c: nat)
    requires c in s.calls
  {
    !Cancelled(s, c) && exists t :: t in s.timers && s.timers[t].call == c && s.timers[t].state != Done
  }

  /** A timed wait can still time out exactly if no timeout callback of the call has run before. */
  lemma TimeoutPossibleIff(ss: seq<S>, steps: seq<Step>, i: nat, c: nat)
    requires Run(ss, steps) && i < |ss| && c in ss[i].calls && ss[i].calls[c].timed && ss[i].calls[c].pc.Waiting?
    ensures CanTimeOut(ss[i], c) <==> !exists j :: 0 <= j < i && OwnTimeout(ss[j], steps[j], c)
  {
    InvAt(ss, steps, i);
    var t := ss[i].calls[c].pc.timer;
    assert t.Some? && t.value in ss[i].timers;
    if Cancelled(ss[i], c) {
      TimeoutNeedsOwnTimer(ss, steps, i, c);
    } else {
      forall j | 0 <= j < i
        ensures !OwnTimeout(ss[j], steps[j], c)
      {
        if OwnTimeout(ss[j], steps[j], c) {
          TimeoutCancels(ss, steps, j, c);
          StaysFrom(ss, steps, j + 1, i, c);
          assert false;
        }
      }
    }
  }

  lemma Extend(ss: seq<S>, steps: seq<Step>, a: Step) returns (ss': seq<S>, steps': seq<Step>)
    requires Run(ss, steps) && Enabled(ss[|steps|], a)
    ensures Run(ss', steps') && steps' == steps + [a] && ss' == ss + [Do(ss[|steps|], a)]
  {
    ss', steps' := ss + [Do(ss[|steps|], a)], steps + [a];
  }

  const READ5 := Slot(5, READ)

  /** Call 0 has armed timer 0. */
  lemma ArmedCall() returns (ss: seq<S>, steps: seq<Step>)
    ensures Run(ss, steps) && steps == [Begin(0, 0, READ5, true, 0), TryAgain(0, 0)]
    ensures ss[2] == START.(calls := map[0 := Call(0, READ5, true, Armed(Some(0)), 0, 0)],
                            infos := map[0 := Info(1, false)],
                            timers := map[0 := TimerRec(0, 0, READ5, Pending)], running := map[0 := 0])
  {
    ss, steps := [START], [];
    ss, steps := Extend(ss, steps, Begin(0, 0, READ5, true, 0));
    ss, steps := Extend(ss, steps, TryAgain(0, 0));
  }

  /** A timeout callback can run between arming the timer and addEvent. */
  lemma TimeoutBeforeAdd() returns (ss: seq<S>, steps: seq<Step>)
    ensures |steps| == 4 && Run(ss, steps)
    ensures ss[4] == START.(calls := map[0 := Call(0, READ5, true, Armed(Some(0)), 0, 0)],
                            infos := map[0 := Info(1, true)],
                            timers := map[0 := TimerRec(0, 0, READ5, Done)], running := map[0 := 0])
  {
    ss, steps := ArmedCall();
    ss, steps := Extend(ss, steps, TimerDue(0));
    ss, steps := Extend(ss, steps, RunTimeout(0, true));
  }

  /** Then the call registers a timed wait that never times out. */
  lemma TimeoutCanBeLost() returns (ss: seq<S>, steps: seq<Step>)
    ensures Run(ss, steps)
    ensures var s := ss[|steps|];
            0 in s.calls && s.calls[0].timed && s.calls[0].pc.Waiting?
            && Registered(s, WaitId(0, 0)) && !CanTimeOut(s, 0)
  {
    ss, steps := TimeoutBeforeAdd();
    ss, steps := Extend(ss, steps, AddOk(0));
  }

  /** The protocol moves the table exactly as the event table operations do. */
  lemma ConsumeIsTrigger(s: S, k: Slot, cause: Cause)
    ensures Consume(s, k, cause).table == Trigger(s.table, k)
  {
  }

  lemma ConsumeMaskIsTrigger(s: S, fd: nat, m: Mask, cause: Cause)
    ensures ConsumeMask(s, fd, m, cause).table == TriggerMask(s.table, fd, m)
  {
    var s1 := if m.read then Consume(s, Slot(fd, READ), cause) else s;
    ConsumeIsTrigger(s, Slot(fd, READ), cause);
    ConsumeIsTrigger(s1, Slot(fd, WRITE), cause);
  }
}
