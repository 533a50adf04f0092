/** The shared run queue, the threads that serve it, and the states of fibers, as steps of N threads. */
module Scheduling {
  import opened Common

  datatype FiberState = INIT | HOLD | EXEC | TERM | READY | EXCEPT

  predicate Ended(st: FiberState) {
    st == TERM || st == EXCEPT
  }

  datatype Work = FiberWork(fiber: nat) | CallbackWork(cb: nat)

  /** A queue entry; `ticket` tells entries apart, `pin` names the only thread that may take it. */
  datatype Entry = Entry(ticket: nat, work: Work, pin: Option<nat>)

  /** Where a thread is in its run loop. */
  datatype Thread =
    | Looping
    | Holding(entry: Entry)               // dequeued, not started
    | Running(fiber: nat, callback: bool) // inside swapIn; `callback`: the fiber is the thread's cb_fiber
    | Missed                              // found nothing to take
    | InIdle
    | Stopped

  datatype Taken = Taken(entry: Entry, thread: nat)

  datatype S = S(
    queue: seq<Entry>,
    fibers: map<nat, FiberState>,
    threads: seq<Thread>,
    cbFibers: seq<Option<nat>>,           // the callback fiber each thread keeps
    active: nat,
    idle: nat,
    next: nat,                            // the next ticket
    taken: map<nat, Taken>)               // by ticket

  // ----- the queue

  predicate IsFiber(e: Entry, f: nat) {
    e.work == FiberWork(f)
  }

  predicate InQueue(q: seq<Entry>, f: nat) {
    exists i :: 0 <= i < |q| && IsFiber(q[i], f)
  }

  predicate Held(ts: seq<Thread>, f: nat) {
    exists t :: 0 <= t < |ts| && ts[t].Holding? && IsFiber(ts[t].entry, f)
  }

  predicate Executes(w: Work, fibers: map<nat, FiberState>) {
    w.FiberWork? && w.fiber in fibers && fibers[w.fiber] == EXEC
  }

  predicate Elsewhere(pin: Option<nat>, t: nat) {
    pin.Some? && pin.value != t
  }

  /** What the scan of the queue passes over: entries of other threads, and fibers that are executing. */
  predicate Takeable(e: Entry, t: nat, fibers: map<nat, FiberState>) {
    && (e.pin.None? || e.pin.value == t)
    && !(e.work.FiberWork? && e.work.fiber in fibers && fibers[e.work.fiber] == EXEC)
  }

  /** The scan of the run loop: the first entry this thread may take. */
  method Scan(q: seq<Entry>, t: nat, fibers: map<nat, FiberState>) returns (i: nat)
    ensures i <= |q| && i == FirstTakeable(q, t, fibers)
    ensures i < |q| ==> !Elsewhere(q[i].pin, t) && !Executes(q[i].work, fibers)
    ensures forall j :: 0 <= j < i ==> Elsewhere(q[j].pin, t) || Executes(q[j].work, fibers)
  {
    i := 0;
    assert q[0..] == q;
    while i < |q|
      invariant i <= |q| && forall j :: 0 <= j < i ==> !Takeable(q[j], t, fibers)
      invariant FirstTakeable(q, t, fibers) == i + FirstTakeable(q[i..], t, fibers)
    {
      var e := q[i];
      if e.pin.Some? && e.pin.value != t {
        i := i + 1;
      } else if e.work.FiberWork? && e.work.fiber in fibers && fibers[e.work.fiber] == EXEC {
        i := i + 1;
      } else {
        return;
      }
    }
  }

  function FirstTakeable(q: seq<Entry>, t: nat, fibers: map<nat, FiberState>): (i: nat)
    ensures i <= |q|
    ensures i < |q| ==> Takeable(q[i], t, fibers)
  {
    if q == [] || Takeable(q[0], t, fibers) then 0 else 1 + FirstTakeable(q[1..], t, fibers)
  }

  function Push(s: S, w: Work, pin: Option<nat>): S {
    s.(queue := s.queue + [Entry(s.next, w, pin)], next := s.next + 1)
  }

  // ----- the steps

  datatype Step =
    | NewFiber(f: nat)
    | Submit(w: Work, pin: Option<nat>)
    | Dequeue(t: nat)
    | Start(t: nat, spare: nat)              // `spare`: the address of a new cb_fiber, if one is made
    | Finish(t: nat, outcome: FiberState)    // the fiber yields or ends, with the bookkeeping that follows
    | EnterIdle(t: nat)
    | LeaveIdle(t: nat)
    | Stop(t: nat)

  /** A fiber kept by some thread for its callbacks. */
  predicate Kept(s: S, f: nat) {
    exists t :: 0 <= t < |s.cbFibers| && s.cbFibers[t] == Some(f)
  }

  /** What can happen: scheduleNoLock takes any fiber there is, queued already or not. */
  predicate Enabled(s: S, a: Step) {
    match a
    case NewFiber(f) => f !in s.fibers
    case Submit(w, _) => w.FiberWork? ==> w.fiber in s.fibers
    case Dequeue(t) => t < |s.threads| && s.threads[t].Looping?
    case Start(t, spare) => t < |s.threads| && t < |s.cbFibers| && s.threads[t].Holding? && spare !in s.fibers
    case Finish(t, outcome) =>
      t < |s.threads| && t < |s.cbFibers| && s.threads[t].Running? && outcome in {READY, HOLD, TERM, EXCEPT}
    case EnterIdle(t) => t < |s.threads| && s.threads[t].Missed?
    case LeaveIdle(t) => t < |s.threads| && s.threads[t].InIdle?
    case Stop(t) => t < |s.threads| && s.threads[t].Missed?
  }

  /** A fiber goes back to the queue, or to the thread that keeps it. */
  predicate GoesBack(callback: bool, st: FiberState) {
    st == READY || (callback && Ended(st))
  }

  /**
    What keeps fibers apart: no fiber is submitted that is queued, or dequeued but not started, or a callback fiber
    that a thread keeps and whose callback has ended; and a fiber submitted while it executes does not also go back
    by itself.
   */
  predicate Careful(s: S, a: Step)
    requires Enabled(s, a)
  {
    match a
    case Finish(t, outcome) =>
      GoesBack(s.threads[t].callback, outcome) ==> !InQueue(s.queue, s.threads[t].fiber)
    case Submit(FiberWork(f), _) =>
      !InQueue(s.queue, f) && !Held(s.threads, f) && (Kept(s, f) ==> s.fibers[f] == EXEC)
    case _ => true
  }

  /** The assertions of swapIn and reset that a step runs into. */
  predicate AssertsHold(s: S, a: Step)
    requires Enabled(s, a)
  {
    match a
    case Start(t, _) =>
      (match s.threads[t].entry.work
       case FiberWork(f) => f in s.fibers && s.fibers[f] != EXEC
       case CallbackWork(_) =>
         s.cbFibers[t].Some? ==>
           s.cbFibers[t].value in s.fibers &&
           (Ended(s.fibers[s.cbFibers[t].value]) || s.fibers[s.cbFibers[t].value] == INIT))
    case _ => true
  }

  function SetThread(s: S, t: nat, th: Thread): S
    requires t < |s.threads|
  {
    s.(threads := s.threads[t := th])
  }

  function SetFiber(s: S, f: nat, st: FiberState): S {
    s.(fibers := s.fibers[f := st])
  }

  function Do(s: S, a: Step): S
    requires Enabled(s, a)
  {
    match a
    case NewFiber(f) => SetFiber(s, f, INIT)
    case Submit(w, pin) => Push(s, w, pin)
    case Dequeue(t) =>
      var i := FirstTakeable(s.queue, t, s.fibers);
      if i == |s.queue| then SetThread(s, t, Missed)
      else
        var e := s.queue[i];
        SetThread(s, t, Holding(e)).(queue := Without(s.queue, i), active := s.active + 1,
                                     taken := s.taken[e.ticket := Taken(e, t)])
    case Start(t, spare) =>
      (match s.threads[t].entry.work
       case FiberWork(f) =>
         if f in s.fibers && !Ended(s.fibers[f]) then SetThread(SetFiber(s, f, EXEC), t, Running(f, false))
         else SetThread(s, t, Looping).(active := Decrement(s.active))
       case CallbackWork(_) =>
         var g := if s.cbFibers[t].Some? then s.cbFibers[t].value else spare;
         SetThread(SetFiber(s, g, EXEC), t, Running(g, true)).(cbFibers := s.cbFibers[t := Some(g)]))
    case Finish(t, outcome) =>
      var Running(f, callback) := s.threads[t];
      var s1 := SetThread(s, t, Looping).(active := Decrement(s.active));
      if outcome == READY then
        Push(SetFiber(s1, f, READY), FiberWork(f), None)
          .(cbFibers := if callback then s.cbFibers[t := None] else s.cbFibers)
      else if Ended(outcome) then
        SetFiber(s1, f, if callback then INIT else outcome)
      else
        SetFiber(s1, f, HOLD).(cbFibers := if callback then s.cbFibers[t := None] else s.cbFibers)
    case EnterIdle(t) => SetThread(s, t, InIdle).(idle := s.idle + 1)
    case LeaveIdle(t) => SetThread(s, t, Looping).(idle := Decrement(s.idle))
    case Stop(t) => SetThread(s, t, Stopped)
  }

  // ----- invariants

  predicate Busy(th: Thread) {
    th.Holding? || th.Running?
  }

  function CountBusy(ts: seq<Thread>): nat {
    if ts == [] then 0 else CountBusy(ts[..|ts| - 1]) + if Busy(ts[|ts| - 1]) then 1 else 0
  }

  function CountIdle(ts: seq<Thread>): nat {
    if ts == [] then 0 else CountIdle(ts[..|ts| - 1]) + if ts[|ts| - 1].InIdle? then 1 else 0
  }

  lemma {:induction false} CountsAfter(ts: seq<Thread>, t: nat, th: Thread)
    requires t < |ts|
    ensures CountBusy(ts[t := th]) ==
            CountBusy(ts) - (if Busy(ts[t]) then 1 else 0) + (if Busy(th) then 1 else 0)
    ensures CountIdle(ts[t := th]) ==
            CountIdle(ts) - (if ts[t].InIdle? then 1 else 0) + (if th.InIdle? then 1 else 0)
  {
    var n := |ts| - 1;
    if t < n {
      CountsAfter(ts[..n], t, th);
      assert ts[t := th][..n] == ts[..n][t := th];
    } else {
      assert ts[t := th][..n] == ts[..n];
    }
  }

  ghost predicate Counters(s: S) {
    s.active == CountBusy(s.threads) && s.idle == CountIdle(s.threads)
  }

  /** Every ticket ever issued is either in the queue, once, or has been taken, by a thread it allows. */
  ghost predicate Tickets(s: S) {
    && (forall i :: 0 <= i < |s.queue| ==> s.queue[i].ticket < s.next && s.queue[i].ticket !in s.taken)
    && (forall i, j :: 0 <= i < j < |s.queue| ==> s.queue[i].ticket != s.queue[j].ticket)
    && (forall k: nat :: k < s.next ==> k in s.taken || HasTicket(s.queue, k))
    && (forall k :: k in s.taken ==> k < s.next && TakenRightly(s.taken[k], k))
  }

  predicate HasTicket(q: seq<Entry>, k: nat) {
    exists i :: 0 <= i < |q| && q[i].ticket == k
  }

  predicate TakenRightly(x: Taken, k: nat) {
    x.entry.ticket == k && (x.entry.pin.None? || x.entry.pin.value == x.thread)
  }

  /** A fiber is queued or held at most once in all, and while held it does not execute. */
  ghost predicate Unique(s: S) {
    && (forall i, j :: 0 <= i < j < |s.queue| && s.queue[i].work.FiberWork? ==> s.queue[i].work != s.queue[j].work)
    && (forall t :: 0 <= t < |s.threads| && s.threads[t].Holding? && s.threads[t].entry.work.FiberWork? ==>
         var f := s.threads[t].entry.work.fiber;
         !InQueue(s.queue, f) && f in s.fibers && s.fibers[f] != EXEC)
    && (forall t, u :: 0 <= t < u < |s.threads| && s.threads[t].Holding? && s.threads[u].Holding?
                       && s.threads[t].entry.work.FiberWork? ==>
         s.threads[t].entry.work != s.threads[u].entry.work)
    && (forall i :: 0 <= i < |s.queue| && s.queue[i].work.FiberWork? ==> s.queue[i].work.fiber in s.fibers)
  }

  /** A running fiber executes, on one thread only. */
  ghost predicate Exclusive(s: S) {
    && (forall t :: 0 <= t < |s.threads| && s.threads[t].Running? ==>
         s.threads[t].fiber in s.fibers && s.fibers[s.threads[t].fiber] == EXEC)
    && (forall t, u :: 0 <= t < u < |s.threads| && s.threads[t].Running? && s.threads[u].Running? ==>
         s.threads[t].fiber != s.threads[u].fiber)
  }

  /** The callback fiber a thread keeps is running there, or idle in state INIT and nowhere else. */
  ghost predicate Pool(s: S) {
    && |s.cbFibers| == |s.threads|
    && (forall t :: 0 <= t < |s.threads| && s.threads[t].Running? && s.threads[t].callback ==>
         s.cbFibers[t] == Some(s.threads[t].fiber))
    && (forall t :: 0 <= t < |s.threads| && s.cbFibers[t].Some? ==> KeptRightly(s, t, s.cbFibers[t].value))
    && (forall t, u :: 0 <= t < u < |s.threads| && s.cbFibers[t].Some? ==> s.cbFibers[t] != s.cbFibers[u])
  }

  predicate KeptRightly(s: S, t: nat, g: nat)
    requires t < |s.threads|
  {
    && g in s.fibers
    && if s.threads[t] == Running(g, true) then s.fibers[g] == EXEC
       else s.fibers[g] == INIT && !InQueue(s.queue, g) && !Held(s.threads, g)
  }

  /** A fiber that yielded READY is queued or held: it is not lost. */
  ghost predicate ReadyKept(s: S) {
    forall f :: ReadyHere(s, f)
  }

  predicate ReadyHere(s: S, f: nat) {
    f in s.fibers && s.fibers[f] == READY ==> InQueue(s.queue, f) || Held(s.threads, f)
  }

  /** All but the counters and tickets, which no step can spoil, and the fate of fibers that yielded READY. */
  ghost predicate Orderly(s: S) {
    Unique(s) && Exclusive(s) && Pool(s)
  }

  ghost predicate Inv(s: S) {
    Counters(s) && Tickets(s) && Unique(s) && Exclusive(s) && Pool(s) && ReadyKept(s)
  }

  lemma StepCounters(s: S, a: Step)
    requires Counters(s) && Enabled(s, a)
    ensures Counters(Do(s, a))
  {
    match a
    case Dequeue(t) =>
      var i := FirstTakeable(s.queue, t, s.fibers);
      CountsAfter(s.threads, t, if i == |s.queue| then Missed else Holding(s.queue[i]));
    case Start(t, spare) =>
      CountsAfter(s.threads, t, Do(s, a).threads[t]);
    case Finish(t, _) => CountsAfter(s.threads, t, Looping);
    case EnterIdle(t) => CountsAfter(s.threads, t, InIdle);
    case LeaveIdle(t) => CountsAfter(s.threads, t, Looping);
    case Stop(t) => CountsAfter(s.threads, t, Stopped);
    case _ =>
  }

  lemma PushTickets(s: S, w: Work, pin: Option<nat>)
    requires Tickets(s)
    ensures Tickets(Push(s, w, pin))
  {
    var s' := Push(s, w, pin);
    forall k: nat | k < s'.next
      ensures k in s'.taken || HasTicket(s'.queue, k)
    {
      if k == s.next {
        assert s'.queue[|s.queue|].ticket == k;
      } else if k !in s.taken {
        var i :| 0 <= i < |s.queue| && s.queue[i].ticket == k;
        assert s'.queue[i].ticket == k;
      }
    }
  }

  function Without(q: seq<Entry>, n: nat): seq<Entry>
    requires n < |q|
  {
    q[..n] + q[n + 1..]
  }

  lemma WithoutTickets(q: seq<Entry>, n: nat, k: nat)
    requires n < |q| && forall i, j :: 0 <= i < j < |q| ==> q[i].ticket != q[j].ticket
    ensures HasTicket(Without(q, n), k) <==> HasTicket(q, k) && k != q[n].ticket
  {
    var r := Without(q, n);
    if HasTicket(r, k) {
      var i :| 0 <= i < |r| && r[i].ticket == k;
      assert q[if i < n then i else i + 1].ticket == k;
    }
    if HasTicket(q, k) && k != q[n].ticket {
      var i :| 0 <= i < |q| && q[i].ticket == k;
      assert r[if i < n then i else i - 1].ticket == k;
    }
  }

  lemma WithoutDistinct(q: seq<Entry>, n: nat)
    requires n < |q| && forall i, j :: 0 <= i < j < |q| ==> q[i].ticket != q[j].ticket
    ensures forall i, j :: 0 <= i < j < |Without(q, n)| ==> Without(q, n)[i].ticket != Without(q, n)[j].ticket
    ensures forall i :: 0 <= i < |Without(q, n)| ==> Without(q, n)[i] in q && Without(q, n)[i].ticket != q[n].ticket
  {
  }

  lemma DequeueTickets(s: S, t: nat)
    requires Tickets(s) && Enabled(s, Dequeue(t))
    ensures Tickets(Do(s, Dequeue(t)))
  {
    var s', n := Do(s, Dequeue(t)), FirstTakeable(s.queue, t, s.fibers);
    if n < |s.queue| {
      WithoutDistinct(s.queue, n);
      forall k: nat | k < s'.next
        ensures k in s'.taken || HasTicket(s'.queue, k)
      {
        WithoutTickets(s.queue, n, k);
      }
    }
  }

  lemma StepTickets(s: S, a: Step)
    requires Tickets(s) && Enabled(s, a)
    ensures Tickets(Do(s, a))
  {
    match a
    case Submit(w, pin) => PushTickets(s, w, pin);
    case Dequeue(t) => DequeueTickets(s, t);
    case Finish(t, outcome) =>
      if outcome == READY {
        PushTickets(s, FiberWork(s.threads[t].fiber), None);
      }
    case _ =>
  }

  lemma DequeueUnique(s: S, a: Step)
    requires Unique(s) && a.Dequeue? && Enabled(s, a)
    ensures Unique(Do(s, a))
  {
  }

  lemma StartUnique(s: S, a: Step)
    requires Unique(s) && Pool(s) && a.Start? && Enabled(s, a)
    ensures Unique(Do(s, a))
  {
  }

  lemma FinishUnique(s: S, a: Step)
    requires Unique(s) && Exclusive(s) && a.Finish? && Enabled(s, a) && Careful(s, a)
    ensures Unique(Do(s, a))
  {
  }

  lemma StepUnique(s: S, a: Step)
    requires Unique(s) && Exclusive(s) && Pool(s) && Enabled(s, a) && Careful(s, a)
    ensures Unique(Do(s, a))
  {
    match a
    case Dequeue(_) => DequeueUnique(s, a);
    case Start(_, _) => StartUnique(s, a);
    case Finish(_, _) => FinishUnique(s, a);
    case _ =>
  }

  lemma StartExclusive(s: S, a: Step)
    requires Unique(s) && Exclusive(s) && Pool(s) && a.Start? && Enabled(s, a)
    ensures Exclusive(Do(s, a))
  {
  }

  lemma FinishExclusive(s: S, a: Step)
    requires Exclusive(s) && a.Finish? && Enabled(s, a)
    ensures Exclusive(Do(s, a))
  {
  }

  lemma StepExclusive(s: S, a: Step)
    requires Unique(s) && Exclusive(s) && Pool(s) && Enabled(s, a)
    ensures Exclusive(Do(s, a))
  {
    match a
    case Start(_, _) => StartExclusive(s, a);
    case Finish(_, _) => FinishExclusive(s, a);
    case _ =>
  }

  lemma SubmitPool(s: S, a: Step)
    requires Pool(s) && (a.Submit? || a.NewFiber?) && Enabled(s, a) && Careful(s, a)
    ensures Pool(Do(s, a))
  {
  }

  lemma DequeuePool(s: S, a: Step)
    requires Pool(s) && a.Dequeue? && Enabled(s, a)
    ensures Pool(Do(s, a))
  {
  }

  lemma StartFiberPool(s: S, a: Step)
    requires Unique(s) && Pool(s) && a.Start? && Enabled(s, a) && s.threads[a.t].entry.work.FiberWork?
    ensures Pool(Do(s, a))
  {
  }

  lemma StartCallbackPool(s: S, a: Step)
    requires Unique(s) && Exclusive(s) && Pool(s) && a.Start? && Enabled(s, a)
    requires s.threads[a.t].entry.work.CallbackWork?
    ensures Pool(Do(s, a))
  {
  }

  lemma StartPool(s: S, a: Step)
    requires Unique(s) && Exclusive(s) && Pool(s) && a.Start? && Enabled(s, a)
    ensures Pool(Do(s, a))
  {
    if s.threads[a.t].entry.work.FiberWork? {
      StartFiberPool(s, a);
    } else {
      StartCallbackPool(s, a);
    }
  }

  lemma ReadyPool(s: S, a: Step)
    requires Unique(s) && Exclusive(s) && Pool(s) && a.Finish? && a.outcome == READY && Enabled(s, a) && Careful(s, a)
    ensures Pool(Do(s, a))
  {
  }

  lemma YieldPool(s: S, a: Step)
    requires Unique(s) && Exclusive(s) && Pool(s) && a.Finish? && a.outcome != READY && Enabled(s, a) && Careful(s, a)
    ensures Pool(Do(s, a))
  {
  }

  lemma FinishPool(s: S, a: Step)
    requires Unique(s) && Exclusive(s) && Pool(s) && a.Finish? && Enabled(s, a) && Careful(s, a)
    ensures Pool(Do(s, a))
  {
    if a.outcome == READY {
      ReadyPool(s, a);
    } else {
      YieldPool(s, a);
    }
  }

  lemma StepPool(s: S, a: Step)
    requires Unique(s) && Exclusive(s) && Pool(s) && Enabled(s, a) && Careful(s, a)
    ensures Pool(Do(s, a))
  {
    match a
    case Submit(_, _) => SubmitPool(s, a);
    case NewFiber(_) => SubmitPool(s, a);
    case Dequeue(_) => DequeuePool(s, a);
    case Start(_, _) => StartPool(s, a);
    case Finish(_, _) => FinishPool(s, a);
    case _ =>
  }

  lemma DequeueReady(s: S, t: nat, f: nat)
    requires ReadyHere(s, f) && Enabled(s, Dequeue(t)) && f in s.fibers && s.fibers[f] == READY
    ensures InQueue(Do(s, Dequeue(t)).queue, f) || Held(Do(s, Dequeue(t)).threads, f)
  {
    var s', n := Do(s, Dequeue(t)), FirstTakeable(s.queue, t, s.fibers);
    if Held(s.threads, f) {
      var u :| 0 <= u < |s.threads| && s.threads[u].Holding? && IsFiber(s.threads[u].entry, f);
      assert s'.threads[u] == s.threads[u];
    } else if n < |s.queue| {
      var i :| 0 <= i < |s.queue| && IsFiber(s.queue[i], f);
      if i == n {
        assert IsFiber(s'.threads[t].entry, f);
      } else {
        assert s'.queue[if i < n then i else i - 1] == s.queue[i];
      }
    }
  }

  lemma PushKeeps(s: S, w: Work, pin: Option<nat>, f: nat)
    ensures InQueue(Push(s, w, pin).queue, f) <==> InQueue(s.queue, f) || w == FiberWork(f)
  {
    var q := Push(s, w, pin).queue;
    if w == FiberWork(f) {
      assert IsFiber(q[|s.queue|], f);
    } else if InQueue(s.queue, f) {
      var i :| 0 <= i < |s.queue| && IsFiber(s.queue[i], f);
      assert q[i] == s.queue[i];
    }
  }

  /** Only a thread's own place changes, so whoever else holds the fiber still does. */
  lemma HeldKept(s: S, s': S, t: nat, f: nat)
    requires t < |s.threads| == |s'.threads| && s'.threads == s.threads[t := s'.threads[t]]
    requires Held(s.threads, f) && !(s.threads[t].Holding? && IsFiber(s.threads[t].entry, f))
    ensures Held(s'.threads, f)
  {
    var u :| 0 <= u < |s.threads| && s.threads[u].Holding? && IsFiber(s.threads[u].entry, f);
    assert s'.threads[u] == s.threads[u];
  }

  lemma StepReadyHere(s: S, a: Step, f: nat)
    requires Orderly(s) && ReadyHere(s, f) && Enabled(s, a)
    ensures ReadyHere(Do(s, a), f)
  {
    var s' := Do(s, a);
    if f in s'.fibers && s'.fibers[f] == READY {
      match a
      case Submit(w, pin) => PushKeeps(s, w, pin, f);
      case NewFiber(_) =>
      case Dequeue(t) => DequeueReady(s, t, f);
      case Finish(t, outcome) =>
        PushKeeps(s, FiberWork(s.threads[t].fiber), None, f);
        if Held(s.threads, f) {
          HeldKept(s, s', t, f);
        }
      case _ =>
        if Held(s.threads, f) {
          HeldKept(s, s', a.t, f);
        }
    }
  }

  lemma StepReady(s: S, a: Step)
    requires Orderly(s) && ReadyKept(s) && Enabled(s, a)
    ensures ReadyKept(Do(s, a))
  {
    forall f ensures ReadyHere(Do(s, a), f) {
      StepReadyHere(s, a, f);
    }
  }

  lemma StepOrderly(s: S, a: Step)
    requires Orderly(s) && Enabled(s, a) && Careful(s, a)
    ensures Orderly(Do(s, a))
  {
    StepUnique(s, a);
    StepExclusive(s, a);
    StepPool(s, a);
  }

  lemma StepKeepsInv(s: S, a: Step)
    requires Inv(s) && Enabled(s, a) && Careful(s, a)
    ensures Inv(Do(s, a))
  {
    StepCounters(s, a);
    StepTickets(s, a);
    StepOrderly(s, a);
    StepReady(s, a);
  }

  /** While the invariant holds no assertion fails, whatever the step. */
  lemma AssertsNeverFail(s: S, a: Step)
    requires Inv(s) && Enabled(s, a)
    ensures AssertsHold(s, a)
  {
  }

  /** A slice that ends keeps the invariant exactly if its fiber does not go back while it is queued already. */
  lemma FinishSafeIff(s: S, t: nat, outcome: FiberState)
    requires Inv(s) && Enabled(s, Finish(t, outcome))
    ensures Inv(Do(s, Finish(t, outcome))) <==>
            !(GoesBack(s.threads[t].callback, outcome) && InQueue(s.queue, s.threads[t].fiber))
  {
    var a, f := Finish(t, outcome), s.threads[t].fiber;
    if Careful(s, a) {
      StepKeepsInv(s, a);
    } else {
      var s' := Do(s, a);
      var i :| 0 <= i < |s.queue| && IsFiber(s.queue[i], f);
      assert s'.queue[i] == s.queue[i];
      if outcome == READY {
        assert s'.queue[i].work == s'.queue[|s.queue|].work && !Unique(s');
      } else {
        assert InQueue(s'.queue, f) && !KeptRightly(s', t, f) && !Pool(s');
      }
    }
  }

  /**
    A submission keeps the invariant exactly if the fiber is neither queued nor dequeued and not started, nor kept by
    a thread with its callback ended.
   */
  lemma SubmitSafeIff(s: S, f: nat, pin: Option<nat>)
    requires Inv(s) && Enabled(s, Submit(FiberWork(f), pin))
    ensures Inv(Do(s, Submit(FiberWork(f), pin))) <==>
            !InQueue(s.queue, f) && !Held(s.threads, f) && (Kept(s, f) ==> s.fibers[f] == EXEC)
  {
    var a := Submit(FiberWork(f), pin);
    var s' := Do(s, a);
    if Careful(s, a) {
      StepKeepsInv(s, a);
    } else if InQueue(s.queue, f) {
      var i :| 0 <= i < |s.queue| && IsFiber(s.queue[i], f);
      assert s'.queue[i].work == s'.queue[|s.queue|].work && !Unique(s');
    } else {
      PushKeeps(s, FiberWork(f), pin, f);
      if Held(s.threads, f) {
        var t :| 0 <= t < |s.threads| && s.threads[t].Holding? && IsFiber(s.threads[t].entry, f);
        assert s'.threads[t] == s.threads[t] && !Unique(s');
      } else {
        var t :| 0 <= t < |s.cbFibers| && s.cbFibers[t] == Some(f);
        assert !KeptRightly(s', t, f) && !Pool(s');
      }
    }
  }

  // ----- whole runs

  function Initial(threads: nat): S {
    S([], map[], seq(threads, i => Looping), seq(threads, i => None), 0, 0, 0, map[])
  }

  ghost predicate Run(ss: seq<S>, steps: seq<Step>, threads: nat) {
    && |ss| == |steps| + 1 && ss[0] == Initial(threads)
    && forall i :: 0 <= i < |steps| ==> Enabled(ss[i], steps[i]) && ss[i + 1] == Do(ss[i], steps[i])
  }

  lemma {:induction false} NothingCounted(n: nat)
    ensures CountBusy(seq(n, i => Looping)) == 0 && CountIdle(seq(n, i => Looping)) == 0
  {
    if n > 0 {
      NothingCounted(n - 1);
      assert seq(n, i => Looping)[..n - 1] == seq(n - 1, i => Looping);
    }
  }

  /** Over every interleaving no entry is lost or taken twice or by a thread it is not pinned to, and the counters
      count the busy and the idle threads. */
  lemma {:induction false} RunsKeepEntries(ss: seq<S>, steps: seq<Step>, threads: nat)
    requires Run(ss, steps, threads)
    ensures forall i :: 0 <= i < |ss| ==> Counters(ss[i]) && Tickets(ss[i])
  {
    NothingCounted(threads);
    for i := 0 to |steps|
      invariant forall j :: 0 <= j <= i ==> Counters(ss[j]) && Tickets(ss[j])
    {
      StepCounters(ss[i], steps[i]);
      StepTickets(ss[i], steps[i]);
    }
  }

  lemma InitialInv(threads: nat)
    ensures Inv(Initial(threads))
  {
    NothingCounted(threads);
  }

  /**
    Over every interleaving of careful steps no fiber runs on two threads; and up to the step after the first
    careless one no assertion of swapIn or reset fails.
   */
  lemma {:induction false} RunsAreSafe(ss: seq<S>, steps: seq<Step>, threads: nat, n: nat)
    requires Run(ss, steps, threads) && n <= |steps| && forall i :: 0 <= i < n ==> Careful(ss[i], steps[i])
    ensures forall i :: 0 <= i <= n ==> Inv(ss[i])
    ensures forall i :: 0 <= i <= n && i < |steps| ==> AssertsHold(ss[i], steps[i])
  {
    InitialInv(threads);
    for i := 0 to n
      invariant forall j :: 0 <= j <= i ==> Inv(ss[j])
    {
      StepKeepsInv(ss[i], steps[i]);
    }
    forall i | 0 <= i <= n && i < |steps|
      ensures AssertsHold(ss[i], steps[i])
    {
      AssertsNeverFail(ss[i], steps[i]);
    }
  }

  // ----- what becomes of a fiber

  /** The fiber is on some thread. */
  predicate RunsSomewhere(s: S, f: nat) {
    exists t :: 0 <= t < |s.threads| && s.threads[t].Running? && s.threads[t].fiber == f
  }

  /** The fiber has ended, no thread keeps it for its callbacks, and none runs it. */
  predicate Gone(s: S, f: nat) {
    f in s.fibers && Ended(s.fibers[f]) && !Kept(s, f) && !RunsSomewhere(s, f)
  }

  /** No step brings it back, careful or not: an entry of it that is still queued is dropped. */
  lemma GoneStays(s: S, a: Step, f: nat)
    requires Enabled(s, a) && Gone(s, f)
    ensures Gone(Do(s, a), f) && Do(s, a).fibers[f] == s.fibers[f]
  {
  }

  /** Short of a failed assertion no fiber runs on two threads, however careless the steps. */
  lemma AssertedExclusive(s: S, a: Step)
    requires Exclusive(s) && Enabled(s, a) && AssertsHold(s, a)
    ensures Exclusive(Do(s, a))
  {
    if a.Start? {
      AssertedStart(s, a);
    } else if a.Finish? {
      FinishExclusive(s, a);
    }
  }

  lemma AssertedStart(s: S, a: Step)
    requires Exclusive(s) && a.Start? && Enabled(s, a) && AssertsHold(s, a)
    ensures Exclusive(Do(s, a))
  {
  }

  /**
    Over every run: a fiber that has ended, and is kept by no thread, keeps its state and is on no thread from then
    on. Up to then no assertion has failed; what is submitted, by whom, and what happens afterwards is arbitrary.
   */
  lemma EndedForGood(ss: seq<S>, steps: seq<Step>, threads: nat, i: nat, j: nat, f: nat)
    requires Run(ss, steps, threads) && i <= j < |ss| && forall k :: 0 <= k < i ==> AssertsHold(ss[k], steps[k])
    requires f in ss[i].fibers && Ended(ss[i].fibers[f]) && !Kept(ss[i], f)
    ensures f in ss[j].fibers && ss[j].fibers[f] == ss[i].fibers[f]
    ensures forall t :: 0 <= t < |ss[j].threads| && ss[j].threads[t].Running? ==> ss[j].threads[t].fiber != f
  {
    for k := 0 to i
      invariant Exclusive(ss[k])
    {
      AssertedExclusive(ss[k], steps[k]);
    }
    assert Gone(ss[i], f);
    for k := i to j
      invariant Gone(ss[k], f) && ss[k].fibers[f] == ss[i].fibers[f]
    {
      GoneStays(ss[k], steps[k], f);
    }
  }

  /**
    What a thread takes: the first entry that is neither pinned to another thread nor a fiber in state EXEC. It
    leaves the queue, which keeps its order, and the thread holds it; if there is none the thread has missed.
   */
  lemma DequeueOutcome(s: S, t: nat, i: nat)
    requires Enabled(s, Dequeue(t)) && i <= |s.queue|
    requires forall j :: 0 <= j < i ==> Elsewhere(s.queue[j].pin, t) || Executes(s.queue[j].work, s.fibers)
    requires i < |s.queue| ==> !Elsewhere(s.queue[i].pin, t) && !Executes(s.queue[i].work, s.fibers)
    ensures var s' := Do(s, Dequeue(t));
            && s'.fibers == s.fibers && s'.cbFibers == s.cbFibers && s'.idle == s.idle && s'.next == s.next
            && (i < |s.queue| ==>
                  s'.threads == s.threads[t := Holding(s.queue[i])] && s'.queue == s.queue[..i] + s.queue[i + 1..]
                  && s'.active == s.active + 1
                  && s'.taken == s.taken[s.queue[i].ticket := Taken(s.queue[i], t)])
            && (i == |s.queue| ==>
                  s'.threads == s.threads[t := Missed] && s'.queue == s.queue && s'.active == s.active
                  && s'.taken == s.taken)
  {
    FirstIs(s.queue, t, s.fibers, i);
  }

  lemma {:induction false} FirstIs(q: seq<Entry>, t: nat, fibers: map<nat, FiberState>, i: nat)
    requires i <= |q| && (forall j :: 0 <= j < i ==> !Takeable(q[j], t, fibers))
    requires i < |q| ==> Takeable(q[i], t, fibers)
    ensures FirstTakeable(q, t, fibers) == i
  {
    if i > 0 {
      FirstIs(q[1..], t, fibers, i - 1);
    }
  }

  /**
    What starting a dequeued entry comes to: a fiber that has not ended executes on the thread, one that has is
    dropped, and a callback executes on the fiber the thread keeps for callbacks, or else on a new one it keeps.
   */
  lemma StartOutcome(s: S, t: nat, spare: nat)
    requires Enabled(s, Start(t, spare)) && AssertsHold(s, Start(t, spare))
    ensures var s', w := Do(s, Start(t, spare)), s.threads[t].entry.work;
            && s'.queue == s.queue && s'.next == s.next && s'.taken == s.taken && s'.idle == s.idle
            && (forall u :: 0 <= u < |s.threads| && u != t ==>
                  s'.threads[u] == s.threads[u] && (u < |s.cbFibers| ==> s'.cbFibers[u] == s.cbFibers[u]))
            && (w.FiberWork? && s.fibers[w.fiber] !in {TERM, EXCEPT} ==>
                  s'.threads[t] == Running(w.fiber, false) && s'.fibers == s.fibers[w.fiber := EXEC]
                  && s'.cbFibers == s.cbFibers && s'.active == s.active)
            && (w.FiberWork? && s.fibers[w.fiber] in {TERM, EXCEPT} ==>
                  s'.threads[t] == Looping && s'.fibers == s.fibers
                  && s'.cbFibers == s.cbFibers && (s.active > 0 ==> s'.active == s.active - 1))
            && (w.CallbackWork? ==>
                  s'.cbFibers[t] == (if s.cbFibers[t].Some? then s.cbFibers[t] else Some(spare))
                  && s'.threads[t] == Running(s'.cbFibers[t].value, true)
                  && s'.fibers == s.fibers[s'.cbFibers[t].value := EXEC] && s'.active == s.active)
  {
  }

  /**
    What the end of a slice comes to: a fiber that yielded READY goes to the end of the queue, once, for any thread,
    and no other does; the thread keeps its callback fiber, made fresh, only if the callback has ended.
   */
  lemma FinishOutcome(s: S, t: nat, outcome: FiberState)
    requires Enabled(s, Finish(t, outcome))
    ensures var s', f, callback := Do(s, Finish(t, outcome)), s.threads[t].fiber, s.threads[t].callback;
            && s'.threads == s.threads[t := Looping] && (s.active > 0 ==> s'.active == s.active - 1)
            && s'.idle == s.idle && s'.taken == s.taken
            && s'.fibers == s.fibers[f := if callback && outcome in {TERM, EXCEPT} then INIT else outcome]
            && s'.queue == s.queue + (if outcome == READY then [Entry(s.next, FiberWork(f), None)] else [])
            && s'.next == s.next + (if outcome == READY then 1 else 0)
            && s'.cbFibers == if callback && outcome in {READY, HOLD} then s.cbFibers[t := None] else s.cbFibers
  {
  }

  /** Scheduler::stopping */
  predicate Stopping(s: S, autoStop: bool, stopping: bool) {
    autoStop && stopping && s.queue == [] && s.active == 0
  }

  lemma {:induction false} NoneBusy(ts: seq<Thread>)
    requires CountBusy(ts) == 0
    ensures forall t :: 0 <= t < |ts| ==> !Busy(ts[t])
  {
    if ts != [] {
      NoneBusy(ts[..|ts| - 1]);
      assert forall t :: 0 <= t < |ts| - 1 ==> ts[t] == ts[..|ts| - 1][t];
    }
  }

  /** When stopping() says so, every ticket ever issued has been taken and no thread holds or runs anything. */
  lemma StoppingMeansDone(s: S, autoStop: bool, stopping: bool)
    requires Counters(s) && Tickets(s) && Stopping(s, autoStop, stopping)
    ensures forall k: nat :: k < s.next ==> k in s.taken
    ensures forall t :: 0 <= t < |s.threads| ==> !s.threads[t].Holding? && !s.threads[t].Running?
  {
    NoneBusy(s.threads);
    forall k: nat | k < s.next
      ensures k in s.taken
    {
      assert !HasTicket(s.queue, k);
    }
  }

  /** Over every run, careful or not. */
  lemma StoppingInRuns(ss: seq<S>, steps: seq<Step>, threads: nat, i: nat, autoStop: bool, stopping: bool)
    requires Run(ss, steps, threads) && i < |ss| && Stopping(ss[i], autoStop, stopping)
    ensures forall k: nat :: k < ss[i].next ==> k in ss[i].taken
    ensures forall t :: 0 <= t < |ss[i].threads| ==> !ss[i].threads[t].Holding? && !ss[i].threads[t].Running?
  {
    RunsKeepEntries(ss, steps, threads);
    StoppingMeansDone(ss[i], autoStop, stopping);
  }
}
