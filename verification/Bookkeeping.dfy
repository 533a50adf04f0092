/** What goes wrong in the scheduler when a step is careless, or when the bookkeeping after a yield comes late. */
module Bookkeeping {
  import opened Common
  import opened Scheduling

  // ----- careless steps

  lemma TakesFirst(s: S, t: nat)
    requires Enabled(s, Dequeue(t)) && s.queue != [] && Takeable(s.queue[0], t, s.fibers)
    ensures Do(s, Dequeue(t)) ==
            SetThread(s, t, Holding(s.queue[0])).(queue := s.queue[1..], active := s.active + 1,
                                                  taken := s.taken[s.queue[0].ticket := Taken(s.queue[0], t)])
  {
    assert Without(s.queue, 0) == s.queue[1..];
  }

  lemma Extend(ss: seq<S>, steps: seq<Step>, threads: nat, a: Step) returns (ss': seq<S>, steps': seq<Step>)
    requires Run(ss, steps, threads) && Enabled(ss[|steps|], a)
    ensures Run(ss', steps', threads) && steps' == steps + [a] && ss' == ss + [Do(ss[|steps|], a)]
  {
    ss', steps' := ss + [Do(ss[|steps|], a)], steps + [a];
  }

  /** A fiber runs on thread 0. */
  lemma FiberRuns() returns (ss: seq<S>, steps: seq<Step>)
    ensures Run(ss, steps, 2)
    ensures steps == [NewFiber(0), Submit(FiberWork(0), None), Dequeue(0), Start(0, 9)]
    ensures ss[4] == S([], map[0 := EXEC], [Running(0, false), Looping], [None, None], 1, 0, 1,
                       map[0 := Taken(Entry(0, FiberWork(0), None), 0)])
  {
    ss, steps := FiberQueued();
    TakesFirst(ss[2], 0);
    ss, steps := Extend(ss, steps, 2, Dequeue(0));
    ss, steps := Extend(ss, steps, 2, Start(0, 9));
  }

  lemma FiberQueued() returns (ss: seq<S>, steps: seq<Step>)
    ensures Run(ss, steps, 2) && steps == [NewFiber(0), Submit(FiberWork(0), None)]
    ensures ss[2] == S([Entry(0, FiberWork(0), None)], map[0 := INIT], [Looping, Looping], [None, None], 0, 0, 1, map[])
  {
    ss, steps := [Initial(2)], [];
    ss, steps := Extend(ss, steps, 2, NewFiber(0));
    ss, steps := Extend(ss, steps, 2, Submit(FiberWork(0), None));
  }

  /** It has been submitted again, as when its event arrives before it yields. */
  lemma WokenWhileExecuting() returns (ss: seq<S>, steps: seq<Step>)
    ensures Run(ss, steps, 2)
    ensures steps == [NewFiber(0), Submit(FiberWork(0), None), Dequeue(0), Start(0, 9), Submit(FiberWork(0), None)]
    ensures ss[5] == S([Entry(1, FiberWork(0), None)], map[0 := EXEC], [Running(0, false), Looping], [None, None],
                       1, 0, 2, map[0 := Taken(Entry(0, FiberWork(0), None), 0)])
  {
    ss, steps := FiberRuns();
    ss, steps := Extend(ss, steps, 2, Submit(FiberWork(0), None));
  }

  /** It then yields READY and is queued twice; two threads take it, and the second to start it fails in swapIn. */
  lemma ReadyAfterSubmitFails() returns (ss: seq<S>, steps: seq<Step>)
    ensures Run(ss, steps, 2) && Enabled(ss[|steps|], Start(1, 9)) && !AssertsHold(ss[|steps|], Start(1, 9))
    ensures |steps| == 9 && steps[5..] == [Finish(0, READY), Dequeue(0), Dequeue(1), Start(0, 9)]
  {
    ss, steps := WokenWhileExecuting();
    ss, steps := Extend(ss, steps, 2, Finish(0, READY));
    ss, steps := TwoEntriesFail(ss, steps, Entry(1, FiberWork(0), None), Entry(2, FiberWork(0), None), READY);
  }

  lemma TwoEntriesFail(ss: seq<S>, steps: seq<Step>, e: Entry, e': Entry, st: FiberState)
    returns (ss': seq<S>, steps': seq<Step>)
    requires Run(ss, steps, 2) && e.work == e'.work == FiberWork(0) && e.pin == e'.pin == None && st in {INIT, READY}
    requires var s := ss[|steps|];
             s.queue == [e, e'] && s.fibers == map[0 := st] && s.threads == [Looping, Looping] && |s.cbFibers| == 2
    ensures Run(ss', steps', 2) && Enabled(ss'[|steps'|], Start(1, 9)) && !AssertsHold(ss'[|steps'|], Start(1, 9))
    ensures steps' == steps + [Dequeue(0), Dequeue(1), Start(0, 9)]
  {
    TakesFirst(ss[|steps|], 0);
    ss', steps' := Extend(ss, steps, 2, Dequeue(0));
    assert ss'[|steps'|].queue == [e'];
    ss', steps' := OtherEntryFails(ss', steps', e, e', st);
  }

  lemma OtherEntryFails(ss: seq<S>, steps: seq<Step>, e: Entry, e': Entry, st: FiberState)
    returns (ss': seq<S>, steps': seq<Step>)
    requires Run(ss, steps, 2) && e.work == e'.work == FiberWork(0) && e'.pin == None && st in {INIT, READY}
    requires var s := ss[|steps|];
             s.queue == [e'] && s.fibers == map[0 := st] && s.threads == [Holding(e), Looping] && |s.cbFibers| == 2
    ensures Run(ss', steps', 2) && Enabled(ss'[|steps'|], Start(1, 9)) && !AssertsHold(ss'[|steps'|], Start(1, 9))
    ensures steps' == steps + [Dequeue(1), Start(0, 9)]
  {
    TakesFirst(ss[|steps|], 1);
    ss', steps' := Extend(ss, steps, 2, Dequeue(1));
    HeldTwiceFails(ss'[|steps'|], e, e', st);
    ss', steps' := Extend(ss', steps', 2, Start(0, 9));
  }

  lemma HeldTwiceFails(s: S, e: Entry, e': Entry, st: FiberState)
    requires |s.threads| == |s.cbFibers| == 2 && s.fibers == map[0 := st] && st in {INIT, READY}
    requires s.threads == [Holding(e), Holding(e')] && e.work == e'.work == FiberWork(0)
    ensures Enabled(s, Start(0, 9)) && Enabled(Do(s, Start(0, 9)), Start(1, 9))
    ensures !AssertsHold(Do(s, Start(0, 9)), Start(1, 9))
  {
  }

  /** A fiber submitted twice before it is taken: two threads take it, and the second to start it fails in swapIn. */
  lemma SubmitTwiceFails() returns (ss: seq<S>, steps: seq<Step>)
    ensures Run(ss, steps, 2) && Enabled(ss[|steps|], Start(1, 9)) && !AssertsHold(ss[|steps|], Start(1, 9))
    ensures steps == [NewFiber(0), Submit(FiberWork(0), None), Submit(FiberWork(0), None), Dequeue(0), Dequeue(1),
                      Start(0, 9)]
  {
    ss, steps := FiberQueued();
    ss, steps := Extend(ss, steps, 2, Submit(FiberWork(0), None));
    var e0, e1 := Entry(0, FiberWork(0), None), Entry(1, FiberWork(0), None);
    ss, steps := TwoEntriesFail(ss, steps, e0, e1, INIT);
  }

  /** Thread 0 runs a callback on fiber 9. */
  lemma CallbackRuns() returns (ss: seq<S>, steps: seq<Step>)
    ensures Run(ss, steps, 2) && steps == [Submit(CallbackWork(5), None), Dequeue(0), Start(0, 9)]
    ensures ss[3] == S([], map[9 := EXEC], [Running(9, true), Looping], [Some(9), None], 1, 0, 1,
                       map[0 := Taken(Entry(0, CallbackWork(5), None), 0)])
  {
    ss, steps := [Initial(2)], [];
    ss, steps := Extend(ss, steps, 2, Submit(CallbackWork(5), None));
    ss, steps := Extend(ss, steps, 2, Dequeue(0));
    ss, steps := Extend(ss, steps, 2, Start(0, 9));
  }

  /** Fiber 9 lies idle with thread 0 and in the queue: thread 1 runs it, and the next callback fails in reset. */
  lemma KeptAndQueuedFails(ss: seq<S>, steps: seq<Step>) returns (ss': seq<S>, steps': seq<Step>)
    requires Run(ss, steps, 2)
    requires var s := ss[|steps|];
             s.queue == [Entry(1, FiberWork(9), None)] && s.fibers == map[9 := INIT] && s.cbFibers == [Some(9), None]
             && s.threads == [Looping, Looping] && s.next == 2
    ensures Run(ss', steps', 2) && Enabled(ss'[|steps'|], Start(0, 7)) && !AssertsHold(ss'[|steps'|], Start(0, 7))
    ensures steps' == steps + [Dequeue(1), Start(1, 8), Submit(CallbackWork(6), None), Dequeue(0)]
  {
    ss', steps' := Extend(ss, steps, 2, Dequeue(1));
    assert ss'[|steps'|].queue == [] && ss'[|steps'|].threads == [Looping, Holding(Entry(1, FiberWork(9), None))];
    ss', steps' := Extend(ss', steps', 2, Start(1, 8));
    assert ss'[|steps'|].fibers == map[9 := EXEC] && ss'[|steps'|].threads == [Looping, Running(9, false)];
    ss', steps' := Extend(ss', steps', 2, Submit(CallbackWork(6), None));
    ss', steps' := Extend(ss', steps', 2, Dequeue(0));
  }

  /** A callback fiber submitted while it runs, which then ends. */
  lemma EndAfterSubmitFails() returns (ss: seq<S>, steps: seq<Step>)
    ensures Run(ss, steps, 2) && Enabled(ss[|steps|], Start(0, 7)) && !AssertsHold(ss[|steps|], Start(0, 7))
    ensures |steps| == 9 && steps[3..5] == [Submit(FiberWork(9), None), Finish(0, TERM)]
  {
    ss, steps := CallbackRuns();
    ss, steps := Extend(ss, steps, 2, Submit(FiberWork(9), None));
    ss, steps := Extend(ss, steps, 2, Finish(0, TERM));
    ss, steps := KeptAndQueuedFails(ss, steps);
  }

  /** A callback fiber submitted after its callback has ended. */
  lemma SubmitAfterEndFails() returns (ss: seq<S>, steps: seq<Step>)
    ensures Run(ss, steps, 2) && Enabled(ss[|steps|], Start(0, 7)) && !AssertsHold(ss[|steps|], Start(0, 7))
    ensures |steps| == 9 && steps[3..5] == [Finish(0, TERM), Submit(FiberWork(9), None)]
  {
    ss, steps := CallbackRuns();
    ss, steps := Extend(ss, steps, 2, Finish(0, TERM));
    ss, steps := Extend(ss, steps, 2, Submit(FiberWork(9), None));
    ss, steps := KeptAndQueuedFails(ss, steps);
  }

  // ----- bookkeeping that is not atomic with the yield

  /** The yield alone: the fiber has left, the bookkeeping of its thread has not happened. */
  function YieldOnly(s: S, t: nat, outcome: FiberState): S
    requires t < |s.threads| && s.threads[t].Running?
  {
    SetFiber(s, s.threads[t].fiber, outcome)
  }

  /** The bookkeeping alone, on whatever state the fiber has by then. */
  function Settle(s: S, t: nat): S
    requires t < |s.threads| && t < |s.cbFibers| && s.threads[t].Running? && s.threads[t].fiber in s.fibers
  {
    var Running(f, callback) := s.threads[t];
    var s1 := SetThread(s, t, Looping).(active := Decrement(s.active));
    var freed := if callback then s.cbFibers[t := None] else s.cbFibers;
    if s.fibers[f] == READY then Push(s1, FiberWork(f), None).(cbFibers := freed)
    else if !Ended(s.fibers[f]) then SetFiber(s1, f, HOLD).(cbFibers := freed)
    else if callback then SetFiber(s1, f, INIT)
    else s1
  }

  /** Finish is the two at once. */
  lemma FinishIsYieldThenSettle(s: S, t: nat, outcome: FiberState)
    requires Enabled(s, Finish(t, outcome))
    ensures Do(s, Finish(t, outcome)) == Settle(YieldOnly(s, t, outcome), t)
  {
  }

  /** The state as if the thread had let go of the fiber without touching it. */
  function Detached(s: S, t: nat): S
    requires t < |s.threads| && t < |s.cbFibers| && s.threads[t].Running?
  {
    SetThread(s, t, Looping).(active := Decrement(s.active),
                              cbFibers := if s.threads[t].callback then s.cbFibers[t := None] else s.cbFibers)
  }

  /** The fiber of thread t has yielded, and its bookkeeping is still to come; all else is in order. */
  ghost predicate Between(s: S, t: nat) {
    && t < |s.threads| == |s.cbFibers| && s.threads[t].Running? && s.threads[t].fiber in s.fibers
    && Counters(s) && Tickets(s) && Orderly(Detached(s, t))
    && !Kept(Detached(s, t), s.threads[t].fiber)
    && (s.threads[t].callback ==> s.cbFibers[t] == Some(s.threads[t].fiber))
    && forall g :: g != s.threads[t].fiber ==> ReadyHere(s, g)
  }

  lemma HeldSame(s: S, t: nat, f: nat)
    requires t < |s.threads| && t < |s.cbFibers| && s.threads[t].Running?
    ensures Held(Detached(s, t).threads, f) <==> Held(s.threads, f)
  {
    var d := Detached(s, t);
    if Held(s.threads, f) {
      var u :| 0 <= u < |s.threads| && s.threads[u].Holding? && IsFiber(s.threads[u].entry, f);
      assert d.threads[u] == s.threads[u];
    }
    if Held(d.threads, f) {
      var u :| 0 <= u < |d.threads| && d.threads[u].Holding? && IsFiber(d.threads[u].entry, f);
      assert d.threads[u] == s.threads[u];
    }
  }

  lemma YieldLeavesBetween(s: S, t: nat, outcome: FiberState)
    requires Inv(s) && Enabled(s, Finish(t, outcome))
    ensures Between(YieldOnly(s, t, outcome), t)
  {
    var s', f := YieldOnly(s, t, outcome), s.threads[t].fiber;
    var d := Detached(s', t);
    assert Unique(d);
    assert Exclusive(d);
    assert !Kept(d, f);
    forall u | 0 <= u < |d.threads| && d.cbFibers[u].Some?
      ensures KeptRightly(d, u, d.cbFibers[u].value)
    {
      HeldSame(s', t, d.cbFibers[u].value);
      assert KeptRightly(s, u, s.cbFibers[u].value);
    }
    forall g | g != f
      ensures ReadyHere(s', g)
    {
      assert ReadyHere(s, g);
    }
  }

  /** Steps of other threads and of callers. */
  predicate ByOther(a: Step, t: nat) {
    a.NewFiber? || a.Submit? || a.t != t
  }

  lemma DetachedEnabled(s: S, t: nat, a: Step)
    requires Between(s, t) && ByOther(a, t) && Enabled(Detached(s, t), a)
    ensures Enabled(s, a) && s.active > 0
  {
    CountsAfter(s.threads, t, Looping);
    if a.Submit? && a.w.FiberWork? {
      HeldSame(s, t, a.w.fiber);
    }
  }

  lemma DetachedCommutes(s: S, t: nat, a: Step)
    requires t < |s.threads| == |s.cbFibers| && s.threads[t].Running? && s.active > 0
    requires ByOther(a, t) && Enabled(Detached(s, t), a) && Enabled(s, a)
    ensures Do(s, a).threads[t] == s.threads[t] && |Do(s, a).threads| == |s.threads| == |Do(s, a).cbFibers|
    ensures Do(Detached(s, t), a) == Detached(Do(s, a), t)
  {
    if a.Start? {
      StartCommutes(s, t, a.t, a.spare);
    } else if a.Finish? {
      FinishCommutes(s, t, a.t, a.outcome);
    } else if a.Dequeue? {
      DequeueCommutes(s, t, a.t);
    }
  }

  lemma DequeueCommutes(s: S, t: nat, u: nat)
    requires t < |s.threads| == |s.cbFibers| && s.threads[t].Running? && s.active > 0 && u != t
    requires Enabled(Detached(s, t), Dequeue(u)) && Enabled(s, Dequeue(u))
    ensures var s' := Do(s, Dequeue(u));
            s'.threads[t] == s.threads[t] && |s'.threads| == |s.threads| == |s'.cbFibers|
            && Do(Detached(s, t), Dequeue(u)) == Detached(s', t)
  {
    var s', d := Do(s, Dequeue(u)), Detached(s, t);
    assert s'.threads[t := Looping] == d.threads[u := s'.threads[u]];
  }

  lemma StartCommutes(s: S, t: nat, u: nat, spare: nat)
    requires t < |s.threads| == |s.cbFibers| && s.threads[t].Running? && s.active > 0 && u != t
    requires Enabled(Detached(s, t), Start(u, spare)) && Enabled(s, Start(u, spare))
    ensures var s' := Do(s, Start(u, spare));
            s'.threads[t] == s.threads[t] && |s'.threads| == |s.threads| == |s'.cbFibers|
            && Do(Detached(s, t), Start(u, spare)) == Detached(s', t)
  {
    var s', d := Do(s, Start(u, spare)), Detached(s, t);
    assert s'.threads[t := Looping] == d.threads[u := s'.threads[u]];
    assert d.cbFibers[u] == s.cbFibers[u];
    if s.threads[t].callback {
      assert s'.cbFibers[t := None] == d.cbFibers[u := s'.cbFibers[u]];
    }
  }

  lemma FinishCommutes(s: S, t: nat, u: nat, outcome: FiberState)
    requires t < |s.threads| == |s.cbFibers| && s.threads[t].Running? && s.active > 0 && u != t
    requires Enabled(Detached(s, t), Finish(u, outcome)) && Enabled(s, Finish(u, outcome))
    ensures var s' := Do(s, Finish(u, outcome));
            s'.threads[t] == s.threads[t] && |s'.threads| == |s.threads| == |s'.cbFibers|
            && Do(Detached(s, t), Finish(u, outcome)) == Detached(s', t)
  {
    var s', d := Do(s, Finish(u, outcome)), Detached(s, t);
    assert s'.threads[t := Looping] == d.threads[u := Looping];
    if s.threads[t].callback {
      assert s'.cbFibers[t := None] == d.cbFibers[u := s'.cbFibers[u]];
    }
  }

  /** Whatever others do meanwhile, the bookkeeping of thread t is all that is missing. */
  lemma OthersKeepBetween(s: S, t: nat, a: Step)
    requires Between(s, t) && ByOther(a, t) && Enabled(Detached(s, t), a) && Careful(Detached(s, t), a)
    ensures Enabled(s, a) && Between(Do(s, a), t)
  {
    DetachedEnabled(s, t, a);
    DetachedCommutes(s, t, a);
    var s', f := Do(s, a), s.threads[t].fiber;
    StepCounters(s, a);
    StepTickets(s, a);
    StepOrderly(Detached(s, t), a);
    StillNotKept(s, t, a);
    forall g | g != f
      ensures ReadyHere(s', g)
    {
      OthersKeepReady(s, t, a, g);
    }
  }

  lemma StillNotKept(s: S, t: nat, a: Step)
    requires Between(s, t) && ByOther(a, t) && Enabled(Detached(s, t), a)
    ensures !Kept(Do(Detached(s, t), a), s.threads[t].fiber)
    ensures Enabled(s, a) ==> |Do(s, a).cbFibers| == |s.cbFibers| && Do(s, a).cbFibers[t] == s.cbFibers[t]
                              && s.threads[t].fiber in Do(s, a).fibers
  {
    var d, f := Detached(s, t), s.threads[t].fiber;
    NotKeptAfter(d, a, f);
  }

  /** A thread comes to keep only fibers that are new. */
  lemma NotKeptAfter(s: S, a: Step, f: nat)
    requires Enabled(s, a) && f in s.fibers && !Kept(s, f)
    ensures !Kept(Do(s, a), f)
  {
    var s' := Do(s, a);
    forall u | 0 <= u < |s'.cbFibers|
      ensures s'.cbFibers[u] != Some(f)
    {
      assert s.cbFibers[u] != Some(f);
    }
  }

  lemma OthersKeepReady(s: S, t: nat, a: Step, g: nat)
    requires Between(s, t) && ByOther(a, t) && Enabled(Detached(s, t), a) && Enabled(s, a) && g != s.threads[t].fiber
    requires Do(Detached(s, t), a) == Detached(Do(s, a), t) && Do(s, a).threads[t] == s.threads[t]
    requires |Do(s, a).threads| == |s.threads| == |Do(s, a).cbFibers|
    ensures ReadyHere(Do(s, a), g)
  {
    var d := Detached(s, t);
    HeldSame(s, t, g);
    assert ReadyHere(s, g) && ReadyHere(d, g);
    StepReadyHere(d, a, g);
    HeldSame(Do(s, a), t, g);
  }

  predicate RunsElsewhere(s: S, t: nat, f: nat) {
    exists u :: 0 <= u < |s.threads| && u != t && s.threads[u].Running? && s.threads[u].fiber == f
  }

  /**
    The bookkeeping, late as it may be, is right exactly if no other thread runs the fiber by then, and the fiber
    does not go back to the queue or to its thread while it is queued or held.
   */
  ghost predicate SettlesWell(s: S, t: nat)
    requires Between(s, t)
  {
    var Running(f, callback) := s.threads[t];
    && !RunsElsewhere(s, t, f)
    && (GoesBack(callback, s.fibers[f]) ==> !InQueue(s.queue, f) && !Held(s.threads, f))
  }

  lemma SettleKeeps(s: S, t: nat)
    requires Between(s, t) && SettlesWell(s, t)
    ensures Inv(Settle(s, t))
  {
    SettleCounts(s, t);
    SettleReady(s, t);
    SettleUnique(s, t);
    SettlePool(s, t);
  }

  lemma SettleCounts(s: S, t: nat)
    requires Between(s, t)
    ensures Counters(Settle(s, t)) && Tickets(Settle(s, t))
  {
    CountsAfter(s.threads, t, Looping);
    SettleTickets(s, t);
  }

  lemma SettleTickets(s: S, t: nat)
    requires t < |s.threads| && t < |s.cbFibers| && s.threads[t].Running? && s.threads[t].fiber in s.fibers
    requires Tickets(s)
    ensures Tickets(Settle(s, t))
  {
    var f := s.threads[t].fiber;
    PushTickets(s, FiberWork(f), None);
    var s' := Settle(s, t);
    assert s'.taken == s.taken;
    if s.fibers[f] == READY {
      assert s'.queue == Push(s, FiberWork(f), None).queue && s'.next == s.next + 1;
    } else {
      assert s'.queue == s.queue && s'.next == s.next;
    }
  }

  lemma SettleReady(s: S, t: nat)
    requires Between(s, t)
    ensures ReadyKept(Settle(s, t))
  {
    var s', f := Settle(s, t), s.threads[t].fiber;
    forall g
      ensures ReadyHere(s', g)
    {
      PushKeeps(s, FiberWork(f), None, g);
      HeldSame(s, t, g);
      assert s'.threads == Detached(s, t).threads;
      assert g != f ==> ReadyHere(s, g);
    }
  }

  lemma SettleUnique(s: S, t: nat)
    requires Between(s, t) && SettlesWell(s, t)
    ensures Unique(Settle(s, t)) && Exclusive(Settle(s, t))
  {
    var d, s', f := Detached(s, t), Settle(s, t), s.threads[t].fiber;
    HeldSame(s, t, f);
    assert Unique(d) && Exclusive(d) && s'.threads == d.threads;
    forall u | 0 <= u < |d.threads| && d.threads[u].Running?
      ensures d.threads[u].fiber != f
    {
      assert d.threads[u] == s.threads[u];
    }
  }

  lemma SettlePool(s: S, t: nat)
    requires Between(s, t) && SettlesWell(s, t)
    ensures Pool(Settle(s, t))
  {
    var d, s', f := Detached(s, t), Settle(s, t), s.threads[t].fiber;
    assert Pool(d) && s'.threads == d.threads;
    forall u | 0 <= u < |s'.threads| && s'.cbFibers[u].Some?
      ensures KeptRightly(s', u, s'.cbFibers[u].value)
    {
      var g := s'.cbFibers[u].value;
      HeldSame(s, t, g);
      PushKeeps(s, FiberWork(f), None, g);
      if g != f {
        assert d.cbFibers[u] == Some(g) && KeptRightly(d, u, g);
      }
    }
    forall u | 0 <= u < |d.cbFibers|
      ensures d.cbFibers[u] != Some(f) && (u != t ==> s'.cbFibers[u] == d.cbFibers[u])
    {
      assert !Kept(d, f);
    }
    forall u, v | 0 <= u < v < |s'.threads| && s'.cbFibers[u].Some?
      ensures s'.cbFibers[u] != s'.cbFibers[v]
    {
      assert s'.cbFibers[t] == Some(f) || s'.cbFibers[t] == d.cbFibers[t];
      assert d.cbFibers[u].Some? ==> d.cbFibers[u] != d.cbFibers[v];
    }
  }

  lemma SettleFails(s: S, t: nat)
    requires Between(s, t) && !SettlesWell(s, t)
    ensures !Inv(Settle(s, t))
  {
    var s', f := Settle(s, t), s.threads[t].fiber;
    if RunsElsewhere(s, t, f) {
      var u :| 0 <= u < |s.threads| && u != t && s.threads[u].Running? && s.threads[u].fiber == f;
      assert Detached(s, t).threads[u] == s.threads[u] == s'.threads[u];
      assert s'.fibers[f] == HOLD;
    } else {
      HeldSame(s, t, f);
      if s.fibers[f] == READY {
        assert IsFiber(s'.queue[|s.queue|], f);
        if InQueue(s.queue, f) {
          var i :| 0 <= i < |s.queue| && IsFiber(s.queue[i], f);
          assert s'.queue[i].work == s'.queue[|s.queue|].work;
        } else {
          assert InQueue(s'.queue, f) && Held(s'.threads, f);
        }
      } else {
        assert s'.cbFibers[t] == Some(f) && s'.queue == s.queue && s'.threads == Detached(s, t).threads;
        assert !KeptRightly(s', t, f);
      }
    }
  }

  lemma SettleSafeIff(s: S, t: nat)
    requires Between(s, t)
    ensures Inv(Settle(s, t)) <==> SettlesWell(s, t)
  {
    if SettlesWell(s, t) {
      SettleKeeps(s, t);
    } else {
      SettleFails(s, t);
    }
  }

  /** Steps in which the yield of a fiber and the bookkeeping of its thread are apart. */
  datatype LateStep = Whole(a: Step) | Yield(t: nat, outcome: FiberState) | Book(t: nat)

  predicate CanBook(s: S, t: nat) {
    t < |s.threads| && t < |s.cbFibers| && s.threads[t].Running? && s.threads[t].fiber in s.fibers
  }

  predicate LateEnabled(s: S, l: LateStep) {
    match l
    case Whole(a) => Enabled(s, a)
    case Yield(t, outcome) => Enabled(s, Finish(t, outcome))
    case Book(t) => CanBook(s, t)
  }

  function LateDo(s: S, l: LateStep): S
    requires LateEnabled(s, l)
  {
    match l
    case Whole(a) => Do(s, a)
    case Yield(t, outcome) => YieldOnly(s, t, outcome)
    case Book(t) => Settle(s, t)
  }

  ghost predicate LateRun(s: S, ls: seq<LateStep>, s': S)
    decreases |ls|
  {
    if ls == [] then s' == s else LateEnabled(s, ls[0]) && LateRun(LateDo(s, ls[0]), ls[1..], s')
  }

  /**
    If another thread takes the fiber between its yield and the bookkeeping, the bookkeeping resets the state of a
    running fiber, and a further submission makes the fiber run on two threads.
   */
  lemma LateBookkeepingRunsTwice() returns (ss: seq<S>, steps: seq<Step>, s: S)
    ensures Run(ss, steps, 2) && |steps| == 5 && s.threads == [Running(0, false), Running(0, false)]
    ensures LateRun(ss[5], [Yield(0, HOLD), Whole(Dequeue(1)), Whole(Start(1, 9)), Book(0),
                            Whole(Submit(FiberWork(0), None)), Whole(Dequeue(0)), Whole(Start(0, 9))], s)
  {
    ss, steps := WokenWhileExecuting();
    var more := [Book(0), Whole(Submit(FiberWork(0), None)), Whole(Dequeue(0)), Whole(Start(0, 9))];
    var mid := TakenBetween(ss[5]);
    s := BookedLate(mid);
    LateJoin(ss[5], [Yield(0, HOLD), Whole(Dequeue(1)), Whole(Start(1, 9))], mid, more, s);
    assert [Yield(0, HOLD), Whole(Dequeue(1)), Whole(Start(1, 9))] + more ==
           [Yield(0, HOLD), Whole(Dequeue(1)), Whole(Start(1, 9)), Book(0),
            Whole(Submit(FiberWork(0), None)), Whole(Dequeue(0)), Whole(Start(0, 9))];
  }

  lemma {:induction false} LateJoin(s: S, ls: seq<LateStep>, mid: S, more: seq<LateStep>, s': S)
    requires LateRun(s, ls, mid) && LateRun(mid, more, s')
    ensures LateRun(s, ls + more, s')
    decreases |ls|
  {
    if ls == [] {
      assert ls + more == more;
    } else {
      LateJoin(LateDo(s, ls[0]), ls[1..], mid, more, s');
      assert (ls + more)[0] == ls[0] && (ls + more)[1..] == ls[1..] + more;
    }
  }

  lemma LateOne(s: S, l: LateStep, ls: seq<LateStep>, s': S)
    requires LateEnabled(s, l) && LateRun(LateDo(s, l), ls, s')
    ensures LateRun(s, [l] + ls, s')
  {
    assert ([l] + ls)[1..] == ls;
  }

  /** The fiber yields on thread 0, and thread 1 takes it, before the bookkeeping. */
  lemma TakenBetween(s: S) returns (mid: S)
    requires s == S([Entry(1, FiberWork(0), None)], map[0 := EXEC], [Running(0, false), Looping], [None, None],
                    1, 0, 2, map[0 := Taken(Entry(0, FiberWork(0), None), 0)])
    ensures LateRun(s, [Yield(0, HOLD), Whole(Dequeue(1)), Whole(Start(1, 9))], mid)
    ensures mid.queue == [] && mid.fibers == map[0 := EXEC] && mid.threads == [Running(0, false), Running(0, false)]
    ensures mid.cbFibers == [None, None] && mid.next == 2
  {
    var s1 := YieldOnly(s, 0, HOLD);
    TakesFirst(s1, 1);
    var s2 := Do(s1, Dequeue(1));
    mid := Do(s2, Start(1, 9));
    LateOne(s2, Whole(Start(1, 9)), [], mid);
    LateOne(s1, Whole(Dequeue(1)), [Whole(Start(1, 9))], mid);
    LateOne(s, Yield(0, HOLD), [Whole(Dequeue(1)), Whole(Start(1, 9))], mid);
  }

  /** The bookkeeping sets EXEC back to HOLD, and the fiber can be submitted and taken again. */
  lemma BookedLate(s: S) returns (s': S)
    requires s.queue == [] && s.fibers == map[0 := EXEC] && s.threads == [Running(0, false), Running(0, false)]
    requires s.cbFibers == [None, None] && s.next == 2
    ensures LateRun(s, [Book(0), Whole(Submit(FiberWork(0), None)), Whole(Dequeue(0)), Whole(Start(0, 9))], s')
    ensures s'.threads == [Running(0, false), Running(0, false)]
  {
    var s1 := Settle(s, 0);
    var s2 := Do(s1, Submit(FiberWork(0), None));
    s' := TakenAgain(s2);
    LateOne(s1, Whole(Submit(FiberWork(0), None)), [Whole(Dequeue(0)), Whole(Start(0, 9))], s');
    LateOne(s, Book(0), [Whole(Submit(FiberWork(0), None)), Whole(Dequeue(0)), Whole(Start(0, 9))], s');
  }

  lemma TakenAgain(s: S) returns (s': S)
    requires s.queue == [Entry(2, FiberWork(0), None)] && s.fibers == map[0 := HOLD]
    requires s.threads == [Looping, Running(0, false)] && s.cbFibers == [None, None]
    ensures LateRun(s, [Whole(Dequeue(0)), Whole(Start(0, 9))], s')
    ensures s'.threads == [Running(0, false), Running(0, false)]
  {
    TakesFirst(s, 0);
    var s1 := Do(s, Dequeue(0));
    s' := Do(s1, Start(0, 9));
    LateOne(s1, Whole(Start(0, 9)), [], s');
    LateOne(s, Whole(Dequeue(0)), [Whole(Start(0, 9))], s');
  }
}
