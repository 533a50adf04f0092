/** Timeout callbacks that are still queued when the attempt they were armed for is over. */
module StaleTimeouts {
  import opened Common
  import opened EventTable
  import opened DoIo

  /** The call goes on while the callback of the attempt that ends here is queued. */
  predicate LeftBehind(s: S, a: Step, c: nat, t: nat) {
    && a.Resume? && a.c == c && c in s.calls && Current(s.calls[c].pc, t)
    && t in s.timers && s.timers[t].state == Queued
  }

  /** Timer t was armed by call c for an attempt that is over. */
  predicate Outdated(s: S, c: nat, t: nat) {
    t in s.timers && s.timers[t].call == c && c in s.calls && !Current(s.calls[c].pc, t)
  }

  lemma ConsumeMaskTimers(s: S, fd: nat, m: Mask, cause: Cause)
    ensures ConsumeMask(s, fd, m, cause).timers == s.timers
  {
    var s1 := if m.read then Consume(s, Slot(fd, READ), cause) else s;
    ConsumeTimers(s, Slot(fd, READ), cause);
    ConsumeTimers(s1, Slot(fd, WRITE), cause);
  }

  lemma ConsumeTimers(s: S, k: Slot, cause: Cause)
    ensures Consume(s, k, cause).timers == s.timers
  {
  }

  /** Deliveries and closes do not concern timers and calls. */
  lemma DeliveryLeaves(s: S, a: Step)
    requires Enabled(s, a) && (a.Ready? || a.CloseFd?)
    ensures Do(s, a).timers == s.timers && Do(s, a).calls == s.calls
  {
    if a.Ready? {
      ConsumeMaskTimers(s, a.fd, a.mask, Readiness);
      ConsumeMaskCalls(s, a.fd, a.mask, Readiness);
    } else {
      ConsumeMaskTimers(s, a.fd, Mask(true, true), Close);
      ConsumeMaskCalls(s, a.fd, Mask(true, true), Close);
    }
  }

  lemma CallbackLeaves(s: S, t: nat, works: bool)
    requires Enabled(s, RunTimeout(t, works))
    ensures var s' := Do(s, RunTimeout(t, works));
            s'.calls == s.calls && s'.timers == s.timers[t := s.timers[t].(state := Done)]
  {
    if Locks(s.infos, s.timers[t].info) && !s.infos[s.timers[t].info].cancelled {
      ConsumeTimers(Fired(s, t), s.timers[t].slot, Timeout);
      ConsumeCalls(Fired(s, t), s.timers[t].slot, Timeout);
    }
  }

  lemma OutdatedStep(s: S, a: Step, c: nat, t: nat)
    requires Enabled(s, a) && Outdated(s, c, t)
    ensures Outdated(Do(s, a), c, t)
  {
    if a.Ready? || a.CloseFd? {
      DeliveryLeaves(s, a);
    } else if a.RunTimeout? {
      CallbackLeaves(s, a.t, a.works);
    } else {
      OwnStepOutdated(s, a, c, t);
    }
  }

  lemma OwnStepOutdated(s: S, a: Step, c: nat, t: nat)
    requires Enabled(s, a) && Outdated(s, c, t) && !a.Ready? && !a.CloseFd? && !a.RunTimeout?
    ensures Outdated(Do(s, a), c, t)
  {
    if a.AddFails? {
      CancelLeaves(s.timers, s.calls[a.c].pc.timer, t);
    } else if a.Resume? {
      CancelLeaves(s.timers, s.calls[a.c].pc.timer, t);
    }
  }

  lemma CancelLeaves(timers: map<nat, TimerRec>, u: Option<nat>, t: nat)
    requires t in timers
    ensures t in CancelTimer(timers, u) && CancelTimer(timers, u)[t].call == timers[t].call
  {
  }

  lemma OutdatedNext(ss: seq<S>, steps: seq<Step>, j: nat, c: nat, t: nat)
    requires Run(ss, steps) && j < |steps| && Outdated(ss[j], c, t)
    ensures Outdated(ss[j + 1], c, t)
  {
    OutdatedStep(ss[j], steps[j], c, t);
  }

  lemma {:induction false} OutdatedFrom(ss: seq<S>, steps: seq<Step>, j: nat, i: nat, c: nat, t: nat)
    requires Run(ss, steps) && j <= i < |ss| && Outdated(ss[j], c, t)
    ensures Outdated(ss[i], c, t)
    decreases i
  {
    if j < i {
      OutdatedFrom(ss, steps, j, i - 1, c, t);
      OutdatedNext(ss, steps, i - 1, c, t);
    }
  }

  /** A callback is queued and outdated, and its call in progress. */
  predicate Stale(s: S, c: nat, t: nat) {
    Outdated(s, c, t) && Live(s, c) && s.timers[t].state == Queued
  }

  lemma ResumeStale(s: S, d: nat, i: nat, c: nat, t: nat)
    requires Enabled(s, Resume(d, i)) && Stale(Do(s, Resume(d, i)), c, t)
    ensures LeftBehind(s, Resume(d, i), c, t) || Stale(s, c, t)
  {
  }

  lemma DueStale(s: S, u: nat, c: nat, t: nat)
    requires ArmedTimers(s) && Enabled(s, TimerDue(u)) && Stale(Do(s, TimerDue(u)), c, t)
    ensures Stale(s, c, t)
  {
  }

  lemma CallStale(s: S, a: Step, c: nat, t: nat)
    requires Infos(s) && Enabled(s, a) && Stale(Do(s, a), c, t)
    requires a.Begin? || a.AddOk? || a.AddOther? || Quiet(a)
    ensures Stale(s, c, t)
  {
  }

  /** How a queued callback of a call in progress comes to be outdated in one step. */
  lemma OutdatedBefore(s: S, a: Step, c: nat, t: nat)
    requires ArmedTimers(s) && Infos(s) && Enabled(s, a) && Stale(Do(s, a), c, t)
    ensures LeftBehind(s, a, c, t) || Stale(s, c, t)
  {
    if a.Ready? || a.CloseFd? {
      DeliveryLeaves(s, a);
    } else if a.RunTimeout? {
      CallbackLeaves(s, a.t, a.works);
    } else if a.Resume? {
      ResumeStale(s, a.c, a.i, c, t);
    } else if a.TimerDue? {
      DueStale(s, a.t, c, t);
    } else {
      CallStale(s, a, c, t);
    }
  }

  lemma OutdatedWas(ss: seq<S>, steps: seq<Step>, j: nat, c: nat, t: nat)
    requires Run(ss, steps) && j < |steps| && Stale(ss[j + 1], c, t)
    ensures LeftBehind(ss[j], steps[j], c, t) || Stale(ss[j], c, t)
  {
    InvAt(ss, steps, j);
    OutdatedBefore(ss[j], steps[j], c, t);
  }

  lemma {:induction false} OutdatedBecause(ss: seq<S>, steps: seq<Step>, i: nat, c: nat, t: nat)
    requires Run(ss, steps) && i < |ss| && Stale(ss[i], c, t)
    ensures exists j :: 0 <= j < i && LeftBehind(ss[j], steps[j], c, t)
  {
    assert i > 0;
    OutdatedWas(ss, steps, i - 1, c, t);
    if !LeftBehind(ss[i - 1], steps[i - 1], c, t) {
      OutdatedBecause(ss, steps, i - 1, c, t);
    }
  }

  lemma LeftBehindIsOutdated(ss: seq<S>, steps: seq<Step>, j: nat, c: nat, t: nat)
    requires Run(ss, steps) && j < |steps| && LeftBehind(ss[j], steps[j], c, t)
    ensures Outdated(ss[j + 1], c, t)
  {
    InvAt(ss, steps, j);
    ResumeOutdates(ss[j], steps[j].c, steps[j].i, t);
  }

  lemma ResumeOutdates(s: S, c: nat, i: nat, t: nat)
    requires AttemptTimers(s) && Enabled(s, Resume(c, i)) && Current(s.calls[c].pc, t) && t in s.timers
    ensures Outdated(Do(s, Resume(c, i)), c, t)
  {
  }

  /**
    A queued callback of a call in progress belongs to the present attempt exactly if the call has not gone on, past
    an attempt consumed otherwise, while that callback was queued.
   */
  lemma CallbackIsCurrentIff(ss: seq<S>, steps: seq<Step>, i: nat, c: nat, t: nat)
    requires Run(ss, steps) && i < |ss| && Live(ss[i], c)
    requires t in ss[i].timers && ss[i].timers[t].call == c && ss[i].timers[t].state == Queued
    ensures Current(ss[i].calls[c].pc, t) <==> !exists j :: 0 <= j < i && LeftBehind(ss[j], steps[j], c, t)
  {
    if Current(ss[i].calls[c].pc, t) {
      forall j | 0 <= j < i
        ensures !LeftBehind(ss[j], steps[j], c, t)
      {
        if LeftBehind(ss[j], steps[j], c, t) {
          LeftBehindIsOutdated(ss, steps, j, c, t);
          OutdatedFrom(ss, steps, j + 1, i, c, t);
          assert false;
        }
      }
    } else {
      OutdatedBecause(ss, steps, i, c, t);
    }
  }

  /** The first attempt is ended by readiness while its callback is queued, and a second one is under way. */
  lemma SecondAttempt() returns (ss: seq<S>, steps: seq<Step>)
    ensures Run(ss, steps) && |steps| == 8
    ensures steps[2..] == [AddOk(0), TimerDue(0), Ready(5, Mask(true, false)), Resume(0, 0), TryAgain(0, 1), AddOk(0)]
    ensures ss[8] == S(Table(map[READ5 := FiberTask(0)], []),
                       map[0 := Call(0, READ5, true, Waiting(Some(1), 1), 0, 2)], map[0 := Info(1, false)],
                       map[0 := TimerRec(0, 0, READ5, Queued), 1 := TimerRec(0, 0, READ5, Pending)], map[0 := 0],
                       map[READ5 := 0], map[WaitId(0, 0) := [Readiness], WaitId(0, 1) := []])
  {
    ss, steps := ConsumedAttempt();
    ss, steps := Extend(ss, steps, Resume(0, 0));
    assert ss[6] == ss[5].(table := Table(map[], []), calls := map[0 := Call(0, READ5, true, Trying, 0, 1)]);
    ss, steps := Extend(ss, steps, TryAgain(0, 1));
    ss, steps := Extend(ss, steps, AddOk(0));
  }

  lemma ConsumedAttempt() returns (ss: seq<S>, steps: seq<Step>)
    ensures Run(ss, steps) && |steps| == 5
    ensures steps[2..] == [AddOk(0), TimerDue(0), Ready(5, Mask(true, false))]
    ensures ss[5] == S(Table(map[], [FiberTask(0)]), map[0 := Call(0, READ5, true, Waiting(Some(0), 0), 0, 1)],
                       map[0 := Info(1, false)], map[0 := TimerRec(0, 0, READ5, Queued)], map[0 := 0], map[],
                       map[WaitId(0, 0) := [Readiness]])
  {
    ss, steps := ArmedCall();
    ss, steps := Extend(ss, steps, AddOk(0));
    ss, steps := Extend(ss, steps, TimerDue(0));
    var s := S(Table(map[READ5 := FiberTask(0)], []), map[0 := Call(0, READ5, true, Waiting(Some(0), 0), 0, 1)],
               map[0 := Info(1, false)], map[0 := TimerRec(0, 0, READ5, Queued)], map[0 := 0], map[READ5 := 0],
               map[WaitId(0, 0) := []]);
    assert ss[4] == s;
    ReaderConsumed(s);
    ss, steps := Extend(ss, steps, Ready(5, Mask(true, false)));
  }

  lemma ReaderConsumed(s: S)
    requires s.table == Table(map[READ5 := FiberTask(0)], []) && s.owner == map[READ5 := 0]
    requires 0 in s.calls && s.calls[0].pc == Waiting(Some(0), 0) && s.log == map[WaitId(0, 0) := []]
    ensures Consume(s, READ5, Readiness) ==
            s.(table := Table(map[], [FiberTask(0)]), owner := map[], log := map[WaitId(0, 0) := [Readiness]])
  {
    var none: seq<Cause> := [];
    assert none + [Readiness] == [Readiness];
  }

  /** The callback of the first attempt ends the second one, whose own timer is still running. */
  lemma TimeoutCanBeEarly() returns (ss: seq<S>, steps: seq<Step>)
    ensures Run(ss, steps) && |steps| == 9
    ensures ss[9].log == map[WaitId(0, 0) := [Readiness], WaitId(0, 1) := [Timeout]]
    ensures 1 in ss[9].timers && ss[9].timers[1].state == Pending
  {
    ss, steps := SecondAttempt();
    var none: seq<Cause> := [];
    assert none + [Timeout] == [Timeout];
    ss, steps := Extend(ss, steps, RunTimeout(0, true));
    assert ss[9].log == ss[8].log[WaitId(0, 1) := [Timeout]];
  }
}
