/**
  What becomes of a sleeping poller when the clock is set back. The poller sleeps an elapsed time, so deadlines are
  compared with it in elapsed time: a deadline is reached when the clock, running on from here, gets to it.
 */
module Rollovers {
  import opened Common
  import opened Timers

  /** idle sleeps no longer than this. */
  const MAX_TIMEOUT: nat := 3000

  function Sleep(wait: Option<nat>): nat {
    if wait.Some? && wait.value < MAX_TIMEOUT then wait.value else MAX_TIMEOUT
  }

  /** The elapsed time at which the clock gets to `next`. */
  function Reached(w: World, next: nat): int {
    w.elapsed + next - w.clock
  }

  /** The poller is up by then, or did not go to sleep at all. */
  predicate UpBy(p: Promise, time: int) {
    p.NoPromise? || p.at + Sleep(p.wait) <= time || Sleep(p.wait) == 0
  }

  /** Woken, or up in time for every pending deadline. */
  ghost predicate InTime(w: World) {
    w.woken || forall id :: w.s.Pending(id) ==> UpBy(w.promise, Reached(w, w.s.objs[id].next))
  }

  /** And it would still be in time if a pending timer were armed again now. */
  ghost predicate Rearmable(w: World) {
    w.woken || forall id :: w.s.Pending(id) ==> UpBy(w.promise, w.elapsed + w.s.objs[id].ms)
  }

  ghost predicate Inv(w: World) {
    && (w.s.tickled ==> w.woken)
    && (w.promise.Promise? ==> w.promise.at <= w.elapsed)
    && (forall id :: id in w.s.objs ==> w.s.objs[id].ms <= w.s.objs[id].next)
    && InTime(w) && Rearmable(w)
  }

  /** Every pending period is as long as the longest sleep, or as long as the time to some pending deadline. */
  ghost predicate Near(s: State, clock: nat) {
    forall id :: s.Pending(id) ==> Soon(s, clock, s.objs[id].ms)
  }

  ghost predicate Soon(s: State, clock: nat, ms: nat) {
    ms >= MAX_TIMEOUT || exists j :: s.Pending(j) && s.objs[j].next <= clock + ms
  }

  /**
    What keeps the poller in time whatever the clock does: the clock does not gain on the time that passes, the wait
    is asked for when the deadlines are near, no timer is reset from an arming time the clock has not reached, and a
    rollover is noticed with a clock reading that is not stale.
   */
  ghost predicate Guarded(w: World, a: Action) {
    match a
    case Tick(d, e) => d <= e
    case ResetTimer(id, _, fromNow) => fromNow || (id in w.s.objs ==> w.s.objs[id].next <= w.clock + w.s.objs[id].ms)
    case GetNext(_) => Near(w.s, w.clock)
    case ListExpired(now, _) => Rollover(w.s.previousTime, now) ==> now == w.clock
    case _ => true
  }

  lemma AddKeeps(w: World, id: nat, t: Timer)
    requires Inv(w) && t.cb.Some? && t.ms <= t.next <= w.clock + t.ms
    ensures Inv(Woken(w, Add(w.s, id, t)))
  {
    var w' := Woken(w, Add(w.s, id, t));
    if !w'.woken {
      var j := NotFirst(w, id, t);
      assert UpBy(w.promise, Reached(w, w.s.objs[j].next));
    }
  }

  /** The sleep that getNextTimer allows is over before a period, exactly if a deadline or the longest sleep is. */
  lemma SleepWithin(s: State, clock: nat, wait: Option<nat>, ms: nat)
    requires NextWait(s, clock, wait)
    ensures Sleep(wait) <= ms <==> Soon(s, clock, ms)
  {
    if Soon(s, clock, ms) && ms < MAX_TIMEOUT {
      var j :| s.Pending(j) && s.objs[j].next <= clock + ms;
      WaitCovers(s, clock, wait, j);
    }
    if Sleep(wait) <= ms < MAX_TIMEOUT {
      var id :| s.Pending(id) && First(s, id)
                && wait.value == if clock >= s.objs[id].next then 0 else s.objs[id].next - clock;
    }
  }

  lemma GetNextKeeps(w: World, wait: Option<nat>)
    requires Inv(w) && NextWait(w.s, w.clock, wait) && Near(w.s, w.clock)
    ensures Inv(Do(w, GetNext(wait)))
  {
    var w' := Do(w, GetNext(wait));
    forall j | w'.s.Pending(j)
      ensures UpBy(w'.promise, Reached(w', w'.s.objs[j].next)) && UpBy(w'.promise, w'.elapsed + w'.s.objs[j].ms)
    {
      assert w.s.Pending(j);
      WaitCovers(w.s, w.clock, wait, j);
      SleepWithin(w.s, w.clock, wait, w.s.objs[j].ms);
    }
  }

  lemma StepKeepsInv(w: World, a: Action)
    requires Inv(w) && Enabled(w, a) && Guarded(w, a)
    ensures Inv(Do(w, a))
  {
    match a
    case AddTimer(id, armed, ms, cb, recurring) =>
      AddKeeps(w, id, Timer(recurring, ms, armed + ms, Some(cb)));
    case ResetTimer(id, ms, fromNow) =>
      if w.s.Pending(id) {
        AddKeeps(w, id, Rearmed(w.s.objs[id], ms, fromNow, w.clock));
      }
    case GetNext(wait) =>
      GetNextKeeps(w, wait);
    case ListExpired(now, seen) =>
      if seen {
        ExpireKeeps(w, now);
      }
    case _ =>
  }

  lemma ExpireKeeps(w: World, now: nat)
    requires Inv(w) && now <= w.clock && (Rollover(w.s.previousTime, now) ==> now == w.clock)
    ensures Inv(w.(s := Expire(w.s, now)))
  {
    var w' := w.(s := Expire(w.s, now));
    forall id | w'.s.Pending(id)
      ensures w.s.Pending(id) && w'.s.objs[id].ms == w.s.objs[id].ms
      ensures w'.s.objs[id].next == w.s.objs[id].next || w'.s.objs[id].next == now + w.s.objs[id].ms
    {
    }
  }

  /**
    Over every guarded run, however often the clock is set back and rollovers are noticed, the poller is woken or up
    in time for every pending deadline. In particular a rollover keeps every promise made before it.
   */
  lemma {:induction false} RolloverKeepsPromises(ws: seq<World>, acts: seq<Action>, start: nat)
    requires Run(ws, acts, start) && forall i :: 0 <= i < |acts| ==> Guarded(ws[i], acts[i])
    ensures forall i :: 0 <= i < |ws| ==> InTime(ws[i])
  {
    for i := 0 to |acts|
      invariant forall j :: 0 <= j <= i ==> Inv(ws[j])
    {
      StepKeepsInv(ws[i], acts[i]);
    }
  }

  /** While the clock never goes back the other guards hold by themselves. */
  lemma ForwardIsGuarded(w: World, a: Action)
    requires Timers.Inv(w) && Enabled(w, a) && Forward(w, a) && (a.Tick? ==> a.d <= a.e)
    ensures Guarded(w, a)
  {
    if a.GetNext? {
      forall id | w.s.Pending(id)
        ensures Soon(w.s, w.clock, w.s.objs[id].ms)
      {
        assert w.s.objs[id].next <= w.clock + w.s.objs[id].ms;
      }
    }
  }

  /** A fresh promise outlasts the refreshing of any timer exactly if it was asked for when the deadlines were near. */
  lemma RefreshAfterGetNextIff(w: World, wait: Option<nat>)
    requires Enabled(w, GetNext(wait))
    ensures Near(w.s, w.clock) <==>
            forall id :: w.s.Pending(id) ==> InTime(Do(Do(w, GetNext(wait)), RefreshTimer(id)))
  {
    var w1 := Do(w, GetNext(wait));
    forall id | w.s.Pending(id)
      ensures InTime(Do(w1, RefreshTimer(id))) <==> Soon(w.s, w.clock, w.s.objs[id].ms)
    {
      var w2 := Do(w1, RefreshTimer(id));
      SleepWithin(w.s, w.clock, wait, w.s.objs[id].ms);
      forall j | w2.s.Pending(j) && j != id
        ensures UpBy(w2.promise, Reached(w2, w2.s.objs[j].next))
      {
        WaitCovers(w.s, w.clock, wait, j);
      }
      assert w2.s.Pending(id);
    }
  }

  /**
    The clock is set back, the poller asks for its wait, another thread notices the rollover and arms the recurring
    timers again: the poller is still in time exactly if each of them has a deadline, or the longest sleep, within
    its period.
   */
  lemma SetBackGetNextExpireIff(w: World, to: nat, wait: Option<nat>)
    requires to <= w.clock && NextWait(w.s, to, wait) && Rollover(w.s.previousTime, to)
    ensures var w1 := Do(Do(w, SetBack(to)), GetNext(wait));
            InTime(Do(w1, ListExpired(to, true))) <==>
            forall id :: w.s.Pending(id) && w.s.objs[id].recurring ==> Soon(w.s, to, w.s.objs[id].ms)
  {
    var w1 := Do(Do(w, SetBack(to)), GetNext(wait));
    var w2 := Do(w1, ListExpired(to, true));
    forall id | w.s.Pending(id) && w.s.objs[id].recurring
      ensures w2.s.Pending(id)
      ensures UpBy(w2.promise, Reached(w2, w2.s.objs[id].next)) <==> Soon(w.s, to, w.s.objs[id].ms)
    {
      SleepWithin(w.s, to, wait, w.s.objs[id].ms);
    }
  }

  /** Expiry at any reading of the clock keeps the poller in time exactly if it is up for each timer armed again. */
  lemma ExpireKeepsPromiseIff(w: World, now: nat)
    requires Inv(w) && Enabled(w, ListExpired(now, true))
    ensures InTime(Do(w, ListExpired(now, true))) <==>
            w.woken || forall id :: Due(w.s, id, now) && w.s.objs[id].recurring ==>
                                      UpBy(w.promise, Reached(w, now + w.s.objs[id].ms))
  {
    var w' := Do(w, ListExpired(now, true));
    forall id | Due(w.s, id, now) && w.s.objs[id].recurring
      ensures w'.s.Pending(id) && w'.s.objs[id].next == now + w.s.objs[id].ms
    {
    }
  }

  /** In the order of the set, this key comes before every other pending timer. */
  ghost predicate Leads(s: State, id: nat, next: nat) {
    forall j :: s.Pending(j) && j != id ==> Before(Some(Key(next, id)), Some(Key(s.objs[j].next, j)))
  }

  /**
    Resetting a timer from its arming time keeps the invariant exactly if the poller has been woken, or is up within
    the new period, or the timer goes to the front, which wakes it.
   */
  lemma ResetKeepsIff(w: World, id: nat, ms: nat)
    requires Inv(w) && w.s.Pending(id) && ms != w.s.objs[id].ms
    ensures Inv(Do(w, ResetTimer(id, ms, false))) <==>
            w.woken || UpBy(w.promise, w.elapsed + ms) || Leads(w.s, id, ArmTime(w.s.objs[id]) + ms)
  {
    var t, w' := Rearmed(w.s.objs[id], ms, false, w.clock), Do(w, ResetTimer(id, ms, false));
    ResetWakes(w, id, t);
    if !w'.woken {
      var j := NotFirst(w, id, t);
      assert UpBy(w.promise, Reached(w, w.s.objs[j].next));
      assert w'.s.Pending(id) && w'.s.objs[id].ms == ms;
    }
  }

  lemma ResetWakes(w: World, id: nat, t: Timer)
    requires (w.s.tickled ==> w.woken) && t.cb.Some?
    ensures Woken(w, Add(w.s, id, t)).woken <==> w.woken || Leads(w.s, id, t.next)
  {
    var s' := w.s.(objs := w.s.objs[id := t]);
    assert forall j :: j != id ==> (s'.Pending(j) <==> w.s.Pending(j));
    assert First(s', id) <==> Leads(w.s, id, t.next);
  }

  const HOURS := 10000000

  /** A run in which that goes wrong: a period of 100 is armed again while the poller sleeps for 3000. */
  lemma SetBackOversleeps() returns (ws: seq<World>, acts: seq<Action>)
    ensures acts == [AddTimer(1, HOURS, 100, 7, true), SetBack(0), GetNext(Some(HOURS + 100)), ListExpired(0, true)]
    ensures Run(ws, acts, HOURS) && !InTime(ws[4])
  {
    var a0, a2 := AddTimer(1, HOURS, 100, 7, true), GetNext(Some(HOURS + 100));
    var w0, w1 := OneTimer();
    var w2 := Do(w1, SetBack(0));
    assert w2.s.Pending(1) && First(w2.s, 1);
    var w3 := Do(w2, a2);
    assert w3.s.Pending(1);
    var w4 := Do(w3, ListExpired(0, true));
    assert w4.s.Pending(1) && w4.s.objs[1].next == 100;
    ws, acts := [w0, w1, w2, w3, w4], [a0, SetBack(0), a2, ListExpired(0, true)];
  }

  /** A reset to 1 from an arming time the clock has not reached wakes nobody, and then a refresh is overslept. */
  lemma ResetOversleeps() returns (ws: seq<World>, acts: seq<Action>)
    ensures acts == [AddTimer(1, HOURS, 2000, 7, true), SetBack(0), AddTimer(2, 0, 2000, 8, true), GetNext(Some(2000)),
                     ResetTimer(1, 1, false), RefreshTimer(1)]
    ensures Run(ws, acts, HOURS) && !InTime(ws[6])
    ensures forall i :: 0 <= i < 6 && i != 4 ==> Guarded(ws[i], acts[i])
  {
    var w0, w1, w2, w3 := TwoTimers();
    var w4 := Do(w3, GetNext(Some(2000)));
    var w5 := ResetBehind(w4);
    var w6 := Do(w5, RefreshTimer(1));
    assert w6.s.Pending(1) && w6.s.objs[1].next == 1;
    ws := [w0, w1, w2, w3, w4, w5, w6];
    acts := [AddTimer(1, HOURS, 2000, 7, true), SetBack(0), AddTimer(2, 0, 2000, 8, true), GetNext(Some(2000)),
             ResetTimer(1, 1, false), RefreshTimer(1)];
  }

  lemma ResetBehind(w: World) returns (w': World)
    requires w.s.objs == map[1 := Timer(true, 2000, HOURS + 2000, Some(7)), 2 := Timer(true, 2000, 2000, Some(8))]
    requires !w.s.tickled && !w.woken
    ensures w' == Do(w, ResetTimer(1, 1, false)) && !w'.woken && w'.s.objs[1] == Timer(true, 1, HOURS + 1, Some(7))
    ensures w'.clock == w.clock && w'.elapsed == w.elapsed && w'.promise == w.promise
  {
    var t := Timer(true, 1, HOURS + 1, Some(7));
    var s' := w.s.(objs := w.s.objs[1 := t]);
    assert s'.Pending(2) && !Earlier(s'.objs, 1, 2);
    w' := Do(w, ResetTimer(1, 1, false));
    assert w'.s == s';
  }

  lemma TwoTimers() returns (w0: World, w1: World, w2: World, w3: World)
    ensures w0 == World(EMPTY.(previousTime := HOURS), HOURS, 0, NoPromise, false)
    ensures Enabled(w0, AddTimer(1, HOURS, 2000, 7, true)) && w1 == Do(w0, AddTimer(1, HOURS, 2000, 7, true))
    ensures Enabled(w1, SetBack(0)) && w2 == Do(w1, SetBack(0))
    ensures Enabled(w2, AddTimer(2, 0, 2000, 8, true)) && w3 == Do(w2, AddTimer(2, 0, 2000, 8, true))
    ensures w3.s.objs == map[1 := Timer(true, 2000, HOURS + 2000, Some(7)), 2 := Timer(true, 2000, 2000, Some(8))]
    ensures w3.clock == w3.elapsed == 0 && Enabled(w3, GetNext(Some(2000))) && Near(w3.s, 0)
  {
    w0 := World(EMPTY.(previousTime := HOURS), HOURS, 0, NoPromise, false);
    w1 := Do(w0, AddTimer(1, HOURS, 2000, 7, true));
    w2 := Do(w1, SetBack(0));
    w3 := Do(w2, AddTimer(2, 0, 2000, 8, true));
    assert w3.s.Pending(2) && w3.s.objs[2].next == 2000 && First(w3.s, 2);
  }

  /** A clock that gains on the time that passes reaches a deadline while the poller sleeps. */
  lemma GainOversleeps() returns (ws: seq<World>, acts: seq<Action>)
    ensures acts == [AddTimer(1, HOURS, 100, 7, true), GetNext(Some(100)), Tick(100, 0)]
    ensures Run(ws, acts, HOURS) && !InTime(ws[3])
  {
    var w0, w1 := OneTimer();
    var w2 := Do(w1, GetNext(Some(100)));
    var w3 := Do(w2, Tick(100, 0));
    assert w3.s.Pending(1) && w3.s.objs[1].next == HOURS + 100 == w3.clock;
    ws, acts := [w0, w1, w2, w3], [AddTimer(1, HOURS, 100, 7, true), GetNext(Some(100)), Tick(100, 0)];
  }

  lemma OneTimer() returns (w0: World, w1: World)
    ensures w0 == World(EMPTY.(previousTime := HOURS), HOURS, 0, NoPromise, false)
    ensures Enabled(w0, AddTimer(1, HOURS, 100, 7, true)) && w1 == Do(w0, AddTimer(1, HOURS, 100, 7, true))
    ensures w1.s.objs == map[1 := Timer(true, 100, HOURS + 100, Some(7))] && w1.clock == HOURS && w1.elapsed == 0
    ensures w1.s.previousTime == HOURS && w1.s.Pending(1) && First(w1.s, 1)
  {
    w0 := World(EMPTY.(previousTime := HOURS), HOURS, 0, NoPromise, false);
    w1 := Do(w0, AddTimer(1, HOURS, 100, 7, true));
  }
}
