/** The timer manager: an ordered set of pending timers over mutable timer objects. */
module TimerManagers {
  import opened Common
  import opened Timers

  /** std::set by position: strictly increasing keys. */
  ghost predicate Sorted(objs: map<nat, Timer>, ids: seq<nat>) {
    && (forall i :: 0 <= i < |ids| ==> ids[i] in objs)
    && forall i, j :: 0 <= i < j < |ids| ==> Earlier(objs, ids[i], ids[j])
  }

  /** lower_bound: the first position whose key is not before k. */
  method LowerBound(objs: map<nat, Timer>, ids: seq<nat>, k: Key) returns (n: nat)
    requires Sorted(objs, ids)
    ensures n <= |ids|
    ensures forall i :: 0 <= i < n ==> Before(Some(Key(objs[ids[i]].next, ids[i])), Some(k))
    ensures forall i :: n <= i < |ids| ==> !Before(Some(Key(objs[ids[i]].next, ids[i])), Some(k))
  {
    n := 0;
    while n < |ids| && Before(Some(Key(objs[ids[n]].next, ids[n])), Some(k))
      invariant n <= |ids|
      invariant forall i :: 0 <= i < n ==> Before(Some(Key(objs[ids[i]].next, ids[i])), Some(k))
    {
      n := n + 1;
    }
    forall i | n <= i < |ids|
      ensures !Before(Some(Key(objs[ids[i]].next, ids[i])), Some(k))
    {
      if i > n {
        assert Earlier(objs, ids[n], ids[i]);
      }
    }
  }

  class TimerManager {
    var objs: map<nat, Timer>    // timer objects by address
    var timers: seq<nat>         // m_timers, in order
    var tickled: bool
    var previousTime: nat

    ghost function View(): State
      reads this
    {
      State(objs, tickled, previousTime)
    }

    /** Sorted without duplicates, and a timer is in the set iff its callback is set. */
    ghost predicate Valid()
      reads this
    {
      && Sorted(objs, timers)
      && forall id :: id in timers <==> id in objs && objs[id].cb.Some?
    }

    constructor (now: nat)
      ensures Valid() && View() == EMPTY.(previousTime := now)
    {
      objs, timers, tickled, previousTime := map[], [], false, now;
    }

    /** m_timers.find: the position of a pending timer is found by its key. */
    method Find(id: nat) returns (n: nat)
      requires Sorted(objs, timers) && id in objs
      ensures n <= |timers|
      ensures id in timers ==> n < |timers| && timers[n] == id
      ensures id !in timers ==> n == |timers|
    {
      n := LowerBound(objs, timers, Key(objs[id].next, id));
      if n < |timers| && timers[n] != id {
        n := |timers|;
      }
    }

    method Insert(id: nat) returns (n: nat)
      requires Sorted(objs, timers) && id in objs && id !in timers
      modifies this`timers
      ensures Sorted(objs, timers) && n < |timers| && timers[n] == id
      ensures forall x :: x in timers <==> x in old(timers) || x == id
    {
      n := LowerBound(objs, timers, Key(objs[id].next, id));
      InsertSorted(objs, timers, n, id);
      timers := timers[..n] + [id] + timers[n..];
    }

    method Erase(n: nat)
      requires Sorted(objs, timers) && n < |timers|
      modifies this`timers
      ensures Sorted(objs, timers)
      ensures forall x :: x in timers <==> x in old(timers) && x != old(timers[n])
    {
      ghost var was := timers;
      timers := timers[..n] + timers[n + 1..];
      forall x ensures x in timers <==> x in was && x != was[n] {
        if x in was && x != was[n] {
          var i :| 0 <= i < |was| && was[i] == x;
          assert timers[if i < n then i else i - 1] == x;
        }
        if x in timers {
          var i :| 0 <= i < |timers| && timers[i] == x;
          var j := if i < n then i else i + 1;
          assert was[j] == x;
          assert Earlier(objs, was[if j < n then j else n], was[if j < n then n else j]);
        }
      }
    }

    /** The locked addTimer: whether the poller must be woken. */
    method AddTimer(id: nat, t: Timer) returns (wake: bool)
      requires Sorted(objs, timers) && id !in timers && t.cb.Some?
      requires forall x :: x in timers || x == id <==> (x in objs && objs[x].cb.Some?) || x == id
      modifies this
      ensures Valid()
      ensures (View(), wake) == Add(old(View()), id, t)
      ensures objs == old(objs)[id := t] && (tickled <==> old(tickled) || wake) && previousTime == old(previousTime)
      ensures wake <==> !old(tickled) && forall j :: j in old(timers) ==>
                          t.next < objs[j].next || (t.next == objs[j].next && id < j)
    {
      objs := objs[id := t];
      var n := Insert(id);
      var front := n == 0 && !tickled;
      assert First(View(), id) <==> n == 0 by {
        if n > 0 {
          assert Earlier(objs, timers[0], timers[n]);
          assert View().Pending(timers[0]);
        } else {
          forall j | View().Pending(j) && j != id ensures Earlier(objs, id, j) {
            var i :| 0 <= i < |timers| && timers[i] == j;
          }
        }
      }
      if front {
        tickled := true;
      }
      wake := front;
    }

    /** Timer::cancel */
    method Cancel(id: nat) returns (ok: bool)
      requires Valid() && id in objs
      modifies this
      ensures Valid()
      ensures ok <==> old(objs[id]).cb.Some?
      ensures objs == if ok then old(objs)[id := old(objs[id]).(cb := None)] else old(objs)
      ensures tickled == old(tickled) && previousTime == old(previousTime)
    {
      if objs[id].cb.None? {
        return false;
      }
      assert id in timers;
      objs := objs[id := objs[id].(cb := None)];
      var n := Find(id);
      Erase(n);  // never end()
      ok := true;
    }

    /** Timer::refresh */
    method Refresh(id: nat, now: nat) returns (ok: bool)
      requires Valid() && id in objs
      modifies this
      ensures Valid()
      ensures ok <==> old(objs[id]).cb.Some?
      ensures objs == if ok then old(objs)[id := old(objs[id]).(next := now + old(objs[id]).ms)] else old(objs)
      ensures tickled == old(tickled) && previousTime == old(previousTime)
    {
      if objs[id].cb.None? {
        return false;
      }
      assert id in timers;
      var n := Find(id);
      if n == |timers| {
        return false;
      }
      Erase(n);
      objs := objs[id := objs[id].(next := now + objs[id].ms)];
      var at := Insert(id);
      ok := true;
    }

    /** Timer::reset; `wake` says whether the poller must be woken. */
    method Reset(id: nat, ms: nat, fromNow: bool, now: nat) returns (ok: bool, wake: bool)
      requires Valid() && id in objs
      modifies this
      ensures Valid()
      ensures ok <==> (ms == old(objs[id].ms) && !fromNow) || old(View().Pending(id))
      ensures (View(), wake) ==
              if (ms == old(objs[id].ms) && !fromNow) || !old(View().Pending(id)) then (old(View()), false)
              else Add(old(View()), id, Rearmed(old(objs[id]), ms, fromNow, now))
      ensures objs.Keys == old(objs).Keys && forall j :: j in objs && j != id ==> objs[j] == old(objs)[j]
      ensures old(objs[id]).cb.Some? && fromNow ==> objs[id] == old(objs[id]).(ms := ms, next := now + ms)
      ensures old(objs[id]).cb.Some? && !fromNow && old(objs[id]).ms <= old(objs[id]).next ==>
                objs[id] == old(objs[id]).(ms := ms, next := old(objs[id]).next - old(objs[id]).ms + ms)
      ensures old(objs[id]).cb.None? ==> objs == old(objs)
    {
      if ms == objs[id].ms && !fromNow {
        return true, false;
      }
      if objs[id].cb.None? {
        return false, false;
      }
      assert id in timers;
      var n := Find(id);
      if n == |timers| {
        return false, false;
      }
      Erase(n);
      wake := AddTimer(id, Rearmed(objs[id], ms, fromNow, now));
      ok := true;
    }

    method GetNextTimer(now: nat) returns (wait: Option<nat>)
      requires Valid()
      modifies this`tickled
      ensures Valid() && View() == old(View()).(tickled := false)
      ensures NextWait(old(View()), now, wait)
      ensures wait.None? <==> forall j :: j in objs ==> objs[j].cb.None?
      ensures wait.Some? ==>
                exists id :: id in objs && objs[id].cb.Some?
                             && wait.value == (if objs[id].next <= now then 0 else objs[id].next - now)
                             && forall j :: j in objs && objs[j].cb.Some? ==> objs[id].next <= objs[j].next
    {
      tickled := false;
      if timers == [] {
        return None;
      }
      var id := timers[0];
      assert View().Pending(id);
      assert First(old(View()), id) by {
        forall j | old(View()).Pending(j) && j != id ensures Earlier(objs, id, j) {
          var i :| 0 <= i < |timers| && timers[i] == j;
        }
      }
      wait := Some(if now >= objs[id].next then 0 else objs[id].next - now);
    }

    /** How many timers at the head of the set are due; `scratch` is the address of the probe object. */
    method CountDue(now: nat, scratch: nat, rollover: bool) returns (n: nat)
      requires Valid()
      ensures n <= |timers| && (rollover ==> n == |timers|)
      ensures forall i :: 0 <= i < n ==> rollover || objs[timers[i]].next <= now
      ensures forall i :: n <= i < |timers| ==> objs[timers[i]].next > now
    {
      if rollover {
        return |timers|;
      }
      n := LowerBound(objs, timers, Key(now, scratch));
      while n < |timers| && objs[timers[n]].next == now
        invariant n <= |timers|
        invariant forall i :: 0 <= i < n ==> objs[timers[i]].next <= now
        invariant forall i :: n <= i < |timers| ==> objs[timers[i]].next >= now
      {
        n := n + 1;
      }
      forall i | n <= i < |timers|
        ensures objs[timers[i]].next > now
      {
        if i > n {
          assert Earlier(objs, timers[n], timers[i]);
        }
      }
    }

    /** Fires the timers taken off the head of the set, one by one. */
    method Fire(expired: seq<nat>, now: nat, ghost s: State) returns (cbs: seq<Callback>)
      requires Sorted(objs, timers) && Sorted(objs, expired) && objs == s.objs
      requires forall id :: id in expired ==> objs[id].cb.Some? && id !in timers
      requires forall id :: id in timers || id in expired <==> id in objs && objs[id].cb.Some?
      modifies this`objs, this`timers
      ensures Valid()
      ensures objs == map id | id in s.objs :: if id in expired then Fired(s.objs[id], now) else s.objs[id]
      ensures |cbs| == |expired| && forall i :: 0 <= i < |cbs| ==> s.objs[expired[i]].cb == Some(cbs[i])
    {
      cbs := [];
      for i := 0 to |expired|
        invariant Sorted(objs, timers) && |cbs| == i
        invariant objs.Keys == s.objs.Keys
        invariant forall id :: id in objs ==>
                    objs[id] == if id in expired[..i] then Fired(s.objs[id], now) else s.objs[id]
        invariant forall id :: id in timers || id in expired[i..] <==> id in objs && objs[id].cb.Some?
        invariant forall id :: id in expired[i..] ==> id !in timers
        invariant forall j :: 0 <= j < i ==> s.objs[expired[j]].cb == Some(cbs[j])
      {
        var id := expired[i];
        Distinct(s.objs, expired, i);
        var cb := FireOne(id, now);
        cbs := cbs + [cb];
      }
      assert expired[..|expired|] == expired;
    }

    /** Hands over a callback; a recurring timer goes back into the set. */
    method FireOne(id: nat, now: nat) returns (cb: Callback)
      requires Sorted(objs, timers) && id in objs && objs[id].cb.Some? && id !in timers
      modifies this`objs, this`timers
      ensures Sorted(objs, timers) && old(objs)[id].cb == Some(cb)
      ensures objs == old(objs)[id := Fired(old(objs)[id], now)]
      ensures forall x :: x in timers <==> x in old(timers) || (x == id && old(objs)[id].recurring)
    {
      cb := objs[id].cb.value;
      objs := objs[id := Fired(objs[id], now)];
      if objs[id].recurring {
        var n := Insert(id);
      }
    }

    /**
      listExpiredCb: the callbacks of exactly the due timers (`fired`), once each, in order of deadline. `seen`: the
      set was not empty under the first lock; if it is empty by now, the front of an empty set is read.
     */
    method ListExpiredCb(now: nat, scratch: nat, seen: bool)
      returns (cbs: seq<Callback>, crashed: bool, ghost fired: seq<nat>)
      requires Valid()
      modifies this
      ensures Valid() && (crashed <==> seen && ReadsEnd(old(View()), now))
      ensures !crashed ==> View() == if seen then Expire(old(View()), now) else old(View())
      ensures Sorted(old(objs), fired) && previousTime == if seen then now else old(previousTime)
      ensures forall id :: id in fired <==>
                && seen && id in old(objs) && old(objs)[id].cb.Some?
                && (old(objs)[id].next <= now || Rollover(old(previousTime), now))
      ensures |cbs| == |fired| && forall i :: 0 <= i < |cbs| ==> old(objs)[fired[i]].cb == Some(cbs[i])
      ensures !crashed ==> objs.Keys == old(objs).Keys && forall id :: id in objs ==>
                var t := old(objs)[id];
                objs[id] == if id !in fired then t
                            else if t.recurring then t.(next := now + t.ms) else t.(cb := None)
    {
      cbs, crashed, fired := [], false, [];
      if seen {
        cbs, crashed, fired := TakeExpired(now, scratch);
      }
    }

    /** The part of listExpiredCb under the second lock. */
    method TakeExpired(now: nat, scratch: nat) returns (cbs: seq<Callback>, crashed: bool, ghost fired: seq<nat>)
      requires Valid()
      modifies this
      ensures Valid() && (crashed <==> ReadsEnd(old(View()), now))
      ensures previousTime == now && (!crashed ==> View() == Expire(old(View()), now))
      ensures Sorted(old(objs), fired) && forall id :: id in fired <==> Due(old(View()), id, now)
      ensures |cbs| == |fired| && forall i :: 0 <= i < |cbs| ==> old(objs)[fired[i]].cb == Some(cbs[i])
    {
      cbs, crashed, fired := [], false, [];
      ghost var s := View();
      var rollover := Rollover(previousTime, now);
      previousTime := now;
      assert timers != [] ==> s.Pending(timers[0]);
      if !rollover && timers == [] {
        crashed := true;
        return;
      }
      if !rollover && objs[timers[0]].next > now {
        NoneDue(s, timers, now);
        return;
      }
      var n := CountDue(now, scratch, rollover);
      var expired := timers[..n];
      fired := expired;
      DueIsPrefix(s, timers, n, rollover, now);
      timers := timers[n..];
      cbs := Fire(expired, now, s);
    }

    /** Every action of a run is carried out by this class: `act` is the action with the answer it got. */
    method Perform(a: Action, clock: nat, ghost w: World) returns (ghost act: Action, ghost w': World)
      requires Valid() && w.s == View() && w.clock == clock && (a.GetNext? || Enabled(w, a))
      modifies this
      ensures Valid() && Enabled(w, act) && w' == Do(w, act) && w'.s == View()
      ensures if a.GetNext? then act.GetNext? else act == a
    {
      act := a;
      match a {
        case Tick(_, _) =>
        case SetBack(_) =>
        case AddTimer(id, armed, ms, cb, recurring) =>
          var wake := AddTimer(id, Timer(recurring, ms, armed + ms, Some(cb)));
        case CancelTimer(id) =>
          var ok := Cancel(id);
        case RefreshTimer(id) =>
          var ok := Refresh(id, clock);
        case ResetTimer(id, ms, fromNow) =>
          var ok, wake := Reset(id, ms, fromNow, clock);
        case GetNext(_) =>
          var wait := GetNextTimer(clock);
          act := GetNext(wait);
        case ListExpired(now, seen) =>
          var cbs, crashed, fired := ListExpiredCb(now, 0, seen);
      }
      w' := Do(w, act);
    }
  }

  /** The set is looked at, emptied by another thread, and then read: listExpiredCb takes the front of nothing. */
  method EmptiedBetweenLocks() returns (crashed: bool)
    ensures crashed
  {
    var tm := new TimerManager(0);
    var wake := tm.AddTimer(1, Timer(false, 100, 100, Some(7)));
    assert tm.View().Pending(1);
    var seen := tm.timers != [];
    var ok := tm.Cancel(1);
    assert forall id :: !tm.View().Pending(id);
    var cbs;
    ghost var fired;
    cbs, crashed, fired := tm.ListExpiredCb(0, 0, seen);
  }

  lemma InsertSorted(objs: map<nat, Timer>, ids: seq<nat>, n: nat, id: nat)
    requires Sorted(objs, ids) && n <= |ids| && id in objs && id !in ids
    requires forall i :: 0 <= i < n ==> Earlier(objs, ids[i], id)
    requires forall i :: n <= i < |ids| ==> !Earlier(objs, ids[i], id)
    ensures Sorted(objs, ids[..n] + [id] + ids[n..])
    ensures forall x :: x in ids[..n] + [id] + ids[n..] <==> x in ids || x == id
  {
    var r := ids[..n] + [id] + ids[n..];
    assert ids == ids[..n] + ids[n..];
    forall i | 0 <= i < |r|
      ensures r[i] == if i < n then ids[i] else if i == n then id else ids[i - 1]
    {
    }
    forall i, j | 0 <= i < j < |r|
      ensures r[i] in objs && r[j] in objs && Earlier(objs, r[i], r[j])
    {
      if i == n {
        assert ids[j - 1] != id;
      }
    }
  }

  lemma Distinct(objs: map<nat, Timer>, ids: seq<nat>, i: nat)
    requires Sorted(objs, ids) && i < |ids|
    ensures ids[i] !in ids[..i] && ids[i] !in ids[i + 1..]
    ensures ids[i..] == [ids[i]] + ids[i + 1..] && ids[..i + 1] == ids[..i] + [ids[i]]
  {
    forall j | 0 <= j < |ids| && j != i
      ensures ids[j] != ids[i]
    {
      assert Earlier(objs, ids[if j < i then j else i], ids[if j < i then i else j]);
    }
  }

  /** If the first deadline lies ahead, so do all. */
  lemma NoneDue(s: State, ids: seq<nat>, now: nat)
    requires Sorted(s.objs, ids) && ids != [] && forall id :: id in ids <==> s.Pending(id)
    requires !Rollover(s.previousTime, now) && s.objs[ids[0]].next > now
    ensures forall id :: !Due(s, id, now)
  {
    forall i | 0 <= i < |ids| ensures s.objs[ids[i]].next > now {
      if i > 0 {
        assert Earlier(s.objs, ids[0], ids[i]);
      }
    }
    DueIsPrefix(s, ids, 0, false, now);
  }

  lemma DueIsPrefix(s: State, ids: seq<nat>, n: nat, rollover: bool, now: nat)
    requires Sorted(s.objs, ids) && n <= |ids| && forall id :: id in ids <==> s.Pending(id)
    requires rollover == Rollover(s.previousTime, now) && (rollover ==> n == |ids|)
    requires forall i :: 0 <= i < n ==> rollover || s.objs[ids[i]].next <= now
    requires forall i :: n <= i < |ids| ==> s.objs[ids[i]].next > now
    ensures forall id :: id in ids[..n] <==> Due(s, id, now)
    ensures forall id :: id in ids[..n] ==> id !in ids[n..]
    ensures forall id :: id in ids <==> id in ids[..n] || id in ids[n..]
  {
    assert ids == ids[..n] + ids[n..];
    forall i, j | 0 <= i < n <= j < |ids|
      ensures ids[i] != ids[j]
    {
      assert Earlier(s.objs, ids[i], ids[j]);
    }
  }
}
