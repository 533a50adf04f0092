/** Deadlines of timers, without any order: what each operation means. */
module Timers {
  import opened Common

  type Callback = nat

  /** A timer object; `cb` is None once it is cancelled or has fired for good. */
  datatype Timer = Timer(recurring: bool, ms: nat, next: nat, cb: Option<Callback>)

  /** All timer objects by address, the wake-up flag, and the time of the last expiry. */
  datatype State = State(objs: map<nat, Timer>, tickled: bool, previousTime: nat)
  {
    predicate Pending(id: nat) {
      id in objs && objs[id].cb.Some?
    }
  }

  /** A key of the ordered set: deadline first, then address. */
  datatype Key = Key(next: nat, address: nat)

  /** Timer::Comparator, null pointers included. */
  predicate Before(l: Option<Key>, r: Option<Key>) {
    if l.None? && r.None? then false
    else if l.None? then true
    else if r.None? then false
    else if l.value.next < r.value.next then true
    else if l.value.next > r.value.next then false
    else l.value.address < r.value.address
  }

  /** The comparator is a strict total order, so the set never takes two timers for one. */
  lemma ComparatorIsStrictOrder(a: Option<Key>, b: Option<Key>, c: Option<Key>)
    ensures !Before(a, a)
    ensures Before(a, b) && Before(b, c) ==> Before(a, c)
    ensures Before(a, b) || Before(b, a) <==> a != b
  {
  }

  predicate Earlier(objs: map<nat, Timer>, a: nat, b: nat)
    requires a in objs && b in objs
  {
    Before(Some(Key(objs[a].next, a)), Some(Key(objs[b].next, b)))
  }

  /** No pending timer comes before this one. */
  ghost predicate First(s: State, id: nat)
    requires s.Pending(id)
  {
    forall j :: s.Pending(j) && j != id ==> Earlier(s.objs, id, j)
  }

  // ----- what the operations do; the flag of the result says whether the poller is woken

  function Flag(s: State, front: bool): (r: (State, bool)) {
    (s.(tickled := s.tickled || front), front && !s.tickled)
  }

  ghost function Add(s: State, id: nat, t: Timer): (State, bool)
    requires t.cb.Some?
  {
    var s' := s.(objs := s.objs[id := t]);
    Flag(s', First(s', id))
  }

  function Cancel(s: State, id: nat): State
    requires id in s.objs
  {
    s.(objs := s.objs[id := s.objs[id].(cb := None)])
  }

  function Refresh(s: State, id: nat, now: nat): State
    requires s.Pending(id)
  {
    s.(objs := s.objs[id := s.objs[id].(next := now + s.objs[id].ms)])
  }

  /** `m_next - m_ms` as an unsigned subtraction. */
  function ArmTime(t: Timer): nat {
    if t.ms <= t.next then t.next - t.ms else (t.next - t.ms) % WORD
  }

  function Rearmed(t: Timer, ms: nat, fromNow: bool, now: nat): Timer {
    t.(ms := ms, next := (if fromNow then now else ArmTime(t)) + ms)
  }

  /** getNextTimer: None for "no timer", else the time to wait. */
  ghost predicate NextWait(s: State, now: nat, wait: Option<nat>) {
    match wait
    case None => forall id :: !s.Pending(id)
    case Some(d) =>
      exists id :: s.Pending(id) && First(s, id) && d == if now >= s.objs[id].next then 0 else s.objs[id].next - now
  }

  const HOUR: nat := 60 * 60 * 1000

  /** detectClockRollover, with the subtraction in 64-bit unsigned arithmetic. */
  predicate Rollover(previous: nat, now: nat) {
    now < previous && now < (previous - HOUR) % WORD
  }

  /** Going back by more than an hour is a rollover; in the first hour of the epoch, going back at all is. */
  lemma RolloverIff(previous: nat, now: nat)
    requires previous < WORD
    ensures Rollover(previous, now) <==> now < previous && (previous < 3_600_000 || now + 3_600_000 < previous)
  {
    if previous < HOUR {
      assert (previous - HOUR) % WORD == previous - HOUR + WORD;
    }
  }

  predicate Due(s: State, id: nat, now: nat) {
    s.Pending(id) && (Rollover(s.previousTime, now) || s.objs[id].next <= now)
  }

  function Fired(t: Timer, now: nat): Timer {
    if t.recurring then t.(next := now + t.ms) else t.(cb := None)
  }

  /** listExpiredCb: exactly the due timers fire; recurring ones are armed again from now. */
  function Expire(s: State, now: nat): State {
    s.(objs := map id | id in s.objs :: if Due(s, id, now) then Fired(s.objs[id], now) else s.objs[id],
       previousTime := now)
  }

  // ----- runs

  /** What the last getNextTimer told its caller: how long to wait, at which clock and which elapsed time. */
  datatype Promise = NoPromise | Promise(wait: Option<nat>, clock: nat, at: nat)

  /** `clock` is the wall clock, `elapsed` the time that really passes; `woken`: since the last getNextTimer. */
  datatype World = World(s: State, clock: nat, elapsed: nat, promise: Promise, woken: bool)

  datatype Action =
    | Tick(d: nat, e: nat)                 // the clock moves by d while e goes by
    | SetBack(to: nat)                     // the clock is set back
    | AddTimer(id: nat, armed: nat, ms: nat, cb: Callback, recurring: bool)
    | CancelTimer(id: nat)
    | RefreshTimer(id: nat)
    | ResetTimer(id: nat, ms: nat, fromNow: bool)
    | GetNext(wait: Option<nat>)
    | ListExpired(now: nat, seen: bool)    // `seen`: the set was not empty when it was first looked at

  /** Addresses are fresh; clock readings taken before locking may be stale but are not ahead of the clock. */
  ghost predicate Enabled(w: World, a: Action) {
    match a
    case Tick(_, _) => true
    case SetBack(to) => to <= w.clock
    case AddTimer(id, armed, _, _, _) => id !in w.s.objs && armed <= w.clock
    case CancelTimer(id) => id in w.s.objs
    case RefreshTimer(id) => id in w.s.objs
    case ResetTimer(id, _, _) => id in w.s.objs
    case GetNext(wait) => NextWait(w.s, w.clock, wait)
    case ListExpired(now, seen) => now <= w.clock && !(seen && ReadsEnd(w.s, now))
  }

  /** Past its first look, listExpiredCb reads the front of the set without looking again whether there is one. */
  ghost predicate ReadsEnd(s: State, now: nat) {
    (forall id :: !s.Pending(id)) && !Rollover(s.previousTime, now)
  }

  ghost function Do(w: World, a: Action): World
    requires Enabled(w, a)
  {
    match a
    case Tick(d, e) => w.(clock := w.clock + d, elapsed := w.elapsed + e)
    case SetBack(to) => w.(clock := to)
    case AddTimer(id, armed, ms, cb, recurring) =>
      Woken(w, Add(w.s, id, Timer(recurring, ms, armed + ms, Some(cb))))
    case CancelTimer(id) => if w.s.Pending(id) then w.(s := Cancel(w.s, id)) else w
    case RefreshTimer(id) => if w.s.Pending(id) then w.(s := Refresh(w.s, id, w.clock)) else w
    case ResetTimer(id, ms, fromNow) =>
      if (ms == w.s.objs[id].ms && !fromNow) || !w.s.Pending(id) then w
      else Woken(w, Add(w.s, id, Rearmed(w.s.objs[id], ms, fromNow, w.clock)))
    case GetNext(wait) =>
      w.(s := w.s.(tickled := false), woken := false, promise := Promise(wait, w.clock, w.elapsed))
    case ListExpired(now, seen) => if seen then w.(s := Expire(w.s, now)) else w
  }

  ghost function Woken(w: World, r: (State, bool)): World {
    w.(s := r.0, woken := w.woken || r.1)
  }

  ghost predicate Run(ws: seq<World>, acts: seq<Action>, start: nat) {
    && |ws| == |acts| + 1
    && ws[0] == World(EMPTY.(previousTime := start), start, 0, NoPromise, false)
    && forall i :: 0 <= i < |acts| ==> Enabled(ws[i], acts[i]) && ws[i + 1] == Do(ws[i], acts[i])
  }

  const EMPTY := State(map[], false, 0)

  // ----- deadlines over whole runs

  /** The timer is armed: added, refreshed or reset from now while pending, or fired though it recurs. */
  predicate Arms(w: World, a: Action, id: nat) {
    match a
    case AddTimer(i, _, _, _, _) => i == id
    case RefreshTimer(i) => i == id && w.s.Pending(id)
    case ResetTimer(i, _, fromNow) => i == id && fromNow && w.s.Pending(id)
    case ListExpired(now, seen) => seen && Due(w.s, id, now) && w.s.objs[id].recurring
    case _ => false
  }

  /** The reading of the clock that it is armed with. */
  function Reading(w: World, a: Action): nat {
    if a.AddTimer? then a.armed else if a.ListExpired? then a.now else w.clock
  }

  /** The k-th action is the last to arm this timer before the n-th, at this reading of the clock. */
  ghost predicate LastArmed(ws: seq<World>, acts: seq<Action>, n: nat, id: nat, k: nat, at: nat) {
    && k < n <= |acts| <= |ws| && Arms(ws[k], acts[k], id) && at == Reading(ws[k], acts[k])
    && forall j :: k < j < n ==> !Arms(ws[j], acts[j], id)
  }

  lemma ArmsNext(w: World, a: Action, id: nat)
    requires Enabled(w, a) && Arms(w, a, id)
    ensures var s' := Do(w, a).s; id in s'.objs && s'.objs[id].next == Reading(w, a) + s'.objs[id].ms
  {
  }

  lemma KeepsArmTime(w: World, a: Action, id: nat)
    requires Enabled(w, a) && !Arms(w, a, id) && id in Do(w, a).s.objs
    requires id in w.s.objs ==> w.s.objs[id].ms <= w.s.objs[id].next
    ensures var s' := Do(w, a).s;
            id in w.s.objs && s'.objs[id].next - s'.objs[id].ms == w.s.objs[id].next - w.s.objs[id].ms
  {
  }

  /** In every run the deadline of a timer is the reading it was last armed with, plus its period. */
  lemma {:induction false} DeadlineFromLastArming(ws: seq<World>, acts: seq<Action>, start: nat, n: nat, id: nat)
    returns (k: nat, at: nat)
    requires Run(ws, acts, start) && n <= |acts| && id in ws[n].s.objs
    ensures LastArmed(ws, acts, n, id, k, at) && ws[n].s.objs[id].next == at + ws[n].s.objs[id].ms
    decreases n
  {
    assert n > 0;
    var w, a := ws[n - 1], acts[n - 1];
    if Arms(w, a, id) {
      ArmsNext(w, a, id);
      k, at := n - 1, Reading(w, a);
    } else {
      assert id in w.s.objs;
      k, at := DeadlineFromLastArming(ws, acts, start, n - 1, id);
      KeepsArmTime(w, a, id);
    }
  }

  /**
    In every run, whatever the clock does: listExpiredCb fires a pending timer exactly if its period has passed since
    it was last added, refreshed, reset from now, or fired; or if it takes the clock to have rolled over.
   */
  lemma FiresAfterPeriodIff(ws: seq<World>, acts: seq<Action>, start: nat, n: nat, id: nat, now: nat)
    returns (k: nat, at: nat)
    requires Run(ws, acts, start) && n <= |acts| && ws[n].s.Pending(id)
    ensures LastArmed(ws, acts, n, id, k, at)
    ensures Due(ws[n].s, id, now) <==> at + ws[n].s.objs[id].ms <= now || Rollover(ws[n].s.previousTime, now)
  {
    k, at := DeadlineFromLastArming(ws, acts, start, n, id);
  }

  // ----- a clock that never goes back

  /** The clock does not go back, and no rollover is noticed. */
  predicate Forward(w: World, a: Action) {
    !a.SetBack? && (a.ListExpired? ==> !Rollover(w.s.previousTime, a.now))
  }

  /** Every deadline is a past arming time plus the period. */
  ghost predicate ArmedInPast(w: World) {
    forall id :: id in w.s.objs ==> w.s.objs[id].ms <= w.s.objs[id].next <= w.clock + w.s.objs[id].ms
  }

  /** The promised wake-up is no later than this deadline, or than the moment of the promise. */
  predicate Covers(p: Promise, next: nat) {
    p.NoPromise? || (p.wait.Some? && (p.clock + p.wait.value <= next || p.wait.value == 0))
  }

  ghost predicate PromiseKept(w: World) {
    w.woken || forall id :: w.s.Pending(id) ==> Covers(w.promise, w.s.objs[id].next)
  }

  ghost predicate Inv(w: World) {
    && ArmedInPast(w)
    && (w.s.tickled ==> w.woken)
    && PromiseKept(w)
  }

  /** A timer that goes in behind another one. */
  lemma NotFirst(w: World, id: nat, t: Timer) returns (j: nat)
    requires t.cb.Some? && (w.s.tickled ==> w.woken) && !Woken(w, Add(w.s, id, t)).woken
    ensures j != id && w.s.Pending(j) && w.s.objs[j].next <= t.next
  {
    var s' := w.s.(objs := w.s.objs[id := t]);
    assert !First(s', id);
    j :| s'.Pending(j) && j != id && !Earlier(s'.objs, id, j);
    assert w.s.Pending(j);
  }

  lemma AddKeeps(w: World, id: nat, t: Timer)
    requires Inv(w) && t.cb.Some? && t.ms <= t.next <= w.clock + t.ms
    ensures Inv(Woken(w, Add(w.s, id, t)))
  {
    var w' := Woken(w, Add(w.s, id, t));
    if !w'.woken && w'.promise.Promise? {
      var j := NotFirst(w, id, t);
    }
  }

  lemma StepKeepsInv(w: World, a: Action)
    requires Inv(w) && Enabled(w, a) && Forward(w, a)
    ensures Inv(Do(w, a))
  {
    match a
    case AddTimer(id, armed, ms, cb, recurring) =>
      AddKeeps(w, id, Timer(recurring, ms, armed + ms, Some(cb)));
    case ResetTimer(id, ms, fromNow) =>
      if w.s.Pending(id) {
        AddKeeps(w, id, Rearmed(w.s.objs[id], ms, fromNow, w.clock));
      }
    case GetNext(wait) =>
      GetNextPromises(w, wait);
    case _ =>
  }

  /** The wait of getNextTimer ends no later than any deadline, unless it is zero. */
  lemma WaitCovers(s: State, now: nat, wait: Option<nat>, j: nat)
    requires NextWait(s, now, wait) && s.Pending(j)
    ensures wait.Some? && (wait.value == 0 || now + wait.value <= s.objs[j].next)
  {
    var id :| s.Pending(id) && First(s, id)
              && wait.value == if now >= s.objs[id].next then 0 else s.objs[id].next - now;
    if j != id {
      assert Earlier(s.objs, id, j);
    }
  }

  lemma GetNextPromises(w: World, wait: Option<nat>)
    requires Inv(w) && NextWait(w.s, w.clock, wait)
    ensures Inv(Do(w, GetNext(wait)))
  {
    var w' := Do(w, GetNext(wait));
    forall j | w'.s.Pending(j)
      ensures Covers(w'.promise, w'.s.objs[j].next)
    {
      WaitCovers(w.s, w.clock, wait, j);
    }
  }

  /** No wake-up is lost: after any run the poller has been woken, or wakes in time for every pending deadline. */
  lemma {:induction false} NoLostWakeup(ws: seq<World>, acts: seq<Action>, start: nat)
    requires Run(ws, acts, start) && forall i :: 0 <= i < |acts| ==> Forward(ws[i], acts[i])
    ensures forall i :: 0 <= i < |ws| ==> PromiseKept(ws[i]) && ArmedInPast(ws[i])
  {
    for i := 0 to |acts|
      invariant forall j :: 0 <= j <= i ==> Inv(ws[j])
    {
      StepKeepsInv(ws[i], acts[i]);
    }
  }
}
