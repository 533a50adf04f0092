/** The scheduler object: its methods carry out the steps of the scheduling model. */
module Schedulers {
  import opened Common
  import opened Scheduling

  class Scheduler {
    var queue: seq<Entry>
    var fibers: map<nat, FiberState>
    var threads: seq<Thread>
    var cbFibers: seq<Option<nat>>
    var active: nat
    var idle: nat
    var next: nat
    ghost var taken: map<nat, Taken>

    ghost function View(): S
      reads this
    {
      S(queue, fibers, threads, cbFibers, active, idle, next, taken)
    }

    constructor (n: nat)
      ensures View() == Initial(n) && Inv(View())
    {
      queue, fibers, active, idle, next, taken := [], map[], 0, 0, 0, map[];
      threads, cbFibers := seq(n, i => Looping), seq(n, i => None);
      new;
      NothingCounted(n);
    }

    /** scheduleNoLock: says whether the queue was empty before. */
    method ScheduleNoLock(w: Work, pin: Option<nat>) returns (tickle: bool)
      modifies this`queue, this`next
      ensures View() == Push(old(View()), w, pin) && tickle == (old(queue) == [])
      ensures queue == old(queue) + [Entry(old(next), w, pin)] && next == old(next) + 1
    {
      tickle := queue == [];
      queue := queue + [Entry(next, w, pin)];
      next := next + 1;
    }

    /** schedule of a range of callbacks, as for expired timers: all of them are queued, in order, for any thread. */
    method ScheduleAll(cbs: seq<nat>) returns (tickle: bool)
      modifies this`queue, this`next
      ensures |queue| == |old(queue)| + |cbs| && old(queue) <= queue && next == old(next) + |cbs|
      ensures forall i :: 0 <= i < |cbs| ==>
                queue[|old(queue)| + i] == Entry(old(next) + i, CallbackWork(cbs[i]), None)
      ensures tickle <==> old(queue) == [] && cbs != []
    {
      tickle := false;
      for i := 0 to |cbs|
        invariant |queue| == |old(queue)| + i && old(queue) <= queue && next == old(next) + i
        invariant forall j :: 0 <= j < i ==>
                    queue[|old(queue)| + j] == Entry(old(next) + j, CallbackWork(cbs[j]), None)
        invariant tickle <==> old(queue) == [] && i > 0
      {
        var t := ScheduleNoLock(CallbackWork(cbs[i]), None);
        tickle := t || tickle;
      }
    }

    /** The locked part of the run loop. */
    method Take(t: nat)
      requires Enabled(View(), Dequeue(t))
      modifies this
      ensures View() == Do(old(View()), Dequeue(t)) && (Inv(old(View())) ==> Inv(View()))
    {
      if Inv(View()) {
        StepKeepsInv(View(), Dequeue(t));
      }
      TakeFirst(t);
    }

    method TakeFirst(t: nat)
      requires Enabled(View(), Dequeue(t))
      modifies this
      ensures View() == Do(old(View()), Dequeue(t))
    {
      var i := Scan(queue, t, fibers);
      if i == |queue| {
        threads := threads[t := Missed];
        return;
      }
      var e := queue[i];
      queue := queue[..i] + queue[i + 1..];
      active := active + 1;
      threads := threads[t := Holding(e)];
      taken := taken[e.ticket := Taken(e, t)];
    }

    /**
      From the dequeued entry into swapIn; `spare` is the address of a new callback fiber, if one is needed.
      `aborted`: an assertion of swapIn or reset fires.
     */
    method Enter(t: nat, spare: nat) returns (aborted: bool)
      requires Enabled(View(), Start(t, spare))
      modifies this
      ensures aborted <==> !AssertsHold(old(View()), Start(t, spare))
      ensures !aborted ==> View() == Do(old(View()), Start(t, spare))
      ensures Inv(old(View())) ==> !aborted && Inv(View())
    {
      if Inv(View()) {
        StepKeepsInv(View(), Start(t, spare));
        AssertsNeverFail(View(), Start(t, spare));
      }
      aborted := StartEntry(t, spare);
    }

    method StartEntry(t: nat, spare: nat) returns (aborted: bool)
      requires Enabled(View(), Start(t, spare))
      modifies this
      ensures aborted <==> !AssertsHold(old(View()), Start(t, spare))
      ensures !aborted ==> View() == Do(old(View()), Start(t, spare))
    {
      match threads[t].entry.work
      case FiberWork(f) =>
        if f !in fibers || fibers[f] == EXEC {
          return true;
        }
        if !Ended(fibers[f]) {
          fibers := fibers[f := EXEC];
          threads := threads[t := Running(f, false)];
        } else {
          active := Decrement(active);
          threads := threads[t := Looping];
        }
        aborted := false;
      case CallbackWork(_) =>
        if cbFibers[t].Some? {
          var g := cbFibers[t].value;
          if g !in fibers || fibers[g] !in {TERM, EXCEPT, INIT} {
            return true;
          }
        } else {
          cbFibers := cbFibers[t := Some(spare)];
        }
        fibers := fibers[cbFibers[t].value := EXEC];
        threads := threads[t := Running(cbFibers[t].value, true)];
        aborted := false;
    }

    /** The yield or end of the fiber and the bookkeeping after swapIn. */
    method Leave(t: nat, outcome: FiberState)
      requires Enabled(View(), Finish(t, outcome))
      modifies this
      ensures View() == Do(old(View()), Finish(t, outcome))
      ensures Inv(old(View())) ==> (Inv(View()) <==> Careful(old(View()), Finish(t, outcome)))
    {
      if Inv(View()) {
        FinishSafeIff(View(), t, outcome);
      }
      Settle(t, outcome);
    }

    method Settle(t: nat, outcome: FiberState)
      requires Enabled(View(), Finish(t, outcome))
      modifies this
      ensures View() == Do(old(View()), Finish(t, outcome))
    {
      var Running(f, callback) := threads[t];
      fibers := fibers[f := outcome];
      threads := threads[t := Looping];
      active := Decrement(active);
      if outcome == READY {
        var tickle := ScheduleNoLock(FiberWork(f), None);
        if callback {
          cbFibers := cbFibers[t := None];
        }
      } else if Ended(outcome) {
        if callback {
          fibers := fibers[f := INIT];
        }
      } else if callback {
        cbFibers := cbFibers[t := None];
      }
    }
  }
}
