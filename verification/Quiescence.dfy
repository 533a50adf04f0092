/** When the I/O manager reports that it may stop, nothing is left to do. */
module Quiescence {
  import opened Common
  import opened TimerManagers
  import opened IoManagers
  import opened Schedulers
  import Scheduling

  /** IoManager::stopping, evaluated atomically: no timer, no pending event, and the scheduler may stop. */
  method Stopping(tm: TimerManager, io: IoManager, sched: Scheduler, now: nat, autoStop: bool, stopping: bool)
    returns (r: bool)
    requires tm.Valid() && io.TableOk() && Scheduling.Counters(sched.View()) && Scheduling.Tickets(sched.View())
    modifies tm`tickled
    ensures tm.Valid()
    ensures r ==> (forall id :: !tm.View().Pending(id)) && io.waiters == map[] && sched.queue == []
    ensures r ==> forall k: nat :: k < sched.next ==> k in sched.taken
    ensures r ==> forall t :: 0 <= t < |sched.threads| ==> !sched.threads[t].Holding? && !sched.threads[t].Running?
    ensures r <==> autoStop && stopping && sched.queue == [] && sched.active == 0
                   && io.waiters == map[] && forall id :: !tm.View().Pending(id)
  {
    ghost var s := tm.View();
    var wait := tm.GetNextTimer(now);
    assert forall id :: s.Pending(id) <==> tm.View().Pending(id);
    assert wait == None <==> forall id :: !s.Pending(id);
    r := wait == None && io.pending == 0 && autoStop && stopping && sched.queue == [] && sched.active == 0;
    if r {
      Scheduling.StoppingMeansDone(sched.View(), autoStop, stopping);
    }
  }
}
