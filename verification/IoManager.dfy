/** The event table of the I/O manager: bits and contexts per descriptor, a counter, the kernel's interest set. */
module IoManagers {
  import opened Common
  import opened EventTable

  datatype Context = Context(scheduler: bool, fiber: Option<nat>, cb: Option<nat>)

  const IDLE := Context(false, None, None)

  /** FdContext; `events` is the bit mask. */
  datatype FdContext = FdContext(read: Context, write: Context, events: Mask)
  {
    function At(e: Event): Context {
      if e == READ then read else write
    }

    function With(e: Event, c: Context): FdContext {
      if e == READ then this.(read := c) else this.(write := c)
    }
  }

  const FRESH := FdContext(IDLE, IDLE, NONE)

  function Waiting(w: Task): Context {
    match w
    case FiberTask(f) => Context(true, Some(f), None)
    case CallbackTask(c) => Context(true, None, Some(c))
  }

  datatype Op = ADD | MOD | DEL

  /** What epoll_ctl accepts for the present interest set. */
  predicate Legal(kernel: map<nat, Mask>, op: Op, fd: nat) {
    if op == ADD then fd !in kernel else fd in kernel
  }

  /** epoll_ctl: a legal request either takes effect or, if the system refuses, changes nothing. */
  function EpollCtl(kernel: map<nat, Mask>, op: Op, fd: nat, mask: Mask, works: bool)
    : (map<nat, Mask>, bool)
  {
    if !works || !Legal(kernel, op, fd) then (kernel, false)
    else (if op == DEL then kernel - {fd} else kernel[fd := mask], true)
  }

  datatype Readiness = IN | OUT | ERR | HUP

  /** real_events, with the widening of errors and hang-ups. */
  function RealEvents(mask: set<Readiness>): Mask {
    var wide := ERR in mask || HUP in mask;
    Mask(wide || IN in mask, wide || OUT in mask)
  }

  /** The waiter of a slot, if there is one. */
  function WaiterAt(waiters: map<Slot, Task>, k: Slot): seq<Task> {
    if k in waiters then [waiters[k]] else []
  }

  lemma TriggeredMask(t: Table, fd: nat, m: Mask)
    ensures var t' := TriggerMask(t, fd, m);
            && t'.waiters == t.waiters - (if m.read then {Slot(fd, READ)} else {})
                                       - (if m.write then {Slot(fd, WRITE)} else {})
            && t'.queue == t.queue + (if m.read then WaiterAt(t.waiters, Slot(fd, READ)) else [])
                                   + (if m.write then WaiterAt(t.waiters, Slot(fd, WRITE)) else [])
  {
  }

  lemma TriggeredBoth(t: Table, fd: nat)
    ensures var t' := TriggerMask(t, fd, Mask(true, true));
            && t'.waiters == t.waiters - {Slot(fd, READ), Slot(fd, WRITE)}
            && t'.queue == t.queue + WaiterAt(t.waiters, Slot(fd, READ)) + WaiterAt(t.waiters, Slot(fd, WRITE))
  {
  }

  datatype AddResult = Added | Failed | AddAborted

  datatype DeliverResult = Skipped | Refused | Delivered | DeliverAborted

  /** A context waits iff its bit is set; then it holds a scheduler and exactly one of fiber and callback. */
  predicate ContextAgrees(c: FdContext, k: Slot, waiters: map<Slot, Task>) {
    && (c.events.Has(k.event) <==> k in waiters)
    && c.At(k.event) == if k in waiters then Waiting(waiters[k]) else IDLE
  }

  predicate ContextsAgree(c: FdContext, fd: nat, waiters: map<Slot, Task>) {
    ContextAgrees(c, Slot(fd, READ), waiters) && ContextAgrees(c, Slot(fd, WRITE), waiters)
  }

  /** A descriptor is in the interest set iff it has bits set, and then with exactly these. */
  predicate InterestAgrees(events: Mask, fd: nat, kernel: map<nat, Mask>) {
    && (fd in kernel <==> events != NONE)
    && (fd in kernel ==> kernel[fd] == events)
  }

  /** The contexts with bits set that a table loses when it is cut to `size`. */
  function CutOff(fds: seq<FdContext>, size: nat): map<nat, FdContext> {
    map n | size <= n < |fds| && fds[n].events != NONE :: fds[n]
  }

  /** A context with one event cleared. */
  function Emptied(c: FdContext, e: Event): FdContext {
    c.(events := c.events.Minus(e)).With(e, IDLE)
  }

  lemma AgreesWithout(c: FdContext, fd: nat, k: Slot, waiters: map<Slot, Task>)
    requires ContextsAgree(c, fd, waiters)
    ensures ContextsAgree(if fd == k.fd then Emptied(c, k.event) else c, fd, waiters - {k})
  {
  }

  class IoManager {
    var fds: seq<FdContext>            // the table
    var lost: map<nat, FdContext>      // contexts cut off the table that epoll still points to
    var pending: nat
    var kernel: map<nat, Mask>
    var queue: seq<Task>               // what has been scheduled
    ghost var waiters: map<Slot, Task>

    ghost function View(): Table
      reads this
    {
      Table(waiters, queue)
    }

    /** The context that counts for a descriptor. */
    function Ctx(fd: nat): FdContext
      reads this`fds, this`lost
    {
      if fd in lost then lost[fd] else if fd < |fds| then fds[fd] else FRESH
    }

    /** A lost context has bits set, and if the table has grown again, a fresh one stands in its place. */
    ghost predicate LostOk()
      reads this`fds, this`lost
    {
      |fds| >= 32 && forall fd: nat :: fd in lost ==> lost[fd].events != NONE && (fd < |fds| ==> fds[fd] == FRESH)
    }

    /** The counter counts the waiters, and all contexts, in the table or lost, agree with them. */
    ghost predicate TableOk()
      reads this`fds, this`lost, this`pending, this`waiters
    {
      LostOk() && pending == |waiters| && forall fd: nat :: ContextsAgree(Ctx(fd), fd, waiters)
    }

    /** All contexts agree with the interest set. */
    ghost predicate KernelOk()
      reads this`fds, this`lost, this`kernel
    {
      forall fd: nat :: InterestAgrees(Ctx(fd).events, fd, kernel)
    }

    ghost predicate Valid()
      reads this
    {
      TableOk() && KernelOk()
    }

    constructor ()
      ensures Valid() && lost == map[] && waiters == map[] && queue == [] && |fds| == 32
    {
      fds := seq(32, i => FRESH);
      lost, pending, kernel, queue, waiters := map[], 0, map[], [], map[];
    }

    method ContextResize(size: nat)
      modifies this`fds
      ensures fds == Resized(old(fds), size)
    {
      var kept := if size <= |fds| then fds[..size] else fds;
      fds := kept;
      while |fds| < size
        invariant |kept| <= |fds| <= size && fds == kept + seq(|fds| - |kept|, i => FRESH)
        decreases size - |fds|
      {
        fds := fds + [FRESH];
      }
    }

    /**
      How addEvent finds the context: `small` says that the table was too small for fd under the read lock. It is
      then resized under the write lock, whatever its size is by that time, and loses what it is cut below.
     */
    method FindContext(fd: nat, small: bool)
      requires Valid() && (if small then fd >= 32 else fd < |fds|)
      modifies this`fds, this`lost
      ensures Valid() && fd < |fds| == if small then fd * 3 / 2 else |old(fds)|
      ensures lost == if small then old(lost) + CutOff(old(fds), fd * 3 / 2) else old(lost)
    {
      if small {
        lost := lost + CutOff(fds, fd * 3 / 2);
        ContextResize(fd * 3 / 2);
        assert forall n: nat :: Ctx(n) == old(Ctx(n));
      }
    }

    /** Assigns the context of a descriptor; one that is lost and has no bit set is not reached any more. */
    method Store(fd: nat, c: FdContext)
      requires LostOk() && (fd in lost || fd < |fds|) && (c.events == NONE ==> c == FRESH)
      modifies this`fds, this`lost
      ensures LostOk() && |fds| == |old(fds)| && Ctx(fd) == c
      ensures forall g: nat :: g != fd ==> Ctx(g) == old(Ctx(g))
      ensures forall g: nat :: g in lost <==> g in old(lost) && (g == fd ==> c.events != NONE)
      ensures fd !in old(lost) ==> lost == old(lost)
    {
      if fd in lost {
        lost := if c.events == NONE then lost - {fd} else lost[fd := c];
      } else {
        fds := fds[fd := c];
      }
    }

    /** Counts the event, sets its bit and fills its context. */
    method Enter(k: Slot, w: Task)
      requires TableOk() && k.fd < |fds| && k.fd !in lost && k !in waiters
      modifies this`fds, this`lost, this`pending, this`waiters
      ensures TableOk() && View() == Register(old(View()), k, w) && lost == old(lost) && |fds| == |old(fds)|
      ensures Ctx(k.fd).events == old(Ctx(k.fd)).events.Plus(k.event)
      ensures forall g: nat :: g != k.fd ==> Ctx(g) == old(Ctx(g))
    {
      assert ContextsAgree(Ctx(k.fd), k.fd, waiters);
      AddCount(waiters, k, w);
      pending := pending + 1;
      fds := fds[k.fd := fds[k.fd].(events := fds[k.fd].events.Plus(k.event)).With(k.event, Waiting(w))];
      waiters := waiters[k := w];
      forall g: nat
        ensures ContextsAgree(Ctx(g), g, waiters)
      {
        assert ContextsAgree(old(Ctx(g)), g, old(waiters));
      }
    }

    /**
      addEvent. A waiter is registered exactly if none is yet, the context is not lost, and the system agrees; if the
      context is lost, a fresh one stands for it, and the ADD that this leads to is refused as illegal.
     */
    method AddEvent(fd: nat, e: Event, w: Task, works: bool, small: bool) returns (r: AddResult)
      requires Valid() && (if small then fd >= 32 else fd < |fds|)
      modifies this
      ensures Valid() && |fds| == if small then fd * 3 / 2 else |old(fds)|
      ensures lost == if small then old(lost) + CutOff(old(fds), fd * 3 / 2) else old(lost)
      ensures r == if fd in old(lost) then Failed
                   else if old(Slot(fd, e) in waiters) then AddAborted
                   else if works then Added else Failed
      ensures waiters == (if r == Added then old(waiters)[Slot(fd, e) := w] else old(waiters)) && queue == old(queue)
    {
      FindContext(fd, small);
      r := AddAt(fd, e, w, works);
    }

    /** The rest of addEvent, with the context found. */
    method AddAt(fd: nat, e: Event, w: Task, works: bool) returns (r: AddResult)
      requires Valid() && fd < |fds|
      modifies this
      ensures Valid() && |fds| == |old(fds)| && lost == old(lost)
      ensures r == if fd in lost then Failed
                   else if old(Slot(fd, e) in waiters) then AddAborted
                   else if works then Added else Failed
      ensures View() == if r == Added then Register(old(View()), Slot(fd, e), w) else old(View())
    {
      assert ContextsAgree(Ctx(fd), fd, waiters) && InterestAgrees(Ctx(fd).events, fd, kernel);
      if fds[fd].events.Has(e) {
        return AddAborted;
      }
      var op := if fds[fd].events != NONE then MOD else ADD;
      assert Legal(kernel, op, fd) <==> fd !in lost;
      var (kernel', ok) := EpollCtl(kernel, op, fd, fds[fd].events.Plus(e), works);
      kernel := kernel';
      if !ok {
        return Failed;
      }
      assert fds[fd].At(e) == IDLE;   // the assertion of the source
      Enter(Slot(fd, e), w);
      r := Added;
    }

    /** A descriptor whose context is in the table and has this bit set. */
    predicate Reaches(fd: nat, e: Event)
      reads this`fds
    {
      fd < |fds| && fds[fd].events.Has(e)
    }

    /** What the table reaches is what is waited for and not lost. */
    lemma ReachesIff(fd: nat, e: Event)
      requires TableOk()
      ensures Reaches(fd, e) <==> Slot(fd, e) in waiters && fd !in lost
      ensures Reaches(fd, e) ==> Ctx(fd) == fds[fd]
    {
      assert ContextsAgree(Ctx(fd), fd, waiters);
    }

    method DelEvent(fd: nat, e: Event, works: bool) returns (ok: bool)
      requires Valid()
      modifies this
      ensures Valid() && lost == old(lost)
      ensures ok <==> works && old(Slot(fd, e) in waiters) && fd !in lost
      ensures waiters == (if ok then old(waiters) - {Slot(fd, e)} else old(waiters)) && queue == old(queue)
    {
      ReachesIff(fd, e);
      if !Reaches(fd, e) {
        return false;
      }
      ok := ChangeInterest(fd, fds[fd].events.Minus(e), works);
      if !ok {
        return;
      }
      Leave(Slot(fd, e));
    }

    /** Counts the event out, clears its bit and empties its context. */
    method Leave(k: Slot)
      requires TableOk() && k in waiters
      modifies this`fds, this`lost, this`pending, this`waiters
      ensures TableOk() && |fds| == |old(fds)| && waiters == old(waiters) - {k}
      ensures Ctx(k.fd).events == old(Ctx(k.fd)).events.Minus(k.event)
      ensures forall g: nat :: g != k.fd ==> Ctx(g) == old(Ctx(g))
      ensures k.fd !in old(lost) ==> lost == old(lost)
    {
      assert ContextsAgree(Ctx(k.fd), k.fd, waiters);
      RemoveCount(waiters, k);
      pending := Decrement(pending);
      Store(k.fd, Emptied(Ctx(k.fd), k.event));
      waiters := waiters - {k};
      forall g: nat
        ensures ContextsAgree(Ctx(g), g, waiters)
      {
        assert ContextsAgree(old(Ctx(g)), g, old(waiters));
        AgreesWithout(old(Ctx(g)), g, k, old(waiters));
      }
    }

    /** epoll_ctl with the mask that is left: MOD, or DEL if nothing is left. The request is always legal. */
    method ChangeInterest(fd: nat, left: Mask, works: bool) returns (ok: bool)
      requires KernelOk() && Ctx(fd).events != NONE
      modifies this`kernel
      ensures ok == works
      ensures kernel == if !ok then old(kernel)
                        else if left == NONE then old(kernel) - {fd}
                        else old(kernel)[fd := left]
    {
      assert InterestAgrees(Ctx(fd).events, fd, kernel);
      var op := if left != NONE then MOD else DEL;
      assert Legal(kernel, op, fd);
      var (kernel', done) := EpollCtl(kernel, op, fd, left, works);
      kernel, ok := kernel', done;
    }

    /** triggerEvent and the decrement that follows it, on a context in the table or a lost one. */
    method TriggerEvent(fd: nat, e: Event)
      requires TableOk() && Ctx(fd).events.Has(e)
      modifies this`fds, this`lost, this`pending, this`waiters, this`queue
      ensures TableOk() && |fds| == |old(fds)| && View() == Trigger(old(View()), Slot(fd, e))
      ensures Ctx(fd).events == old(Ctx(fd)).events.Minus(e)
      ensures forall g: nat :: g != fd ==> Ctx(g) == old(Ctx(g))
      ensures fd !in old(lost) ==> lost == old(lost)
    {
      assert ContextsAgree(Ctx(fd), fd, waiters);
      var ctx := Ctx(fd).At(e);
      assert ctx == Waiting(waiters[Slot(fd, e)]);
      if ctx.cb.Some? {
        queue := queue + [CallbackTask(ctx.cb.value)];
      } else {
        queue := queue + [FiberTask(ctx.fiber.value)];
      }
      Leave(Slot(fd, e));
    }

    /** Only a waiter whose context is in the table can be cancelled. */
    method CancelEvent(fd: nat, e: Event, works: bool) returns (ok: bool)
      requires Valid()
      modifies this
      ensures Valid() && lost == old(lost)
      ensures ok <==> works && old(Slot(fd, e) in waiters) && fd !in lost
      ensures waiters == if ok then old(waiters) - {Slot(fd, e)} else old(waiters)
      ensures queue == old(queue) + if ok then [old(waiters)[Slot(fd, e)]] else []
    {
      ReachesIff(fd, e);
      if !Reaches(fd, e) {
        return false;
      }
      ok := ChangeInterest(fd, fds[fd].events.Minus(e), works);
      if !ok {
        return;
      }
      TriggerEvent(fd, e);
    }

    method CancelAll(fd: nat, works: bool) returns (ok: bool)
      requires Valid()
      modifies this
      ensures Valid() && lost == old(lost)
      ensures ok <==> works && old(Slot(fd, READ) in waiters || Slot(fd, WRITE) in waiters) && fd !in lost
      ensures waiters == if ok then old(waiters) - {Slot(fd, READ), Slot(fd, WRITE)} else old(waiters)
      ensures !ok ==> queue == old(queue)
      ensures ok ==> queue == old(queue) + WaiterAt(old(waiters), Slot(fd, READ))
                                         + WaiterAt(old(waiters), Slot(fd, WRITE))
    {
      ReachesIff(fd, READ);
      ReachesIff(fd, WRITE);
      if fd >= |fds| || fds[fd].events == NONE {
        return false;
      }
      ok := ChangeInterest(fd, NONE, works);
      if !ok {
        return;
      }
      TriggeredBoth(View(), fd);
      TriggerBoth(fd);
      assert Ctx(fd).events == NONE;   // the assertion of the source
    }

    method TriggerBoth(fd: nat)
      requires TableOk()
      modifies this`fds, this`lost, this`pending, this`waiters, this`queue
      ensures TableOk() && View() == TriggerMask(old(View()), fd, Mask(true, true)) && Ctx(fd).events == NONE
      ensures forall g: nat :: g != fd ==> Ctx(g) == old(Ctx(g))
      ensures fd !in old(lost) ==> lost == old(lost)
    {
      assert ContextsAgree(Ctx(fd), fd, waiters);
      if Ctx(fd).events.read {
        TriggerEvent(fd, READ);
      }
      assert ContextsAgree(Ctx(fd), fd, waiters);
      if Ctx(fd).events.write {
        TriggerEvent(fd, WRITE);
      }
    }

    /**
      One round of the delivery loop in idle; epoll hands back the context itself, lost or not. An error or a hang-up
      stands for both events. Unless one of the events is waited for, nothing happens; if the system refuses, neither.
      Otherwise the waiters of exactly these events leave and are queued, reader first; but the assertion in
      triggerEvent fires if one of the events is not waited for.
     */
    method Deliver(fd: nat, mask: set<Readiness>, works: bool) returns (r: DeliverResult)
      requires Valid()
      modifies this
      ensures var reader, writer := old(Slot(fd, READ) in waiters), old(Slot(fd, WRITE) in waiters);
              var rd := IN in mask || ERR in mask || HUP in mask;
              var wr := OUT in mask || ERR in mask || HUP in mask;
              r == if !(rd && reader) && !(wr && writer) then Skipped
                   else if !works then Refused
                   else if (rd ==> reader) && (wr ==> writer) then Delivered
                   else DeliverAborted
      ensures r != DeliverAborted ==> Valid()
      ensures r in {Skipped, Refused} ==> View() == old(View()) && lost == old(lost)
      ensures r == Delivered ==> View() == TriggerMask(old(View()), fd, RealEvents(mask))
      ensures var rd := IN in mask || ERR in mask || HUP in mask;
              var wr := OUT in mask || ERR in mask || HUP in mask;
              r == Delivered ==>
                && waiters == old(waiters) - (if rd then {Slot(fd, READ)} else {})
                                           - (if wr then {Slot(fd, WRITE)} else {})
                && queue == old(queue) + (if rd then WaiterAt(old(waiters), Slot(fd, READ)) else [])
                                       + (if wr then WaiterAt(old(waiters), Slot(fd, WRITE)) else [])
    {
      r := DeliverReal(fd, RealEvents(mask), works);
      if r == Delivered {
        TriggeredMask(old(View()), fd, RealEvents(mask));
      }
    }

    method DeliverReal(fd: nat, got: Mask, works: bool) returns (r: DeliverResult)
      requires Valid()
      modifies this
      ensures var wanted := old(Wanted(View(), fd));
              r == if !wanted.Meets(got) then Skipped
                   else if !works then Refused
                   else if got.Within(wanted) then Delivered
                   else DeliverAborted
      ensures r != DeliverAborted ==> Valid()
      ensures r in {Skipped, Refused} ==> View() == old(View()) && lost == old(lost)
      ensures r == Delivered ==> View() == TriggerMask(old(View()), fd, got)
    {
      assert ContextsAgree(Ctx(fd), fd, waiters);
      if !Ctx(fd).events.Meets(got) {
        return Skipped;
      }
      var left := Ctx(fd).events.Without(got);
      var ok := ChangeInterest(fd, left, works);
      if !ok {
        return Refused;
      }
      ok := TriggerIf(fd, READ, got.read);
      if !ok {
        return DeliverAborted;
      }
      ok := TriggerIf(fd, WRITE, got.write);
      r := if ok then Delivered else DeliverAborted;
    }

    /** triggerEvent for an event that is due; false if the assertion at its head fires. */
    method TriggerIf(fd: nat, e: Event, due: bool) returns (ok: bool)
      requires TableOk()
      modifies this`fds, this`lost, this`pending, this`waiters, this`queue
      ensures TableOk() && ok == (due ==> old(Ctx(fd).events.Has(e)))
      ensures View() == if due then Trigger(old(View()), Slot(fd, e)) else old(View())
      ensures Ctx(fd).events == if due then old(Ctx(fd)).events.Minus(e) else old(Ctx(fd)).events
      ensures forall g: nat :: g != fd ==> Ctx(g) == old(Ctx(g))
    {
      assert ContextsAgree(Ctx(fd), fd, waiters);
      ok := true;
      if due {
        if Ctx(fd).events.Has(e) {
          TriggerEvent(fd, e);
        } else {
          ok := false;
        }
      }
    }
  }

  /** One entry of what epoll_wait returned: the wake-up pipe, or a descriptor; `works`: epoll_ctl agrees. */
  datatype Ready = Tickle | OnFd(fd: nat, mask: set<Readiness>, works: bool)

  /** epoll reports each descriptor once. */
  ghost predicate Distinct(batch: seq<Ready>) {
    forall i, j :: 0 <= i < j < |batch| && batch[i].OnFd? && batch[j].OnFd? ==> batch[i].fd != batch[j].fd
  }

  /** What is reported meets what is wanted without being among it, and the interest set can be changed. */
  predicate TooWide(t: Table, ready: Ready) {
    && ready.OnFd? && ready.works && Wanted(t, ready.fd).Meets(RealEvents(ready.mask))
    && !RealEvents(ready.mask).Within(Wanted(t, ready.fd))
  }

  /** What the rest of the batch is about has not been touched. */
  ghost predicate Untouched(t: Table, t': Table, batch: seq<Ready>, from: nat) {
    forall j :: from <= j < |batch| && batch[j].OnFd? ==> Wanted(t', batch[j].fd) == Wanted(t, batch[j].fd)
  }

  lemma UntouchedAfter(t: Table, t1: Table, t2: Table, batch: seq<Ready>, i: nat)
    requires i < |batch| && Distinct(batch) && Untouched(t, t1, batch, i)
    requires forall g: nat :: !(batch[i].OnFd? && batch[i].fd == g) ==> Wanted(t2, g) == Wanted(t1, g)
    ensures Untouched(t, t2, batch, i + 1)
  {
  }

  lemma OthersWait(t: Table, fd: nat, m: Mask)
    ensures forall g: nat :: g != fd ==> Wanted(TriggerMask(t, fd, m), g) == Wanted(t, g)
  {
  }

  method DeliverOne(io: IoManager, ready: Ready) returns (aborted: bool)
    requires io.Valid()
    modifies io
    ensures aborted <==> TooWide(old(io.View()), ready)
    ensures !aborted ==> io.Valid() && Handed(old(io.View()), io.View())
    ensures !aborted ==> forall g: nat :: !(ready.OnFd? && ready.fd == g) ==>
                           Wanted(io.View(), g) == old(Wanted(io.View(), g))
  {
    aborted := false;
    if ready.OnFd? {
      TriggerMaskHands(io.View(), ready.fd, RealEvents(ready.mask));
      OthersWait(io.View(), ready.fd, RealEvents(ready.mask));
      var r := io.Deliver(ready.fd, ready.mask, ready.works);
      aborted := r == DeliverAborted;
    }
  }

  /**
    The delivery loop of idle: unless an assertion fires, every waiter stays as it was or is queued exactly once; and
    one fires exactly if, for some entry, the events meet those wanted at the outset without being among them.
   */
  method DeliverAll(io: IoManager, batch: seq<Ready>) returns (aborted: bool)
    requires io.Valid()
    modifies io
    ensures !aborted ==> io.Valid() && Handed(old(io.View()), io.View())
    ensures Distinct(batch) ==>
              (aborted <==> exists i :: 0 <= i < |batch| && TooWide(old(io.View()), batch[i]))
  {
    ghost var t := io.View();
    for i := 0 to |batch|
      invariant io.Valid() && Handed(t, io.View())
      invariant Distinct(batch) ==> Untouched(t, io.View(), batch, i)
      invariant Distinct(batch) ==> forall j :: 0 <= j < i ==> !TooWide(t, batch[j])
    {
      ghost var t1 := io.View();
      aborted := DeliverOne(io, batch[i]);
      assert Distinct(batch) ==> (TooWide(t1, batch[i]) <==> TooWide(t, batch[i]));
      if aborted {
        return;
      }
      HandedTwice(t, t1, io.View());
      if Distinct(batch) {
        UntouchedAfter(t, t1, io.View(), batch, i);
      }
    }
    aborted := false;
  }

  /** An error on a descriptor that only a reader waits for aborts the process. */
  lemma WideningAborts(t: Table, fd: nat)
    requires Wanted(t, fd) == Mask(true, false)
    ensures Wanted(t, fd).Meets(RealEvents({ERR})) && !RealEvents({ERR}).Within(Wanted(t, fd))
  {
  }

  // ----- resizing

  /** vector::resize, then a fresh context in every empty place. */
  function Resized(fds: seq<FdContext>, size: nat): seq<FdContext> {
    if size <= |fds| then fds[..size] else fds + seq(size - |fds|, i => FRESH)
  }

  /** A resize loses a context exactly if it lies at or below a descriptor that is waited for and not lost yet. */
  lemma CutsOffIff(io: IoManager, size: nat)
    requires io.TableOk()
    ensures CutOff(io.fds, size) == map[] <==>
            forall k :: k in io.waiters && k.fd !in io.lost ==> k.fd < size
  {
    if CutOff(io.fds, size) == map[] {
      forall k | k in io.waiters && k.fd !in io.lost
        ensures k.fd < size
      {
        io.ReachesIff(k.fd, k.event);
        assert k.fd !in CutOff(io.fds, size);
      }
    } else {
      var n :| n in CutOff(io.fds, size);
      var e := if io.fds[n].events.read then READ else WRITE;
      io.ReachesIff(n, e);
      assert Slot(n, e) in io.waiters;
    }
  }

  /**
    A thread finds 32 contexts too few for descriptor 100; before it gets the write lock, another registers a reader
    for descriptor 300. The late resize cuts the table to 150.
   */
  method LateResize() returns (io: IoManager)
    ensures fresh(io) && io.Valid() && |io.fds| == 150 && io.lost.Keys == {300} && io.queue == []
    ensures io.waiters == map[Slot(300, READ) := FiberTask(0), Slot(100, READ) := FiberTask(1)]
  {
    io := new IoManager();
    var small := |io.fds| <= 100;
    var r := io.AddEvent(300, READ, FiberTask(0), true, |io.fds| <= 300);
    OnlyReader(io, 300);
    r := io.AddEvent(100, READ, FiberTask(1), true, small);
  }

  lemma OnlyReader(io: IoManager, fd: nat)
    requires io.TableOk() && io.lost == map[] && io.waiters.Keys == {Slot(fd, READ)}
    ensures forall size: nat :: size <= fd ==> CutOff(io.fds, size).Keys == {fd}
  {
    forall n: nat | n < |io.fds|
      ensures io.fds[n].events != NONE <==> n == fd
    {
      io.ReachesIff(n, READ);
      io.ReachesIff(n, WRITE);
    }
    io.ReachesIff(fd, READ);
  }

  /** The lost reader is counted and in the interest set, but cannot be cancelled, and no writer can join it. */
  method LateResizeLosesReader() returns (cancelled: bool, r: AddResult, pending: nat)
    ensures !cancelled && r == Failed && pending == 2
  {
    var io := LateResize();
    cancelled := io.CancelEvent(300, READ, true);
    r := io.AddEvent(300, WRITE, FiberTask(2), true, |io.fds| <= 300);
    pending := io.pending;
    assert io.waiters.Keys == {Slot(300, READ), Slot(100, READ)};
  }

  /** Readiness still reaches it, and with that the descriptor is as good as new. */
  method LostReaderIsDelivered() returns (d: DeliverResult, queue: seq<Task>, r: AddResult)
    ensures d == Delivered && queue == [FiberTask(0)] && r == Added
  {
    var io := LateResize();
    d := io.Deliver(300, {IN}, true);
    queue := io.queue;
    NoneLost(io, 300);
    r := io.AddEvent(300, WRITE, FiberTask(2), true, |io.fds| <= 300);
  }

  lemma NoneLost(io: IoManager, fd: nat)
    requires io.TableOk() && Wanted(io.View(), fd) == NONE
    ensures fd !in io.lost
  {
    assert ContextsAgree(io.Ctx(fd), fd, io.waiters);
  }
}
