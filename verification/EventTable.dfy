/** Who waits for which event, and what has been handed to the scheduler: the meaning of the event table. */
module EventTable {
  datatype Event = READ | WRITE

  /** A bit mask of events. */
  datatype Mask = Mask(read: bool, write: bool)
  {
    predicate Has(e: Event) { if e == READ then read else write }
    function Plus(e: Event): Mask { if e == READ then Mask(true, write) else Mask(read, true) }
    function Minus(e: Event): Mask { if e == READ then Mask(false, write) else Mask(read, false) }
    function Without(m: Mask): Mask { Mask(read && !m.read, write && !m.write) }
    predicate Meets(m: Mask) { (read && m.read) || (write && m.write) }
    predicate Within(m: Mask) { (read ==> m.read) && (write ==> m.write) }
  }

  const NONE := Mask(false, false)

  /** What to run when the event arrives. */
  datatype Task = FiberTask(fiber: nat) | CallbackTask(cb: nat)

  datatype Slot = Slot(fd: nat, event: Event)

  datatype Table = Table(waiters: map<Slot, Task>, queue: seq<Task>)

  function Register(t: Table, k: Slot, w: Task): Table {
    t.(waiters := t.waiters[k := w])
  }

  /** The waiter of slot k, if any, goes to the end of the queue. */
  function Trigger(t: Table, k: Slot): Table {
    if k in t.waiters then Table(t.waiters - {k}, t.queue + [t.waiters[k]]) else t
  }

  /** The waiters of one descriptor, reader first. */
  function TriggerMask(t: Table, fd: nat, events: Mask): Table {
    var t1 := if events.read then Trigger(t, Slot(fd, READ)) else t;
    if events.write then Trigger(t1, Slot(fd, WRITE)) else t1
  }

  /** The events someone waits for on a descriptor. */
  function Wanted(t: Table, fd: nat): Mask {
    Mask(Slot(fd, READ) in t.waiters, Slot(fd, WRITE) in t.waiters)
  }

  /** Waiters only leave, and each that leaves has been queued once, behind what was queued before. */
  ghost predicate Handed(t: Table, t': Table) {
    && t'.waiters.Items <= t.waiters.Items
    && t.queue <= t'.queue
    && |t'.waiters| + |t'.queue| == |t.waiters| + |t.queue|
    && forall k :: k in t.waiters && k !in t'.waiters ==> t.waiters[k] in t'.queue[|t.queue|..]
  }

  lemma HandedTwice(t: Table, t1: Table, t2: Table)
    requires Handed(t, t1) && Handed(t1, t2)
    ensures Handed(t, t2)
  {
    forall k | k in t.waiters && k !in t2.waiters
      ensures t.waiters[k] in t2.queue[|t.queue|..]
    {
      var w := t.waiters[k];
      if k in t1.waiters {
        assert (k, t1.waiters[k]) in t1.waiters.Items;
        assert w in t2.queue[|t1.queue|..];
        var i :| 0 <= i < |t2.queue| - |t1.queue| && t2.queue[|t1.queue|..][i] == w;
        assert t2.queue[|t.queue|..][i + |t1.queue| - |t.queue|] == w;
      } else {
        var i :| 0 <= i < |t1.queue| - |t.queue| && t1.queue[|t.queue|..][i] == w;
        assert t2.queue[|t.queue|..][i] == w;
      }
    }
  }

  lemma TriggerHands(t: Table, k: Slot)
    ensures Handed(t, Trigger(t, k))
  {
    if k in t.waiters {
      RemoveCount(t.waiters, k);
      assert Trigger(t, k).queue[|t.queue|..] == [t.waiters[k]];
    }
  }

  lemma TriggerMaskHands(t: Table, fd: nat, m: Mask)
    ensures Handed(t, TriggerMask(t, fd, m))
  {
    var t1 := if m.read then Trigger(t, Slot(fd, READ)) else t;
    TriggerHands(t, Slot(fd, READ));
    TriggerHands(t1, Slot(fd, WRITE));
    HandedTwice(t, t1, TriggerMask(t, fd, m));
  }

  lemma RemoveCount<K, V>(m: map<K, V>, k: K)
    requires k in m
    ensures |m - {k}| == |m| - 1
  {
    assert (m - {k}).Keys == m.Keys - {k};
  }

  lemma AddCount<K, V>(m: map<K, V>, k: K, v: V)
    requires k !in m
    ensures |m[k := v]| == |m| + 1
  {
    assert m[k := v].Keys == m.Keys + {k};
  }
}
