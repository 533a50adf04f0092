# A verified model of the lyslg server framework

lyslg is a C++ server framework: fibers scheduled over threads, timers, an epoll event loop, hooked blocking calls,
a chunked byte buffer with a serializer, WebSocket framing, URL and query parsing, IP address arithmetic. This
project models the parts of it that keep state in step or convert data back and forth, and proves what those parts
promise. Objects that the source updates in place are classes here; every method is proved against a specification
on values, and the properties are proved about that specification over all inputs, runs or interleavings.

| part | files |
|---|---|
| numbers and bytes | `Common.dfy`, `Bits.dfy`, `Codec.dfy` |
| byte buffer | `FlatBuffer.dfy` (the flat picture), `ByteArray.dfy` (the chunk list), `SocketStream.dfy`, `Serialization.dfy` |
| timers | `Timers.dfy` (meaning, runs), `TimerManager.dfy` (the ordered set), `Rollover.dfy` (a clock that is set back) |
| events | `EventTable.dfy` (who waits), `IoManager.dfy` (bits, contexts, counter, interest set), `DoIo.dfy` (wait with timeout), `StaleTimeout.dfy` (callbacks of earlier attempts) |
| scheduler | `Scheduling.dfy` (steps of N threads), `Bookkeeping.dfy` (what goes wrong, and when), `Scheduler.dfy` (the object), `Quiescence.dfy` (when all may stop) |
| WebSocket | `WebSocketFrames.dfy` (the format), `WebSocket.dfy` (the transfers) |
| HTTP and addresses | `Url.dfy`, `Query.dfy`, `Ipv6.dfy` |

## What the proofs show

- **Byte buffer.** A run of write, read, seek and clear on the linked chunks is a run on one flat memory. It is the
  same run on a plain growable vector exactly if no read of zero bytes comes with the cursor behind the last chunk
  and no seek goes past the data into allocated memory. The list length, the cursor node, the position and the size
  stay in step across every chunk boundary. Scatter/gather lists name each byte of the range exactly once, so
  receiving into them is the same as a write.
- **Serialization.** Any list of items written in order reads back as it was, ending where it ended, with one
  exception, proved exact: if the list ends in an empty text at the end of a chunk, not before the old capacity, the
  read of zero bytes dereferences the null cursor. A text comes back exactly if its length fits the length field.
- **Timers.** The set stays strictly sorted over changing keys, a timer is in it iff it has a callback, expiry hands
  over exactly the due callbacks in deadline order. In every run a timer fires exactly if its period has passed since
  it was last added, refreshed, reset from now, or fired, or on a rollover (`FiresAfterPeriodIff`). While the clock
  never goes back no wake-up is lost in any run.
  When the clock is set back, compared in elapsed time, promises made before still hold through any rollover, as long
  as the clock does not gain on the time that passes and a rollover is noticed with a reading that is not stale. A
  wait asked for afterwards can be too long, and a timer reset from its arm time can be missed:
  `SetBackGetNextExpireIff`, `RefreshAfterGetNextIff`, `ExpireKeepsPromiseIff` and `ResetKeepsIff` say exactly when.
  idle caps every sleep at 3000 ms, which bounds the delay.
- **Events.** In every reachable state counter, bits, contexts and the kernel's set agree. addEvent can lose a
  context: having seen the table too small, it resizes it although another thread has meanwhile grown it for a
  descriptor at or above one and a half times its own. The lost context is still counted and delivered to, but it
  cannot be cancelled, and addEvent asks for an ADD that is illegal. All other requests are legal. The source's
  assertions hold, with two exceptions, proved exact: addEvent aborts on an event that is registered already (in the
  do_io model that step is excluded), and an error or hang-up widens the delivered events beyond what is registered,
  so that the assertion in triggerEvent aborts.
- **do_io.** Over all interleavings each registered wait is consumed exactly once and its fiber queued at most once;
  a resumed call reports a timeout exactly if a timer callback of that very call has run; the reference count of timer_info is positive
  exactly while the call is in progress, so a leftover callback changes nothing. The timeout can be lost (if a
  callback of the call has run before, `TimeoutPossibleIff`) and can come early (if the call went on while the
  callback of an earlier attempt was queued, `CallbackIsCurrentIff`).
- **Scheduler.** Over all interleavings of N threads no entry is lost or taken twice, pins are honoured, the counters
  are right, and stopping() is true only when nothing is queued, held or running. A fiber that has ended stays ended
  and is never run again, even if it is submitted (`EndedForGood`). No fiber runs on two threads and no
  state assertion fails as long as no fiber is submitted while queued or dequeued, a fiber submitted while executing
  does not also yield READY or, as a callback fiber, end, a kept callback fiber is not submitted after its callback
  has ended, and the bookkeeping after a yield is atomic with it. For each of these provisos the exact condition is
  proved (`SubmitSafeIff`, `FinishSafeIff`, `SettleSafeIff`) and a run shows the assertion that fails, or the fiber on
  two threads, without it.
- **WebSocket.** Any fragmentation with pings and pongs in between arrives as the joined message in the opposite
  role exactly if no fragment is empty and the total stays below the limit. Every byte of a frame is given by value.
- **URL, query, IPv6.** Decoding undoes encoding exactly unless a space was written as `+` and `+` is not read back;
  the query parser yields the first-wins, case-insensitive map; the byte loops compute 128-bit arithmetic.

Where the code and its comments differ, the model follows the code: `=` counts as unreserved although the comment
above UrlEncode (lyslg/util.cc:409) leaves it out.

## Model

| member | source | states |
|---|---|---|
| FlatBuffers.SpliceTwice | lyslg/bytearray.cc:360-395 | two adjacent writes change the memory as one write of the joined bytes |
| FlatBuffers.SpliceAt | lyslg/bytearray.cc:360-395 | byte by byte: a write replaces the bytes of its range and no other |
| FlatBuffers.RunsStaySound | lyslg/bytearray.cc:347-475 | over every run of write, read, seek and clear: position <= size <= capacity, and the capacity stays a positive multiple of the chunk size |
| FlatBuffers.StepStaysSound | lyslg/bytearray.cc:347-475 | one operation keeps that |
| FlatBuffers.WriteSeen | lyslg/bytearray.cc:360-395 | a write is the write on a plain vector: it replaces the bytes from the position on and extends the data past its end |
| FlatBuffers.StepSeen | lyslg/bytearray.cc:347-475 | an operation on the flat buffer answers as on a vector of the data, and leaves the same data and position, exactly unless it is a read of nothing at the capacity or a seek past the data into allocated memory |
| FlatBuffers.RunRefinesVector | lyslg/bytearray.cc:347-475 | the answers of a whole run are those of the vector exactly if every operation agrees where it is carried out; then the final data and position agree too |
| FlatBuffers.SeekPastDataDiffers | lyslg/bytearray.cc:458-465 | two bytes written and a seek to four: bytes appear that nobody wrote |
| FlatBuffers.WriteThenRead | lyslg/bytearray.cc:360-423 | after a write, seeking back and reading as many bytes returns them, and leaves the state the write left |
| FlatBuffers.EndsAtCapacityIff | lyslg/bytearray.cc:519-551 | writing ends at the capacity exactly if it ends with a chunk, not before the old capacity |
| ByteArrays.CeilDivBounds | lyslg/bytearray.cc:524-531 | the number of chunks added holds the missing bytes with less than a chunk to spare |
| ByteArrays.FlattenStore | lyslg/bytearray.cc:368-390 | copying into one chunk changes exactly that range of the flat memory |
| ByteArrays.ByteArray.constructor | lyslg/bytearray.cc:31-39 | a new buffer is one empty chunk, network byte order, with the cursor on it |
| ByteArrays.ByteArray.CursorAt | lyslg/bytearray.cc:458-475 | the cursor is chunk number position / base, and null exactly at the capacity |
| ByteArrays.ByteArray.Append | lyslg/bytearray.cc:539-546 | one more chunk at the end of the list; what was there is unchanged |
| ByteArrays.ByteArray.FindLast | lyslg/bytearray.cc:533-536 | walking the list ends at its last chunk |
| ByteArrays.ByteArray.Extend | lyslg/bytearray.cc:538-546 | adds exactly `count` chunks and reports the first |
| ByteArrays.ByteArray.AddCapacity | lyslg/bytearray.cc:519-551 | afterwards n bytes are free, fewer than n + base if it grew at all; data, position and size are kept and a null cursor moves to the first new chunk |
| ByteArrays.ByteArray.Pass | lyslg/bytearray.cc:368-390 | moving on by one piece keeps the cursor on the chunk of the position |
| ByteArrays.ByteArray.PutSome | lyslg/bytearray.cc:368-390 | one round of the write loop copies as many bytes as this chunk takes |
| ByteArrays.ByteArray.CopyIn | lyslg/bytearray.cc:364-391 | the loop across chunks changes exactly the bytes of [pos, pos + n) |
| ByteArrays.ByteArray.Write | lyslg/bytearray.cc:360-395 | growth, then exactly the bytes of [pos, pos + n) change, position + n, size raised to the position; every invariant is kept |
| ByteArrays.ByteArray.GetSome | lyslg/bytearray.cc:402-422 | one round of the read loop returns the next bytes of the flat memory |
| ByteArrays.ByteArray.CopyOut | lyslg/bytearray.cc:401-422 | the loop across chunks returns the flat range [pos, pos + n) |
| ByteArrays.ByteArray.Read | lyslg/bytearray.cc:396-423 | too many bytes: an exception and no change; zero bytes at the capacity: the null cursor is dereferenced; otherwise the flat range, and the position moves |
| ByteArrays.ByteArray.Seek | lyslg/bytearray.cc:466-474 | the walk from the root finds the chunk of the position, null at the capacity |
| ByteArrays.ByteArray.SetPosition | lyslg/bytearray.cc:458-475 | refused beyond the capacity; otherwise the position moves, the size is raised to it, and the cursor follows |
| ByteArrays.ByteArray.Clear | lyslg/bytearray.cc:347-358 | one chunk is left, position and size are zero |
| ByteArrays.ByteArray.CollectBuffers | lyslg/bytearray.cc:589-609 | the pieces listed cover [pos, pos + len) in order, inside the chunks |
| ByteArrays.ByteArray.GetReadBuffers | lyslg/bytearray.cc:583-611 | the list covers the readable part of [pos, pos + len) |
| ByteArrays.ByteArray.GetWriteBuffers | lyslg/bytearray.cc:657-685 | after growth the list covers [pos, pos + len) |
| ByteArrays.ByteArray.Perform | lyslg/bytearray.cc:347-475 | each operation on the linked chunks is a step of the flat buffer |
| ByteArrays.ByteArray.PerformAll | lyslg/bytearray.cc:347-475 | every sequence of operations is a run of the flat buffer |
| ByteArrays.CoversOnce | lyslg/bytearray.cc:583-611 | no gap and no overlap: each byte of the range lies in one buffer, no other byte in any |
| ByteArrays.GatherIsSlice | lyslg/bytearray.cc:583-611 | what the buffers hold, in order, is the flat range |
| SocketStreams.Fill | lyslg/socket_stream.cc:33-35 | filling the buffers front to back changes exactly the first bytes of the range |
| SocketStreams.SocketStream.Read | lyslg/socket_stream.cc:29-40 | -1 if not connected or recv fails, with room made in the second case; otherwise the bytes received lie at the old position and the position has moved past them |
| SocketStreams.SocketStream.Write | lyslg/socket_stream.cc:48-59 | -1 and no change if not connected or send fails; otherwise the bytes sent are the next bytes of the data, and the position has moved past them |
| SocketStreams.RecvIsWrite | lyslg/socket_stream.cc:29-40 | receiving into the buffer list and committing with setPosition equals writing the received bytes |
| Codec.ByteOrder | lyslg/bytearray.cc:70-105 | fixed-width bytes follow the selected byte order whatever the host's |
| Codec.ByteOrderRead | lyslg/bytearray.cc:234-261 | the same for reading |
| Codec.ByteValue | lyslg/bytearray.cc:64-105 | byte i of a w-byte word v is v / 256^(w - 1 - i) mod 256 in big-endian order, v / 256^i mod 256 in little-endian |
| Codec.FixedRoundTrip | lyslg/bytearray.cc:64-261 | a fixed-width value comes back, for every width, order and host |
| Codec.SignedRoundTrip | lyslg/bytearray.cc:64-100 | the two's-complement conversions of the signed widths are inverse |
| Codec.ZigzagOrder | lyslg/bytearray.cc:113-136 | zigzag maps 0, -1, 1, -2, ... to 0, 1, 2, 3, ...: small magnitudes stay small, the minimum included |
| Codec.DecodeZigzagValue | lyslg/bytearray.cc:137-143 | the shift-and-xor decoder computes half the value, or its complement when odd |
| Codec.ZigzagRoundTrip | lyslg/bytearray.cc:113-143 | decoding undoes encoding for every n-bit value |
| Codec.ZigzagInverse | lyslg/bytearray.cc:113-143 | and encoding undoes decoding |
| Codec.VarintLength | lyslg/bytearray.cc:148-184 | a varint takes max(1, ceil(bits / 7)) bytes |
| Codec.VarintDigit | lyslg/bytearray.cc:148-184 | byte k of a varint is its k-th group of seven bits, with the high bit unless it is the last |
| Codec.VarintFits | lyslg/bytearray.cc:148-184 | at most 5 bytes for 32 bits and 10 for 64: the temporary array never overflows |
| Codec.VarintRoundTrip | lyslg/bytearray.cc:148-300 | the reader's shifts and ors return the value and use exactly its bytes, whatever follows |
| Codec.VarintOfAnyBytes | lyslg/bytearray.cc:269-300 | on any bytes: the reader stops at the first byte without the high bit, or after as many as the word needs, and returns the number of the groups read cut to the word; data run out exactly short of that |
| Bits.AndBits | lyslg/bytearray.cc:269-300 | bit k of the and of two numbers is set exactly if it is in both |
| Bits.OrBits | lyslg/bytearray.cc:269-300 | bit k of the or is set exactly if it is in one of them |
| Bits.XorBits | lyslg/bytearray.cc:113-143 | bit k of the exclusive or is set exactly if the two differ there |
| Serialization.VarintBytes | lyslg/bytearray.cc:148-184 | the loop produces the base-128 code, and its array index stays in bounds |
| Serialization.WriteVarint | lyslg/bytearray.cc:148-184 | the base-128 code of the value is written at the position |
| Serialization.WriteFixed | lyslg/bytearray.cc:64-105 | writes the value's bytes in the selected order at the position |
| Serialization.ReadFixed | lyslg/bytearray.cc:222-261 | returns the value of the next bytes in the selected order, or throws and leaves the position |
| Serialization.ReadByte | lyslg/bytearray.cc:228-232 | the next byte, or an exception at the end of the data |
| Serialization.ReadVarint | lyslg/bytearray.cc:269-300 | the loop decodes the next varint; running out of data throws |
| Serialization.WriteText | lyslg/bytearray.cc:197-210 | the length in the chosen width (cut to it) and then the text |
| Serialization.ReadText | lyslg/bytearray.cc:315-337 | the text announced by the length field; it crashes exactly on an announced empty text at the capacity |
| Serialization.WriteItem | lyslg/bytearray.cc:64-210 | an item's code is written at the position |
| Serialization.ReadItem | lyslg/bytearray.cc:222-337 | an item is read as its code says, with the exact crash condition |
| Serialization.TextComesBackIff | lyslg/bytearray.cc:197-337 | a text comes back exactly if its length fits its length field |
| Serialization.FixedCode | lyslg/bytearray.cc:64-105 | the bytes of a fixed-width number, signed or not, by value: two's complement in the selected order |
| Serialization.VarintCode | lyslg/bytearray.cc:113-184 | the bytes of a varint item by value: of v itself, or of 2v, or -2v - 1 if negative, for zigzag |
| Serialization.TextCode | lyslg/bytearray.cc:197-210 | the bytes of a text item by value: its length in the selected order, then the text |
| Serialization.DecodeEncode | lyslg/bytearray.cc:64-337 | every item's code decodes to the item and is used up exactly, whatever follows |
| Serialization.WriteItems | lyslg/bytearray.cc:64-210 | a list of items is written as the concatenation of their codes |
| Serialization.ReadItems | lyslg/bytearray.cc:222-337 | reading by kinds returns the items and ends behind the last code |
| Serialization.RoundTrip | lyslg/bytearray.cc:64-337 | write a list, seek back, read it: the same list and the same end position, except exactly when it ends in an empty text, at the end of a chunk and not before the old capacity |
| Timers.ComparatorIsStrictOrder | lyslg/timer.cc:77-99 | the comparator is a strict total order, null pointers included |
| Timers.AddKeeps | lyslg/timer.cc:196-211 | inserting and tickling if at the front keeps the promise made to the poller |
| Timers.StepKeepsInv | lyslg/timer.cc:21-211 | while the clock does not go back every operation keeps: deadline = past arm time + period, and a wake-up was issued or the promised one is early enough |
| Timers.GetNextPromises | lyslg/timer.cc:131-147 | the wait returned is a promise that covers every pending deadline |
| Timers.NoLostWakeup | lyslg/timer.cc:21-211 | over every run with a non-decreasing clock and no rollover no wake-up is lost; refresh and recurring re-insertion, which never tickle, included |
| Timers.RolloverIff | lyslg/timer.cc:215-222 | a rollover is a clock set back by more than an hour, or at all within the first hour of the epoch |
| Timers.DeadlineFromLastArming | lyslg/timer.cc:21-211 | over every run, whatever the clock does: the deadline of a timer is its period after the reading it was last added, refreshed, reset from now or fired with |
| Timers.FiresAfterPeriodIff | lyslg/timer.cc:21-211 | over every run: expiry fires a pending timer exactly if its period has passed since that reading, or on a rollover |
| Rollovers.StepKeepsInv | lyslg/timer.cc:21-211 | in elapsed time, setting the clock back and a rollover included, every guarded operation keeps the sleeping poller in time for every deadline and for every timer armed again |
| Rollovers.RolloverKeepsPromises | lyslg/timer.cc:149-194 | over every guarded run, with any number of set-backs and rollovers, the poller is woken or up in time: a rollover keeps every promise made before it |
| Rollovers.ForwardIsGuarded | lyslg/timer.cc:21-211 | while the clock never goes back, nor gains on the time that passes, every operation is guarded |
| Rollovers.SleepWithin | lyslg/iomanager.cc:308-319 | the sleep idle takes from getNextTimer, at most 3000 ms, is over within a period exactly if a pending deadline or the longest sleep is |
| Rollovers.RefreshAfterGetNextIff | lyslg/timer.cc:31-48 | after getNextTimer any timer can be refreshed in time exactly if for every pending period some deadline, or the longest sleep, lies within it |
| Rollovers.SetBackGetNextExpireIff | lyslg/timer.cc:131-194 | clock set back, getNextTimer, then expiry with rollover: the poller is in time exactly if that holds for every recurring timer |
| Rollovers.ExpireKeepsPromiseIff | lyslg/timer.cc:149-194 | expiry at any reading of the clock keeps the poller in time exactly if it is up for each timer armed again |
| Rollovers.ResetKeepsIff | lyslg/timer.cc:50-74 | a reset from the arm time keeps the invariant exactly if the poller has been woken, or is up within the new period, or the timer comes before every other pending one |
| Rollovers.SetBackOversleeps | lyslg/timer.cc:131-222 | a run: a period of 100 is armed again by a rollover while the poller sleeps for 3000 |
| Rollovers.ResetOversleeps | lyslg/timer.cc:31-74 | a run: a reset from an arm time the clock has not reached wakes nobody, and the refresh after it is overslept |
| Rollovers.GainOversleeps | lyslg/timer.cc:131-147 | a run: a clock that gains on the time that passes reaches a deadline while the poller sleeps |
| TimerManagers.LowerBound | lyslg/timer.cc:174 | the place that splits the smaller keys from the others |
| TimerManagers.TimerManager.constructor | lyslg/timer.cc:102-104 | a new manager holds no timer and remembers the time |
| TimerManagers.TimerManager.Find | lyslg/timer.cc:25-36 | finds a timer exactly if it is in the set |
| TimerManagers.TimerManager.Insert | lyslg/timer.cc:201-202 | the set stays sorted and gains this timer; the place says whether it is in front |
| TimerManagers.TimerManager.Erase | lyslg/timer.cc:44-62 | the set stays sorted and loses this timer |
| TimerManagers.TimerManager.AddTimer | lyslg/timer.cc:110-116 | the timer is pending; the poller is woken iff deadline, then address, come before those of all other pending timers and it has not been woken since |
| TimerManagers.TimerManager.Cancel | lyslg/timer.cc:21-30 | true iff it was pending; then it loses its callback and nothing else changes; never erases end() |
| TimerManagers.TimerManager.Refresh | lyslg/timer.cc:31-48 | true iff pending; then its deadline is now plus its period and nothing else changes; the not-found branch is dead |
| TimerManagers.TimerManager.Reset | lyslg/timer.cc:50-74 | a pending timer reset from now gets the period and the deadline now plus the period; otherwise its deadline moves by the difference of the periods; no other timer changes; the poller is woken if it comes first; an unchanged period from the arm time answers true without looking |
| TimerManagers.TimerManager.GetNextTimer | lyslg/timer.cc:131-147 | the time to the least pending deadline, 0 if it is past, none without timers; clears the flag |
| TimerManagers.TimerManager.CountDue | lyslg/timer.cc:165-177 | how many timers at the front are due: those with deadline <= now, all on rollover |
| TimerManagers.TimerManager.Fire | lyslg/timer.cc:183-192 | the callbacks in order; recurring timers re-armed at now + period, the others finished |
| TimerManagers.TimerManager.ListExpiredCb | lyslg/timer.cc:149-194 | returns, once each and in deadline order, the callbacks of exactly the pending timers with deadline <= now, or of all on rollover; the recurring ones are due again at now plus their period, the others are finished, no other timer changes; reads the front of an empty set exactly if the set was emptied between its two locks and there is no rollover |
| TimerManagers.EmptiedBetweenLocks | lyslg/timer.cc:153-161 | a run: the only timer is cancelled between the two locks, and the front of the empty set is read |
| TimerManagers.TimerManager.Perform | lyslg/timer.cc:21-211 | every operation on the ordered set is an enabled step of the runs in Timers |
| EventTable.HandedTwice | lyslg/iomanager.cc:335-394 | handing over waiters in several deliveries still queues each once |
| EventTable.TriggerHands | lyslg/iomanager.cc:34-45 | a waiter leaves the table and enters the queue once |
| EventTable.TriggerMaskHands | lyslg/iomanager.cc:226-263 | the same for all waiters of a descriptor |
| IoManagers.IoManager.constructor | lyslg/iomanager.cc:49-75 | starts with 32 contexts, nothing registered |
| IoManagers.IoManager.ContextResize | lyslg/iomanager.cc:90-100 | the table is cut or filled up with fresh contexts |
| IoManagers.IoManager.FindContext | lyslg/iomanager.cc:104-114 | the size seen under the read lock decides; a late resize loses exactly the contexts with bits set that it cuts off, and all agreements hold, lost contexts included |
| IoManagers.IoManager.Store | lyslg/iomanager.cc:34-45 | assigning a context, in the table or lost, changes no other descriptor's |
| IoManagers.IoManager.Enter | lyslg/iomanager.cc:137-152 | counts the event, sets the bit and fills the context of this waiter only |
| IoManagers.IoManager.AddAt | lyslg/iomanager.cc:116-152 | with the context found, aborts iff the event is registered there, fails if the context of the descriptor is lost, and otherwise registers the waiter iff the system agrees; the request is legal exactly if the context is not lost |
| IoManagers.IoManager.AddEvent | lyslg/iomanager.cc:103-153 | the two together, from any reachable table: the result, the one new waiter, an unchanged queue, and exactly which contexts a resize loses |
| IoManagers.IoManager.DelEvent | lyslg/iomanager.cc:155-188 | true iff somebody waited, the context is not lost and the system agreed; forgets the waiter without running it |
| IoManagers.IoManager.Leave | lyslg/iomanager.cc:183-187 | counts the event out, clears its bit and context, and those only |
| IoManagers.IoManager.ChangeInterest | lyslg/iomanager.cc:169-184 | the epoll_ctl request is legal and leaves exactly the remaining bits, or no entry |
| IoManagers.IoManager.TriggerEvent | lyslg/iomanager.cc:34-45 | the waiter's fiber or callback is queued, its bit and context are cleared, the counter goes down |
| IoManagers.IoManager.CancelEvent | lyslg/iomanager.cc:190-224 | true iff somebody waited, the context is not lost and the system agreed; then that waiter leaves and goes to the end of the queue |
| IoManagers.IoManager.CancelAll | lyslg/iomanager.cc:226-263 | true iff somebody waited, the context is not lost and the system agreed; then both waiters leave and are queued, reader first; the assertion at its end holds |
| IoManagers.IoManager.Deliver | lyslg/iomanager.cc:351-394 | on a context in the table or a lost one, by the bits reported: READ is due on IN, ERR or HUP, WRITE on OUT, ERR or HUP; nothing happens unless a due event is waited for; if the system agrees, exactly the waiters of the due events leave and are queued, reader first; the assertion in triggerEvent fails exactly if one of two due events is not waited for |
| IoManagers.DeliverOne | lyslg/iomanager.cc:335-394 | one entry of the batch: it aborts exactly if it is too wide, and nobody else's registration changes |
| IoManagers.DeliverAll | lyslg/iomanager.cc:335-394 | over the whole batch each waiter stays or is queued once; it aborts exactly if some entry meets what was wanted at the outset without being among it |
| IoManagers.WideningAborts | lyslg/iomanager.cc:356-358 | an error on a descriptor that only a reader waits for fails the assertion |
| IoManagers.CutsOffIff | lyslg/iomanager.cc:90-100 | a resize loses a context exactly if it lies at or below a descriptor that is waited for and not lost yet |
| IoManagers.LateResize | lyslg/iomanager.cc:105-114 | a run: a thread that saw 32 contexts for descriptor 100 cuts the table to 150 after descriptor 300 was registered |
| IoManagers.LateResizeLosesReader | lyslg/iomanager.cc:105-135 | that run goes on: the reader is still counted, cannot be cancelled, and a writer for the same descriptor is refused though the system would agree |
| IoManagers.LostReaderIsDelivered | lyslg/iomanager.cc:351-394 | or it goes on: readiness reaches the lost reader, and afterwards the descriptor can be registered again |
| DoIo.StepKeepsInv | lyslg/hook.cc:138-189 | every step of every call, timer, delivery, close and scheduler keeps the protocol's invariant |
| DoIo.RunKeepsInv | lyslg/hook.cc:138-189 | so it holds in every reachable state |
| DoIo.EachWaitConsumedOnce | lyslg/hook.cc:166-175 | over every run each wait is consumed once, or not yet while registered, and its fiber is queued at most once |
| DoIo.InfoLivesWithCall | lyslg/hook.cc:139-157 | in every reachable state the weak reference to a call's timer_info can be locked exactly while the call is in progress |
| DoIo.TimeoutNeedsOwnTimer | lyslg/hook.cc:155-184 | the timeout exit is taken only after a timer of this very call fired |
| DoIo.CancelledIff | lyslg/hook.cc:156-162 | in every run the flag of a call is set exactly if a timeout callback of it ran while it was in progress |
| DoIo.ResumeOutcome | lyslg/hook.cc:175-187 | in every run a call that is resumed returns with a timeout exactly if a timeout callback of it has run before, and otherwise tries again |
| DoIo.CallbackIdleIff | lyslg/hook.cc:156-163 | in every run a timeout callback changes nothing but its own timer exactly if its call has returned or an earlier callback of that call has run |
| DoIo.OtherOutcome | lyslg/hook.cc:166-189 | the other ways out of a call report no timeout |
| DoIo.TimeoutConsumes | lyslg/hook.cc:156-163 | the callback of a registered wait consumes it and queues its fiber |
| DoIo.ReadyConsumes | lyslg/hook.cc:166-186 | readiness of the awaited event consumes the wait and queues its fiber |
| DoIo.CloseConsumes | lyslg/hook.cc:381-395 | closing the descriptor consumes every wait on it and queues its fiber |
| DoIo.RefusedTakesNobody | lyslg/hook.cc:155-164 | if the system refuses, a timeout callback or a close takes no waiter |
| DoIo.LeftoverCallbackIsHarmless | lyslg/hook.cc:156-160 | in every run, once the call has returned, any later callback of its changes nothing but its own timer |
| DoIo.TimeoutPossibleIff | lyslg/hook.cc:155-175 | in every run a waiting call with a timeout can still be ended by a timer exactly if no timeout callback of it has run before |
| DoIo.TimeoutBeforeAdd | lyslg/hook.cc:155-166 | a run in which the callback fires between arming the timer and addEvent |
| DoIo.TimeoutCanBeLost | lyslg/hook.cc:155-175 | that run goes on to a registered wait no timer can end |
| StaleTimeouts.CallbackIsCurrentIff | lyslg/hook.cc:156-187 | a queued callback of a call in progress belongs to the present attempt exactly if the call has not gone on past an attempt while that callback was queued |
| StaleTimeouts.TimeoutCanBeEarly | lyslg/hook.cc:156-187 | a run: the callback of the first attempt ends the second, whose own timer is still pending |
| DoIo.ConsumeIsTrigger | lyslg/iomanager.cc:190-224 | cancelling in the protocol is what cancelEvent does to the event table |
| DoIo.ConsumeMaskIsTrigger | lyslg/iomanager.cc:226-263 | closing and delivering are what cancelAll and the delivery loop do to it |
| Scheduling.Scan | lyslg/scheduler.cc:180-198 | the scan stops at the first entry that is neither pinned to another thread nor a fiber in state EXEC |
| Scheduling.StepCounters | lyslg/scheduler.cc:196-261 | the active counter is the number of threads holding or running an entry, the idle counter the number inside idle |
| Scheduling.StepTickets | lyslg/scheduler.cc:179-204 | no entry is lost or taken twice, and a pinned entry is taken only by its thread |
| Scheduling.StepUnique | lyslg/scheduler.cc:174-268 | a careful step leaves every fiber queued or held at most once in all, and not executing while held |
| Scheduling.StepExclusive | lyslg/scheduler.cc:211-245 | no fiber runs on two threads |
| Scheduling.StepPool | lyslg/scheduler.cc:224-245 | a careful step leaves the callback fiber a thread keeps in use there or idle, never queued, held or shared |
| Scheduling.StepReady | lyslg/scheduler.cc:216-217 | a fiber that yielded READY is queued or held |
| Scheduling.StepKeepsInv | lyslg/scheduler.cc:174-268 | every careful step keeps all of this |
| Scheduling.AssertsNeverFail | lyslg/fiber.cc:117-169 | where all of this holds, the assertions in swapIn and reset hold at any next step |
| Scheduling.FinishSafeIff | lyslg/scheduler.cc:211-245 | a slice that ends keeps the invariant exactly if its fiber does not go back, to the queue or as a callback fiber to its thread, while it is queued already |
| Scheduling.SubmitSafeIff | lyslg/scheduler.h:29-39 | a submission keeps the invariant exactly if the fiber is not queued, not dequeued and not started, and not kept by a thread with its callback ended |
| Scheduling.RunsKeepEntries | lyslg/scheduler.cc:174-268 | over every interleaving of N threads, careful or not, no entry is lost or taken twice, pins are honoured, and the counters are right |
| Scheduling.RunsAreSafe | lyslg/scheduler.cc:174-268 | over every interleaving, as far as the steps are careful, no fiber runs on two threads and no assertion in swapIn or reset fails |
| Scheduling.GoneStays | lyslg/scheduler.cc:211-250 | no step, careful or not, brings back a fiber that has ended and is neither kept nor running |
| Scheduling.AssertedExclusive | lyslg/scheduler.cc:211-232 | while no assertion fails no fiber runs on two threads, even without care |
| Scheduling.EndedForGood | lyslg/scheduler.cc:211-250 | over every run without a failed assertion so far: a fiber that has ended and is kept by no thread keeps its state and is on no thread from then on, whatever is submitted |
| Scheduling.DequeueOutcome | lyslg/scheduler.cc:180-198 | the thread holds the first entry neither pinned elsewhere nor executing, the queue keeps the others in order; without one the thread has missed |
| Scheduling.StartOutcome | lyslg/scheduler.cc:211-232 | a dequeued fiber that has not ended runs on its thread, one that has is dropped, a callback runs on the fiber the thread keeps or on a new one |
| Scheduling.FinishOutcome | lyslg/scheduler.cc:213-245 | a fiber that yielded READY is queued once for any thread and no other is; the thread keeps its callback fiber, made fresh, exactly if the callback has ended |
| Scheduling.StoppingMeansDone | lyslg/scheduler.cc:276-282 | when stopping() is true every entry ever queued has been taken and no thread holds or runs one, given only the counters and tickets |
| Scheduling.StoppingInRuns | lyslg/scheduler.cc:276-282 | so it is in every state of every run, careful or not |
| Bookkeeping.WokenWhileExecuting | lyslg/scheduler.cc:189-192 | a run to a state in which a running fiber is already queued again |
| Bookkeeping.ReadyAfterSubmitFails | lyslg/scheduler.cc:216-217 | that run goes on: the fiber yields READY, is queued twice, two threads take it, and the assertion in swapIn fails |
| Bookkeeping.SubmitTwiceFails | lyslg/scheduler.h:69-77 | a run: a fiber submitted twice is taken by two threads, and the assertion in swapIn fails |
| Bookkeeping.EndAfterSubmitFails | lyslg/scheduler.cc:238-240 | a run: a callback fiber submitted while running ends, is taken by another thread, and the next callback fails the assertion in reset |
| Bookkeeping.SubmitAfterEndFails | lyslg/scheduler.cc:225-226 | the same when it is submitted after its callback has ended |
| Bookkeeping.FinishIsYieldThenSettle | lyslg/scheduler.cc:213-245 | the atomic finish is the fiber's yield followed by the scheduler's bookkeeping |
| Bookkeeping.YieldLeavesBetween | lyslg/scheduler.cc:213-245 | after the yield alone, the bookkeeping of that thread is all that is missing |
| Bookkeeping.OthersKeepBetween | lyslg/scheduler.cc:174-268 | whatever careful steps others take meanwhile, that stays so |
| Bookkeeping.SettleSafeIff | lyslg/scheduler.cc:214-245 | late bookkeeping restores the invariant exactly if no other thread runs the fiber by then and it does not go back while queued or held |
| Bookkeeping.LateBookkeepingRunsTwice | lyslg/scheduler.cc:213-222 | a run in which another thread takes the fiber between yield and bookkeeping, and the fiber ends up on two threads |
| Schedulers.Scheduler.constructor | lyslg/scheduler.cc:170-175 | starts with every thread in its loop and nothing queued |
| Schedulers.Scheduler.ScheduleNoLock | lyslg/scheduler.h:69-77 | one entry, with a new ticket, the work and the pin given, goes to the end; true iff the queue was empty |
| Schedulers.Scheduler.ScheduleAll | lyslg/scheduler.h:41-54 | a batch goes to the end in order; true iff the queue was empty and the batch is not |
| Schedulers.Scheduler.Take | lyslg/scheduler.cc:179-204 | takes the first entry it may, or none, as `Scheduling.DequeueOutcome` says; keeps the invariant where it holds |
| Schedulers.Scheduler.Enter | lyslg/scheduler.cc:211-232 | starts the entry as `Scheduling.StartOutcome` says, an ended fiber dropped; aborts exactly where the assertions fail, never where the invariant holds |
| Schedulers.Scheduler.Leave | lyslg/scheduler.cc:213-245 | the bookkeeping after a slice, as `Scheduling.FinishOutcome` says; where the invariant holds it is kept exactly if the step is careful |
| Quiescence.Stopping | lyslg/iomanager.cc:277-282 | true iff asked to stop, no timer, no pending event, no entry, no active thread; then nothing is left to do; careless steps and lost contexts included |
| WebSocketFrames.MaskedTwice | lyslg/http/ws_session.cc:173-178 | unmasking undoes masking |
| WebSocketFrames.FrameLayout | lyslg/http/ws_session.cc:197-245 | every byte of a frame by value: fin and opcode, mask bit and length in one of three forms, the length most significant byte first, the key, and payload byte i xor-ed with key byte i mod 4 |
| WebSocketFrames.LengthRoundTrip | lyslg/http/ws_session.cc:205-231 | all three length forms are read back |
| WebSocketFrames.LengthTestIff | lyslg/http/ws_session.cc:155 | the 64-bit test of the length is the unbounded one of this model exactly if the sum does not wrap to below the limit |
| WebSocketFrames.PayloadRoundTrip | lyslg/http/ws_session.cc:161-178 | a payload comes back, masked or not |
| WebSocketFrames.FrameRoundTrip | lyslg/http/ws_session.cc:197-253 | a frame is read back with its fin and opcode exactly if it is not empty and stays below the limit |
| WebSocketFrames.ControlSkipped | lyslg/http/ws_session.cc:122-128 | a PING is answered and a PONG ignored; the message under way is untouched |
| WebSocketFrames.FrameReceived | lyslg/http/ws_session.cc:129-188 | what the receive loop does on any one data frame |
| WebSocketFrames.UnmaskedRefused | lyslg/http/ws_session.cc:128-136 | a server receives nothing from a data frame without a mask |
| WebSocketFrames.OtherSkipped | lyslg/http/ws_session.cc:114-192 | of a frame that is neither data nor PING the two bytes of its head are skipped |
| WebSocketFrames.ControlsReceived | lyslg/http/ws_session.cc:122-128 | the same over any list of control frames |
| WebSocketFrames.FragmentsReceived | lyslg/http/ws_session.cc:110-195 | any fragments with control frames between them are received, in any state of the loop, as the joined message or rejected |
| WebSocketFrames.MessageRoundTrip | lyslg/http/ws_session.cc:110-253 | the opposite role receives the same opcode and the joined payload exactly if no fragment is empty, the total is below the limit and pings can be answered |
| WebSocket.Stream.ReadFixSize | lyslg/stream.cc:6-18 | any pattern of short reads yields the next n bytes, or 0 when they run out |
| WebSocket.Stream.WriteFixSize | lyslg/stream.cc:31-43 | any pattern of short writes sends the whole buffer, or nothing when the peer is gone or the stream closed |
| WebSocket.Stream.SendControl | lyslg/http/ws_session.cc:261-285 | sends the two bytes of a control frame, or closes the stream |
| WebSocket.PongBytes | lyslg/http/ws_session.cc:274-285 | each PONG is the bytes 138 and 0 |
| WebSocket.Stream.SendMessage | lyslg/http/ws_session.cc:197-253 | sends the frame, whose last bytes are the payload, for a client xor-ed in turn with the four bytes before them; an empty payload fails and closes; the caller's data is left masked |
| WebSocket.Stream.RecvData | lyslg/http/ws_session.cc:133-172 | reads a frame's length, key and payload as the format says, over short reads |
| WebSocket.Stream.RecvPayload | lyslg/http/ws_session.cc:161-178 | succeeds exactly if the announced bytes are there and not none; then payload byte i is input byte 4 + i xor-ed with byte i mod 4, or without a mask input byte i, and the input moves past it |
| WebSocket.Stream.RecvMessage | lyslg/http/ws_session.cc:110-195 | the loop over short reads receives what the format says, answers every PING, closes on failure |
| WebSocket.AnyBytesReceived | lyslg/http/ws_session.cc:110-195 | from any bytes, whoever sent them: the first opcode that is not CONTINUE stays, data is only added at the end and by every data frame, a message is shorter than the limit, and the bytes behind it are left unread |
| WebSocket.MaskInPlace | lyslg/http/ws_session.cc:238-240 | byte i of the result is byte i of the data xor-ed with byte i mod 4 of the key |
| WebSocket.SendFragments | lyslg/http/ws_session.cc:197-273 | sending fragments and control frames puts exactly their wire form on the stream, up to and with the first empty fragment, which closes it |
| WebSocket.Transfer | lyslg/http/ws_session.cc:110-253 | sender and receiver together: the message arrives exactly if no fragment is empty and the total is below the limit |
| Url.UrlEncode | lyslg/util.cc:410-439 | the lazily copying loop equals encoding byte by byte |
| Url.UrlDecode | lyslg/util.cc:441-470 | the lazily copying loop equals decoding from left to right |
| Url.CodeOfByte | lyslg/util.cc:363-439 | a letter, digit or one of - . _ ~ = stands for itself, a space is '+' if so asked, any other byte is '%' and two upper-case digits worth b / 16 and b mod 16 |
| Url.EscapeRead | lyslg/util.cc:386-460 | '%' and two digits of either case, worth v and w, are read as the byte 16 v + w |
| Url.PlainRead | lyslg/util.cc:441-470 | '+' is read as a space if so asked, and anything that does not begin an escape as it stands |
| Url.HexIff | lyslg/util.cc:453-454 | the digits of an escape are 0-9, A-F and a-f |
| Url.DecodeEncode | lyslg/util.cc:410-470 | decoding undoes encoding, for every string, with the same flag, or with no '+' written for a space |
| Url.RoundTripIff | lyslg/util.cc:410-470 | for any two flags decoding undoes encoding exactly unless a space was written as '+' and '+' is not read back |
| Url.NoAmpersand | lyslg/util.cc:363-439 | an encoded string never contains '&' |
| Query.CutsUnique | lyslg/http/http.cc:195-211 | a query string is cut into pairs in one way only |
| Query.HttpRequest.InitQueryParam | lyslg/http/http.cc:190-215 | the loop terminates, cuts the string that way and inserts decoded values, first binding wins; a second call changes nothing |
| Query.JoinCut | lyslg/http/http.cc:195-211 | joined pairs are cut back into the pairs they came from |
| Query.JoinParses | lyslg/http/http.cc:190-215 | however a joined query is cut, the map is that of the original pairs |
| Query.FirstWins | lyslg/http/http.cc:55-57 | the map holds, for each key up to case, the first pair with it |
| Query.SameKeyIff | lyslg/http/http.cc:55-57 | two keys are the same exactly if they have equal length up to the first NUL and are there byte by byte equal or the two cases of one letter |
| Query.QueryRoundTrip | lyslg/http/http.cc:190-215 | building a query from pairs and parsing it gives their first-wins, case-insensitive map |
| Ipv6.CreateMask | lyslg/address.cc:13-17 | the shifted one, less one, cut to a byte, has exactly the low 8 - bits bits set |
| Ipv6.AndNotMask | lyslg/address.cc:472 | and-ing with the complement rounds the byte down to its block |
| Ipv6.OrWithMask | lyslg/address.cc:462 | or-ing with the mask goes to the end of the block, within a byte |
| Ipv6.NetworkAddress | lyslg/address.cc:470-478 | the byte loop computes the network address |
| Ipv6.BroadcastAddress | lyslg/address.cc:459-468 | the byte loop computes the broadcast address |
| Ipv6.SubnetMask | lyslg/address.cc:480-490 | the byte loop computes the mask |
| Ipv6.NetworkValue | lyslg/address.cc:470-478 | as a 128-bit number the network is the address rounded down to a multiple of 2^(128 - prefix) |
| Ipv6.BroadcastValue | lyslg/address.cc:459-468 | the broadcast address is the last number of that block |
| Ipv6.NetworkIsMasked | lyslg/address.cc:470-490 | byte by byte the network is the address and-ed with the mask |
| Ipv6.NetworkIsAnd | lyslg/address.cc:470-490 | and so it is as a 128-bit number |

## Left out

- System calls, context swaps, sockets, pipes and OpenSSL: their results are parameters or arbitrary choices;
  epoll_ctl is an update of a map that is legal or not and may be refused without effect.
- Allocation, deallocation and reference counts, but for that of timer_info: timer objects are records in a map by
  address, chunk memory is a list of blocks by number, and freed chunks are simply no longer in the list.
- The pointer constructors of FiberAndThread (lyslg/scheduler.h:90-100): the entry is modelled, the emptied argument is not.
- Codec.FixedRoundTrip: floats and doubles are only their 32 and 64 bits here; the bit pattern round trip is all that is claimed.
- Strings with a varint length: the writer uses eight fixed bytes and the reader a varint, so nothing comes back.
- ByteArrays.ByteArray.Read: the reading overload with an explicit position, writeToFile and the position-taking getReadBuffers are not modelled; their arithmetic does not follow the flat picture.
- SocketStreams.SocketStream.Read: a length of 0 is a call with no buffers; that the source then takes the address of the first of none is not modelled.
- SocketStreams.SocketStream.Write: the same.
- TimerManagers.TimerManager.AddTimer: periods and clock are unbounded; the 16-bit truncations of the period parameter and of the clock are not modelled.
- Rollovers.SleepWithin: waits of 2^31 ms and more, whose cast to int turns negative, are not modelled.
- Rollovers.RolloverKeepsPromises: clock readings taken before a lock and used after the clock has been set back are not modelled.
- IoManagers.IoManager.FindContext: descriptors and sizes are unbounded numbers; a lost context that no bit keeps in the interest set is not followed any further.
- DoIo.StepKeepsInv: timer callbacks, deliveries and closes are atomic steps; registering an event that is registered already aborts the process and is no step; the early exits for unhooked, closed and non-socket descriptors and the EINTR retry are one try.
- Schedulers.Scheduler.ScheduleNoLock: an entry with neither fiber nor callback, which the source drops, is not modelled.
- Scheduling.StepKeepsInv: dequeue is one step, a slice's start one, its yield with the bookkeeping one (apart in Bookkeeping); the tickle hint read after erase is an arbitrary wake-up; the caller thread's root fiber and the state of the idle fiber are not modelled.
- WebSocket.Stream.ReadFixSize: negative returns, and lengths of 2^31 and more, which turn negative as an int, are not modelled.
- WebSocket.Stream.WriteFixSize: the same.
- WebSocket.Stream.SendMessage: the 32-bit return value is not modelled.
- WebSocket.Stream.RecvData: the sum of the length so far and the announced length is unbounded, where the source adds in 64 bits; a frame that announces at least 2^64 less the length so far (a length field of 127 and eight bytes such as 0xff) passes the source's test and not the model's. `WebSocketFrames.LengthTestIff` says exactly when the two differ.
- WebSocket.Stream.RecvMessage: as for RecvData; CLOSE frames and control frames with a payload are read as the code reads them, two bytes each (`WebSocketFrames.OtherSkipped`), and no more is claimed for them.
- Query.HttpRequest.InitQueryParam: body and cookie parameters use the same macro and are not repeated.
- Ipv6.NetworkAddress: a prefix of 128 indexes past the address in the source and is excluded; IPv4 masks are not modelled.
- The generated URI and HTTP parsers, HTTP body assembly, logging, configuration, daemon, servlets, connection pools
  and server wiring: glue, or easy map invariants.
