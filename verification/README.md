# Verified model of the atomic_queue_rs ring-buffer queues

The repository implements lock-free bounded queues over a ring buffer: `AtomicQueue` and
`AtomicQueueB` for small values (zero marks an empty slot), `AtomicQueue2` and
`AtomicQueueB2` for any element (a state byte per slot says EMPTY or FULL).  This project
models their protocols as state machines over single memory accesses, their index
arithmetic bit by bit, and their one-call-at-a-time behaviour as classes with arrays, loops
and wrapping 64-bit counters.

- `Arith.dfy`, `Arch.dfy`: word arithmetic, `round_up_to_power_of_2`, `remap_index`, the choice of shuffle bits.
- `Ring.dfy`: positions and slots.  The protocols are proved for every permutation of the
  slots; `RemapRing` is the one `remap_index` gives.
- `Claiming.dfy`: claiming positions by loads, compare-and-swap and fetch-and-add, any number of threads.
- `Mpmc.dfy`: the EMPTY/FULL slot protocol with many producers and consumers (`SPSC = false`).
- `Spsc.dfy`: the hand-off of one producer and one consumer (`SPSC = true`), with unbounded and with 64-bit counters.
- `ZeroSlot.dfy`: the claim-then-store protocol of `AtomicQueue`; `Lapping.dfy`: exactly when it breaks.
- `Fifo.dfy`, `Common.dfy`, `SequentialQueue.dfy`, `SequentialQueue2.dfy`: the bounded FIFO and the classes that refine it.

`dafny verify dfyconfig.toml` checks the whole project.

Assumptions.  Steps of different threads interleave under sequential consistency.  A
`compare_exchange` fails only when the value differs.  Subtraction wraps (overflow checks
off), so `head - tail` with the tail ahead compares as huge and `try_push` refuses.
Capacity is at least 1 and at most 2^63.  `Mpmc` and `ZeroSlot` use unbounded counters;
`Spsc` and the classes also treat 64-bit ones.  A run is a schedule, a sequence naming which
thread moves; every result about `Run` or a trace holds for every schedule and any number of threads.
In each protocol `Inv` is shown to hold in every reachable state (`InvHolds`).
A run of `ZeroSlot` is without laps (`Careful`) when every claim comes after the call one turn
behind has cleared the slot, or is made at a slot to which a zero has been pushed and, if it is
a push, brings one more zero.

Where the code and its documentation or tests disagree, the code is followed:

- `AtomicQueueOps::push` promises to wait while the queue is full (src/common.rs:116-119).
  `AtomicQueue::push` does not wait (src/atomic_queue.rs:172-179): `SequentialQueue.AtomicQueue.Push`
  is a FIFO push exactly when the queue is not full, and otherwise overwrites the oldest element.
- `AtomicQueue` delivers every stored element as long as no claim laps an unfinished call at
  its slot.  Calls of both kinds do lap, for every capacity: `Lapping.TryCallsCanLap` is a run
  of `try_` calls, `Lapping.WaitingPopsCanLap` one of blocking pops.
  `Lapping.SafeExactlyWhenCareful` shows that the first claim that laps, and nothing else,
  is what breaks delivery.
- Zero marks an empty slot of `AtomicQueue`, so a pop of a pushed zero waits for ever
  (`Lapping.PushedZeroIsNeverPopped`); the usage example ends its consumers by pushing 0 (README.md:86-89).
- `try_push` of a single-producer queue may refuse although the queue is empty, while the
  consumer waits in `pop` (`Spsc.WaitingPopRefusesPush`); `Spsc.PushVerdict` gives the exact condition.
- A unit test expects a queue of size 3 to be full after three pushes (src/atomic_queue.rs:433-442);
  `new` rounds the capacity up to 4 (src/atomic_queue.rs:93).
- A capacity that is not a power of two (`MINIMIZE_CONTENTION = false`) loses its ring when the
  counters wrap; `Ring.WrapSafeExactlyForPow2` shows that powers of two are exactly the safe
  capacities.  There a `try_push` that has found room can claim a slot that is still FULL and wait
  for ever: `SequentialQueue2.WrapStrands` is a history from `new` that ends so, for every such
  capacity, and `SequentialQueue2.AtomicQueue2.HeadIsFreeExactly` gives the exact condition.
- Without TOTAL_ORDER `try_push` discards the result of its fetch-and-add, so two producers can
  share a position (`Mpmc.LooseSharesPosition`); with one thread a side it makes no difference
  (`Mpmc.LooseIsTotalOrder`).

## Model

| member | source | states |
|---|---|---|
| Mpmc.Quiescence | src/atomic_queue2.rs:109-172 | Whatever the interleaving and whoever won each slot: once no claimed call waits, the FULL slots are exactly those of positions tail..head-1, head - tail is between 0 and the capacity and equals the number of FULL slots |
| Mpmc.Occupancy | src/atomic_queue2.rs:124-171 | At every moment: a slot's successful EMPTY-to-FULL flips minus FULL-to-EMPTY flips is its state, so pushes past their slot exceed pops past theirs by the number of FULL slots, at most the capacity |
| Mpmc.WaitersProgress | src/atomic_queue2.rs:124-171 | In every reachable state with the counters within one turn, wherever a claimed call waits some call waiting at that slot can flip it now |
| Mpmc.Drain | src/atomic_queue2.rs:124-171 | With claims frozen, any flips made so far extend to flips that serve every waiter, exactly as many flips as there were waiters |
| Mpmc.FlipsServeWaiters | src/atomic_queue2.rs:124-171 | Every schedule of flips serves one waiter per flip and moves neither counter |
| Mpmc.DrainsExactlyWithinOneTurn | src/atomic_queue2.rs:259-287 | The claimed calls of a reachable state can all flip their slots and return without a new claim if and only if 0 <= head - tail <= capacity |
| Mpmc.TryCallsNeverBlock | src/atomic_queue2.rs:204-257 | With `try_` calls and TOTAL_ORDER only, the counters stay within one turn and all claimed calls can always finish |
| Mpmc.InvHolds | src/atomic_queue2.rs:204-287 | In every run and at every slot: claimed push positions are flips plus waiting pushes, claimed pop positions likewise, and the difference of flips is the slot's state |
| Mpmc.RunsAreTraces | src/atomic_queue2.rs:522-564 | The claiming states of every run form a trace of the claiming layer under the same schedule |
| Mpmc.RefusedPush | src/atomic_queue2.rs:204-221 | TOTAL_ORDER: a refused `try_push` of a run of `try_` calls overlaps a moment with exactly capacity positions taken, or another thread's push claim |
| Mpmc.RefusedPop | src/atomic_queue2.rs:231-247 | TOTAL_ORDER: in every run, a `try_pop` that returns nothing overlaps an empty moment or another thread's pop claim |
| Mpmc.SlotStepOutcome | src/atomic_queue2.rs:109-172 | In every state: a waiting thread that can flip its slot does, one that cannot changes nothing, one that has flipped returns; no other slot, thread or counter is touched |
| Mpmc.WaitingPopRefusesPush | src/atomic_queue2.rs:204-221 | On every ring, with a pop waiting on the empty queue, the run in which `try_push` returns false because the tail is ahead of the head |
| Mpmc.LooseIsTotalOrder | src/atomic_queue2.rs:204-257 | With one pushing and one popping thread every run without TOTAL_ORDER is the run with it: the fetch-and-add and the compare-and-swap claim alike, so all rows above hold there too |
| Mpmc.LooseSharesPosition | src/atomic_queue2.rs:204-224 | With two pushing threads and no TOTAL_ORDER, on every ring, a run in which both own position 0 and nobody position 1 |
| Mpmc.LooseSharesElement | src/atomic_queue2.rs:231-257 | With two popping threads and no TOTAL_ORDER, on every ring, a run in which both own the position of the only element |
| Claiming.TryPushOutcome | src/atomic_queue.rs:118-137 | In any trace, with the head h of its first step and the tail t of its second, the third step of a `try_push` claims position h for its argument if and only if 0 <= h - t < capacity and no other push has claimed since the first; otherwise it returns and nothing else happens |
| Claiming.TryPopOutcome | src/atomic_queue.rs:139-151 | In any trace, with the tail t of its first step and the head h of its second, the third step of a `try_pop` claims position t if and only if h != t and no other pop has claimed since the first; otherwise it returns and nothing else happens |
| Claiming.BlockingOutcome | src/atomic_queue.rs:172-183 | A blocking push claims the head, a blocking pop the tail, with their first step |
| Claiming.LooksFullOnWords | src/atomic_queue.rs:121-125 | With the counters less than 2^63 apart the wrapped 64-bit subtraction is below the capacity if and only if 0 <= h - t < capacity |
| Claiming.CounterBound | src/atomic_queue.rs:118-153 | Any number of threads doing only `try_` calls keep 0 <= head - tail <= capacity although both counters are loaded at different moments before the compare-and-swap |
| Claiming.RefusedPushOverlaps | src/atomic_queue.rs:118-130 | In any mix of calls, a `try_push` that returns false overlaps a moment when head - tail was not in 0..capacity-1, or a push claim by another thread |
| Claiming.RefusedPushIsJustified | src/atomic_queue.rs:118-130 | With `try_` calls only, that moment is one with exactly capacity positions taken |
| Claiming.RefusedPopIsJustified | src/atomic_queue.rs:139-151 | In any mix of calls, a `try_pop` that returns nothing overlaps an empty moment or a pop claim by another thread |
| Spsc.Fifo | src/atomic_queue2.rs:204-287 | Every interleaving, any mix of blocking and `try_` calls: the values returned are a prefix of the arguments of the pushes that claimed, in the order of their claims, and -1 <= head - tail <= capacity + 1 |
| Spsc.PushedAreTheArguments | src/atomic_queue2.rs:204-272 | On unbounded and on 64-bit counters, `pushed` is the sequence of the arguments of the calls that claimed, computed from the schedule |
| Spsc.TryPushOutcome | src/atomic_queue2.rs:204-221 | The third step of a `try_push` claims the position loaded first for its argument if and only if 0 <= h - t < capacity for the loaded counters; otherwise it returns and nothing else changes |
| Spsc.TryPopOutcome | src/atomic_queue2.rs:231-247 | The third step of a `try_pop` claims the position loaded first if and only if the loaded counters differ; otherwise it returns and nothing else changes |
| Spsc.OwnersGoOn | src/atomic_queue2.rs:110-157 | At every moment a thread that owns a position and is not held up is one of three steps nearer to its return after its next; one held up changes nothing |
| Spsc.PushAlone | src/atomic_queue2.rs:259-272 | From any reachable state with room, `push` alone returns after four steps with its element appended |
| Spsc.TryPushAlone | src/atomic_queue2.rs:204-229 | `try_push` alone after six, unless the tail is ahead |
| Spsc.PopAlone | src/atomic_queue2.rs:274-287 | From any reachable state with something published, `pop` alone returns the oldest element after four steps |
| Spsc.TryPopAlone | src/atomic_queue2.rs:231-257 | `try_pop` alone after six |
| Spsc.HandoffIsSafe | src/atomic_queue2.rs:110-157 | An element is written only where none is, and read only when it is the initialised element pushed under that position |
| Spsc.NoDeadlock | src/atomic_queue2.rs:110-157 | A spinning producer is held up exactly while capacity earlier elements are out, a waiting consumer exactly while everything published has been returned; never both |
| Spsc.DrainsExactlyWithinOneTurn | src/atomic_queue2.rs:110-157 | The claimed calls of both threads can return without a new claim if and only if 0 <= head - tail <= capacity |
| Spsc.PushVerdict | src/atomic_queue2.rs:204-221 | `try_push` returns false if and only if, at its tail load, capacity positions were taken or a waiting pop had claimed the next one; otherwise it claims |
| Spsc.PushVerdictIsExact | src/atomic_queue2.rs:204-221 | With a consumer that only uses `try_pop`: if and only if the queue was full at the tail load |
| Spsc.WaitingPopRefusesPush | src/atomic_queue2.rs:207-211 | With a consumer waiting in `pop`, an empty queue of any capacity refuses |
| Spsc.PopVerdict | src/atomic_queue2.rs:231-247 | `try_pop` returns nothing if and only if the queue is empty at its head load, and otherwise claims |
| Spsc.VerdictIsStable | src/atomic_queue2.rs:213-247 | The compare-and-swap never fails with one thread a side, and no step of the other thread changes a verdict |
| Spsc.WrappingIsInvisible | src/atomic_queue2.rs:412-605 | Power-of-two capacity: every schedule on 64-bit counters gives the unbounded run cut to 64 bits, hence the same slots, decisions and results across any number of wraps |
| Spsc.WordsDeliver | src/atomic_queue2.rs:412-605 | With 64-bit counters: what is returned is a prefix of the arguments of the pushes that claimed, the hand-off is safe and never are both threads held up |
| ZeroSlot.Delivery | src/atomic_queue.rs:118-200 | Runs without laps, any mix of the four calls, all elements: each pop returns the element pushed under its position, no position is held or returned twice, nothing stored is lost; the counters part by more than a turn only where a zero has been pushed |
| ZeroSlot.DeliversTheArguments | src/atomic_queue.rs:118-200 | Runs without laps: each pop returns the argument of the call that claimed its position for a push |
| ZeroSlot.PushedAreTheArguments | src/atomic_queue.rs:118-179 | In every run the recorded elements are the arguments of the calls that claimed, computed from the schedule |
| ZeroSlot.SlotStepOutcome | src/atomic_queue.rs:132-169 | In every state, lapped or not: a push stores whatever is in its slot, a pop takes what is there unless it is zero and then zeroes whatever is there; no other slot or thread is touched |
| ZeroSlot.LapFreeStaysWithinATurn | src/atomic_queue.rs:118-200 | If every claim waits for the call one turn behind, zeros included, the counters never part by more than a turn |
| ZeroSlot.TryPopsAreCareful | src/atomic_queue.rs:139-153 | With `try_pop` consumers pops never lap: delivery needs a condition on push claims only, and the tail stays behind the head |
| Lapping.SafeExactlyWhenCareful | src/atomic_queue.rs:118-200 | After every run without laps, for every step of every thread, whichever call it belongs to: the step does not lap if and only if delivery stays intact in every continuation, with any number of further threads, whose own claims do not lap |
| Lapping.TryCallsCanLap | src/atomic_queue.rs:118-170 | For every capacity, a run of `try_` calls in which a pop returns 7 under the position where 5 was pushed |
| Lapping.TryCallsCanLose | src/atomic_queue.rs:118-170 | For every capacity, a run of `try_` calls in which a pop returns its own element and its zero erases the one that lapped it |
| Lapping.WaitingPopRefusesPush | src/atomic_queue.rs:118-125 | For every capacity, with a pop waiting on the empty queue, the run in which `try_push` returns false |
| Lapping.WaitingPopsCanLap | src/atomic_queue.rs:172-200 | For every capacity, a run of blocking pops in which two wait at one slot, and the one whose position has not been pushed to takes the only element |
| Lapping.PushedZeroIsNeverPopped | src/atomic_queue.rs:118-170 | For every capacity, a run of `try_` calls after which a pop waits for a pushed zero, and does in every continuation without laps |
| ZeroSlot.DrainsExactlyWhenFed | src/atomic_queue.rs:118-200 | After a run without laps, all claimed calls can return without a further claim if and only if every position claimed for a pop has been claimed for a push of an element that is not zero |
| ZeroSlot.PopProceedsExactlyWhen | src/atomic_queue.rs:158-169 | In runs without laps a waiting pop can take its element if and only if that element has been stored and is not zero |
| ZeroSlot.PopWaitsForItsPush | src/atomic_queue.rs:158-169 | An element pushed but not stored yet belongs to a claimed push that can store at once |
| ZeroSlot.ZeroBlocksItsPop | src/atomic_queue.rs:158-164 | A stored zero is never taken: its pop waits through every such continuation |
| ZeroSlot.Quiescence | src/atomic_queue.rs:118-200 | In runs without laps: when every call has returned, tail <= head, the slots of tail..head-1 hold exactly the elements pushed there and the others are zero |
| ZeroSlot.TryCallsStayBounded | src/atomic_queue.rs:118-151 | 0 <= head - tail <= capacity in every run of `try_` calls, lapping or not |
| ZeroSlot.RefusedPush | src/atomic_queue.rs:118-130 | A refused `try_push` of a run of `try_` calls overlaps a full moment or another thread's push claim |
| ZeroSlot.RefusedPop | src/atomic_queue.rs:139-151 | A `try_pop` that returns nothing overlaps an empty moment or another thread's pop claim |
| Ring.WindowInjective | src/atomic_queue2.rs:100-105 | Positions less than a capacity apart never share a slot |
| Ring.WindowCovers | src/arch.rs:148-156 | Any capacity consecutive positions, remapped, reach every slot |
| Ring.NextIsFreeExactly | src/atomic_queue2.rs:98-105 | With n positions taken, the slot of the next 64-bit position is none of theirs if and only if the capacity is a power of two, the wrap does not come between, or n is below the remainder of 2^64 by the capacity |
| Ring.WrapSafeExactlyForPow2 | src/atomic_queue2.rs:64-101 | The 64-bit wrap keeps nearby positions on different slots if and only if the capacity is a power of two |
| Arch.RoundUpToPowerOf2 | src/arch.rs:88-104 | The least power of two at least n for n up to 2^63; 0 above, where the final increment wraps |
| Arch.SmearDoubles | src/arch.rs:94-102 | One shift-or doubles the run of ones below the top bit |
| Arch.RemapSwapsFields | src/arch.rs:148-156 | The XOR form exchanges the two lowest bits-wide fields and keeps the rest, for every width that fits a word twice, 32 included |
| Arch.RemapIsInvolution | src/arch.rs:148-156 | Remapping stays inside a power-of-two array that holds both fields and is its own inverse |
| Arch.ShuffleBitsFit | src/arch.rs:124-141 | Every width it returns fits the array it was computed for |
| Arch.ShuffledExactlyWhen | src/arch.rs:109-141 | Shuffling happens exactly when wanted, with 2 to 256 (a power of two) elements a line and at least that number squared slots; the width is the logarithm |
| Arch.MaskIsModulo | src/atomic_queue.rs:111-114 | Masking with capacity - 1 is the remainder by a power-of-two capacity |
| Fifo.Conservation | src/common.rs:105-137 | Over any history of the bounded FIFO, what was inside followed by what went in is what came out followed by what remains |
| SequentialQueue2.AtomicQueue2.constructor | src/atomic_queue2.rs:64-96 | An empty valid queue whose capacity is the size, rounded up when contention is minimised, with the shuffle width computed for it and the modes asked for |
| SequentialQueue2.AtomicQueue2.B | src/atomic_queue2.rs:355-408 | The same for the runtime-sized queue |
| SequentialQueue2.AtomicQueue2.GetSlot | src/atomic_queue2.rs:412-419 | `%` and masking give one slot, inside the array |
| SequentialQueue2.AtomicQueue2.TryFill | src/atomic_queue2.rs:144-172 | One round of a push's loop: on an EMPTY slot it writes the element and leaves it FULL, otherwise it changes nothing |
| SequentialQueue2.AtomicQueue2.TryEmpty | src/atomic_queue2.rs:109-140 | One round of a pop's loop: on a FULL slot it moves the element out and leaves it EMPTY, otherwise it changes nothing |
| SequentialQueue2.AtomicQueue2.DoPushAny | src/atomic_queue2.rs:144-172 | On an EMPTY slot both hand-off modes end their loop, write the element and leave the slot FULL, touching no other |
| SequentialQueue2.AtomicQueue2.DoPopAny | src/atomic_queue2.rs:109-140 | On a FULL slot both modes end their loop, move the element out and leave the slot EMPTY, touching no other |
| SequentialQueue2.AtomicQueue2.HeadIsFreeExactly | src/atomic_queue2.rs:204-224 | The slot of the next position to push to is EMPTY if and only if the queue is not full and `NextIsFree`, which a power-of-two capacity always is |
| SequentialQueue2.AtomicQueue2.ReturnsExactly | src/atomic_queue2.rs:109-172 | A call finds the slot it claims ready, if it claims one, if and only if the queue's length and counters satisfy `Returns`; on a full queue no `push` does, on an empty one no `pop` |
| SequentialQueue2.AtomicQueue2.TryPush | src/atomic_queue2.rs:204-229 | Whenever it returns: appends the element, or returns false and changes nothing exactly when full |
| SequentialQueue2.AtomicQueue2.TryPop | src/atomic_queue2.rs:231-257 | Removes and returns the first element, or nothing exactly when empty; for every capacity, across the wrap |
| SequentialQueue2.AtomicQueue2.Push | src/atomic_queue2.rs:259-272 | Whenever it returns: appends the element to a queue that is not full |
| SequentialQueue2.AtomicQueue2.Pop | src/atomic_queue2.rs:274-287 | Removes and returns the first element of a queue that is not empty |
| SequentialQueue2.AtomicQueue2.Report | src/atomic_queue2.rs:293-303 | Size, emptiness and fullness are exact when nothing else runs |
| SequentialQueue2.AtomicQueue2.Drop | src/atomic_queue2.rs:182-194 | Visits every slot once through the remap and drops exactly the live elements with strictly rising indices, which without a turn or wrap in between is the order of the queue, leaving every slot uninitialised |
| SequentialQueue2.AtomicQueue2.Replay | src/atomic_queue2.rs:204-287 | Every history whose calls all return gets the answers of the bounded FIFO, for every capacity, shuffle width and mode, across wraps |
| SequentialQueue2.WrapStrands | src/atomic_queue2.rs:64-101 | For every capacity that is not a power of two, a history of `try_` calls from `new` in which a push that has found room never returns |
| SequentialQueue2.AllReturnExactlyForPow2 | src/atomic_queue2.rs:64-105 | All calls return in every history from `new` whose blocking calls have no one to wait for, if and only if the capacity is a power of two |
| SequentialQueue2.AtomicQueue2.Lifetime | src/atomic_queue2.rs:182-287 | From empty through any such history to `drop`: elements pushed equal elements popped plus elements dropped, and pops come in push order |
| SequentialQueue2.SameAnswers | src/atomic_queue2.rs:98-105 | Two queues that differ only in layout, masking or mode answer every such history alike |
| SequentialQueue.AtomicQueue.constructor | src/atomic_queue.rs:92-107 | An empty valid queue of the rounded capacity |
| SequentialQueue.AtomicQueue.B | src/atomic_queue.rs:246-273 | The same with at least two slots |
| SequentialQueue.AtomicQueue.TryPush | src/atomic_queue.rs:118-137 | Appends the element, or returns false and changes nothing exactly when full |
| SequentialQueue.AtomicQueue.PollElement | src/atomic_queue.rs:158-169 | One round of the waiting loop: an element that is there is taken and its slot zeroed, a zero changes nothing |
| SequentialQueue.AtomicQueue.TakeElement | src/atomic_queue.rs:158-169 | The waiting loop is over after one round if the element is there, and not over after any number of rounds if it is zero |
| SequentialQueue.AtomicQueue.TryPop | src/atomic_queue.rs:139-170 | For any queue, up to any round of its loop: nothing exactly when empty; the first element, removed, after one round if it is not zero; otherwise the position is claimed and nothing else changed, however many rounds it has made |
| SequentialQueue.AtomicQueue.Push | src/atomic_queue.rs:172-179 | A FIFO push exactly when the queue is not full; otherwise the oldest element is overwritten, the size exceeds the capacity and `was_full` is false |
| SequentialQueue.AtomicQueue.Pop | src/atomic_queue.rs:181-200 | The same as `TryPop` where there is an element; on an empty queue the position is claimed, the call waits and the size reads as 2^64 - 1 |
| SequentialQueue.AtomicQueue.Replay | src/atomic_queue.rs:118-200 | Every history whose calls return gets the answers of the bounded FIFO, across any number of wraps |
| SequentialQueue.AllReturnExactlyWithoutZero | src/atomic_queue.rs:118-200 | Where blocking calls have no one to wait for, all calls of a history return if and only if no zero is among the elements that come out |
| SequentialQueue.AtomicQueue.Deliver | src/atomic_queue.rs:118-200 | From empty through any history of non-zero elements: what went in is what came out, in order, followed by what is left |
| SequentialQueue.AtomicQueue.Report | src/atomic_queue.rs:206-216 | Size, emptiness and fullness are exact when nothing else runs |

## Left out

- Element values in `Mpmc`: with `SPSC = false` a slot becomes FULL before its element is written and EMPTY before it is read, so the code gives no step-level delivery; states and counts are proved.
- The speculative load loop and failed compare-and-swaps of `Mpmc` are steps that change nothing and are not told apart.
- `try_` calls with `TOTAL_ORDER = false` and several threads a side, where positions can be shared (`Mpmc.LooseSharesPosition`); one thread a side is covered by `Mpmc.LooseIsTotalOrder` for `SPSC = false` and by `Spsc` for `SPSC = true`.
- ZeroSlot.Delivery: runs with claims that lap, after which `Lapping.SafeExactlyWhenCareful` shows that delivery can fail.
- `Drop` of `AtomicQueueB`, which releases plain words.
- Counter wrap in `Mpmc` and `ZeroSlot`.
- SequentialQueue2.AtomicQueue2.TryPush: asks, when the queue is not full, that the slot of its position is EMPTY, because otherwise the call repeats a round that changes nothing (`TryFill`) for ever; `HeadIsFreeExactly` says when that is.
- SequentialQueue2.AtomicQueue2.Push: asks the same, which on a full queue never holds; `Pop` asks for an element, without which its slot is not FULL (`ReturnsExactly`).
- SequentialQueue2.AtomicQueue2.Replay: leaves out histories with a call that never returns, as `Lifetime` does.
- SequentialQueue.AtomicQueue.Replay: leaves out histories with a pop that meets a zero, and those with a `push` to a full queue, which `Push` treats.
- SequentialQueue.AtomicQueue.TryPop: the number of rounds made so far is a parameter, and `Pop` takes it too; the loop itself has no bound.
- Weak memory: the choice of `Ordering` for each access.
- `AtomicValue` transmutes of small element types, raw allocation and layouts, `MaybeUninit` as memory, `CachePadded`, `Send` and `Sync`; a slot holds an optional value instead.
- The number of elements in a cache line, which depends on crossbeam-utils; it is a parameter, and crossbeam-utils is not part of this model.
- `spin_loop_pause`, cache-line constants, `likely` and `unlikely`, the optimist aliases and trait: hints and thin wrappers.
- src/utils.rs, which the queues do not use, the benchmarks and the examples.
