# MMQ: the in-memory message queue, modelled in Dafny

MMQ (`Bricks/mq/inmemory/mq.h`) is a bounded FIFO between any number of producer threads and one
consumer thread that the queue owns. It keeps a circular buffer of `circular_buffer_size_` slots.
Each slot holds a stamp (`absolute_index`), a payload (`message_body`) and a status: FREE,
BEING_IMPORTED, READY or BEING_EXPORTED.

- A producer calls `PushMessage` (or `EmplaceMessage`). It allocates the slot at `head_` under the
  mutex and advances `head_`. It then writes the stamp (the current `total_messages_`) and the
  payload, commits the slot to READY, and increments `total_messages_`.
- When the head slot is not FREE, the DROP_ON_OVERFLOW policy discards the message and returns
  false. The default policy waits on the condition variable until the slot frees up or
  `destructing_` is set.
- The consumer thread keeps its own `tail`. It waits for the tail slot to become READY and marks
  it BEING_EXPORTED. It then hands the payload, its stamp and the current counter to the consumer
  callback, frees the slot and advances `tail`.
- It returns as soon as it sees `destructing_` set, which the destructor does under the mutex.

The project has four modules:

- `MmqState` (`mmq_state.dfy`): the queue as a value, `QueueState`. Each step of the source is a
  function from the old state to the new one:
  - one locked region each: the two allocation policies, the commit, and the destructor's flag;
  - unlocked: the write of stamp and payload, and the counter increment;
  - `PushMessage`: a whole push call;
  - `ConsumerStep`: one whole pass of the consumer loop. It fuses the two locked regions
    (`BeginExport`, `FinishExport`) and the call of the consumer between them.
- `MmqInvariant` (`mmq_invariant.dfy`): what holds between steps.
  - The slot layout: the `Occupancy` slots from `tail` on are READY and all others FREE.
  - The message accounting: a history of push calls (each one stored or discarded) and a log of
    deliveries.
  - The lemmas that each step keeps both, plus what follows from them: FIFO delivery, the stamp
    formula, gap = number of discards, and the counter bounds.
- `MmqScenarios` (`mmq_scenarios.dfy`): runs of several steps, covering the situations in
  `Bricks/mq/inmemory/test.cc` and arbitrary interleavings of pushes, consumer passes and
  teardown.
- `Mmq` (`mmq.dfy`): the class `MMQ`. Its fields are the source's, and the buffer is an `array`
  updated in place. Each method is proved to perform exactly the corresponding `MmqState`
  function on its fields. `PushMessage`, `ConsumerStep` and `Destruct` also keep the slot layout.
  The allocation, write and commit methods only keep the buffer's size and the cursors' range,
  because the layout does not hold between the parts of a push. `ConsumerThread` is proved
  against `Deliveries`, the list of every pending message with the counter, not against a
  single step.

Where the code and the comments disagree, the model follows the code:

- The comment on the destructor (`mq.h:78`) says that tearing down waits for every queued
  message to be committed. The consumer loop (`mq.h:151-160`) returns as soon as `destructing_`
  is set, even when the tail slot is READY. So messages still READY at teardown are never
  delivered (`MmqInvariant.DestructAbandonsReady`). No graceful drain happens at shutdown.
- The drop-policy allocation (`mq.h:190-204`) never looks at `destructing_`. After teardown has
  started, a drop-policy push is still stored while there is room, and then is never delivered.
  The blocking policy refuses such a push.

## Model

| member | source | states |
|---|---|---|
| `MmqState.Increment` | Bricks/mq/inmemory/mq.h:138 | the advanced cursor stays inside the buffer, and wraps from the last slot to slot 0 and otherwise moves up by one |
| `MmqState.Acquire` | Bricks/mq/inmemory/mq.h:196-198 | allocating changes only the head slot, which takes one life-cycle step (FREE to BEING_IMPORTED), and advances `head_` by `Increment`; `tail`, the counter and the flag are unchanged |
| `MmqState.AllocateDrop` | Bricks/mq/inmemory/mq.h:190-204 | the drop policy never waits; it yields the head index exactly when the head slot is FREE, whatever `destructing_` says. In that case only the head slot moves to BEING_IMPORTED and `head_` advances by `Increment`, while `tail`, the counter and the flag stay. Otherwise it returns the sentinel with the state untouched |
| `MmqState.AllocateBlock` | Bricks/mq/inmemory/mq.h:207-227 | once `destructing_` is set the result is the sentinel with the state untouched. Otherwise it yields the head index exactly when the head slot is FREE, and a wait exactly when it is not. On success only the head slot moves to BEING_IMPORTED and `head_` advances by `Increment`, while `tail`, the counter and the flag stay |
| `MmqState.WriteEntry` | Bricks/mq/inmemory/mq.h:95-96 | the write changes only slot `i`, which receives the counter as stamp and the payload and keeps its status; cursors, counter and flag are unchanged |
| `MmqState.Bump` | Bricks/mq/inmemory/mq.h:100 | the counter goes up by one; slots, cursors and flag are unchanged |
| `MmqState.PushMessage` | Bricks/mq/inmemory/mq.h:91-129 | its own contract: the call waits exactly under the blocking policy, before teardown, with the head slot not FREE, and then nothing changes. A returned call adds one to the counter, and a stored message sits READY in the old head slot with the old counter as stamp. `tail` and the flag are unchanged. Room, pending messages and the outcome in full are in `MmqInvariant.PushMessageOutcome` and `MmqInvariant.StoreExtendsPending` |
| `MmqState.Commit` | Bricks/mq/inmemory/mq.h:229-235 | committing changes only the written slot, which takes one life-cycle step (BEING_IMPORTED to READY); both cursors, the counter and the flag are unchanged |
| `MmqState.BeginExport` | Bricks/mq/inmemory/mq.h:161 | the consumer's first locked region changes only the tail slot, READY to BEING_EXPORTED; both cursors, the counter and the flag are unchanged |
| `MmqState.FinishExport` | Bricks/mq/inmemory/mq.h:176-180 | the consumer's last locked region changes only the tail slot, BEING_EXPORTED to FREE, and advances `tail` by `Increment`; `head_`, the counter and the flag are unchanged |
| `MmqState.ConsumerStep` | Bricks/mq/inmemory/mq.h:147-185 | its own contract: the pass returns exactly when `destructing_` is set. It delivers exactly when the flag is clear and the tail slot is READY, handing over that slot's payload and stamp with the counter, freeing the slot and advancing `tail` by `Increment`; otherwise nothing changes. `head_`, the counter and the flag are unchanged. The oldest-pending reading is in `MmqInvariant.ConsumerStepOutcome` and `MmqInvariant.ExportShrinksPending` |
| `MmqState.Destruct` | Bricks/mq/inmemory/mq.h:80-83 | sets the flag and changes nothing else; what that does to the consumer and to pushes is in `MmqInvariant.DestructAbandonsReady` |
| `MmqInvariant.FullEmptyResolution` | Bricks/mq/inmemory/mq.h:194-203 | when `head_` and `tail` meet the buffer is either empty or full; the head slot is FREE exactly when the buffer is not full, and the tail slot is READY exactly when a message is pending |
| `MmqInvariant.StoreExtendsPending` | Bricks/mq/inmemory/mq.h:94-101 | a stored push appends its payload, stamped with the counter's old value, behind the pending messages and keeps the slot layout |
| `MmqInvariant.ExportShrinksPending` | Bricks/mq/inmemory/mq.h:161-180 | one delivery removes exactly the oldest pending message and keeps the slot layout |
| `MmqInvariant.PushMessageOutcome` | Bricks/mq/inmemory/mq.h:91-102 | the outcome of a push as an if-and-only-if: stored iff there is room (and, for the blocking policy, no teardown); waiting iff the buffer is full under the blocking policy before teardown, with nothing changed; every returned call adds one to the counter; a refused call changes nothing else |
| `MmqInvariant.PushPreservesInv` | Bricks/mq/inmemory/mq.h:91-102 | every push keeps the invariant: the counter equals the number of returned calls, and deliveries followed by pending messages are exactly the stored calls with their stamps |
| `MmqInvariant.ConsumerStepOutcome` | Bricks/mq/inmemory/mq.h:150-180 | one consumer pass returns exactly when `destructing_` is set, even with a READY tail slot; otherwise it delivers exactly when a message is pending, handing over the oldest one with the current counter |
| `MmqInvariant.ConsumerStepPreservesInv` | Bricks/mq/inmemory/mq.h:161-180 | every consumer pass keeps the invariant, and the message delivered is the next stored one |
| `MmqInvariant.AdmittedAccounting` | Bricks/mq/inmemory/mq.h:93-101 | every returned call is either stored or discarded: stored + discarded = calls |
| `MmqInvariant.AdmittedStamp` | Bricks/mq/inmemory/mq.h:95 | the k-th stored message is stamped with the number of calls before it, which is k plus the number of discards before it |
| `MmqInvariant.StampsIncrease` | Bricks/mq/inmemory/mq.h:95-100 | stamps strictly increase along the stored messages |
| `MmqInvariant.GapIsDiscards` | Bricks/mq/inmemory/test.cc:44-50 | the gap between two consecutive stamps, less one, is the number of messages discarded between them |
| `MmqInvariant.DeliveryOrder` | Bricks/mq/inmemory/test.cc:74-81 | the consumer receives a prefix of the stored messages in order, with strictly increasing stamps; each counter exceeds its stamp, never decreases and never exceeds the number of calls |
| `MmqInvariant.DrainedMeansAllDelivered` | Bricks/mq/inmemory/test.cc:174-175 | with nothing pending, everything stored has been delivered, and deliveries plus discards equal the counter; with no discards, the counter handed over with the last delivery equals the number of deliveries, which is the comparison the test makes |
| `MmqInvariant.DestructAbandonsReady` | Bricks/mq/inmemory/mq.h:151-160 | after the destructor sets its flag, the consumer returns at once and READY messages stay undelivered; blocking pushes are refused; drop-policy pushes are still stored exactly when there is room |
| `MmqInvariant.InitInv` | Bricks/mq/inmemory/mq.h:71-76 | the state a new queue starts in (all slots FREE, cursors and counter at 0, flag clear) meets the invariant with no calls and no deliveries, and nothing is pending |
| `MmqInvariant.BlockedPushProgresses` | Bricks/mq/inmemory/mq.h:215-222 | a producer waiting on a full buffer is not stuck: the next consumer pass delivers, and the same push is then stored |
| `MmqScenarios.Fill` | Bricks/mq/inmemory/test.cc:99-112 | pushes with no consumer pass: the first calls, as many as there are FREE slots, are stored and the rest discarded; the counter advances once per call |
| `MmqScenarios.FillPending` | Bricks/mq/inmemory/test.cc:99-115 | those stored calls join the pending messages in call order with consecutive stamps |
| `MmqScenarios.Drain` | Bricks/mq/inmemory/test.cc:117-121 | k consumer passes with no push deliver the first k pending messages in order, with the unchanged counter |
| `MmqScenarios.PushIntoEmpty` | Bricks/mq/inmemory/test.cc:99-112 | pushes into an empty buffer store the first min(N, size) calls, stamped from the counter's value |
| `MmqScenarios.DrainStamped` | Bricks/mq/inmemory/test.cc:117-121 | draining consecutively stamped messages hands them over in order and leaves the buffer empty |
| `MmqScenarios.InOrderWithoutOverflow` | Bricks/mq/inmemory/test.cc:54-63 | with room for all of them, pushed messages reach the consumer unchanged, in order, with consecutive stamps and no gap |
| `MmqScenarios.DropOnOverflowRun` | Bricks/mq/inmemory/test.cc:90-121 | drop policy with a paused consumer: of N pushes into C slots exactly the first min(N, C) are stored; draining delivers them with stamps 0 to min(N, C) - 1 and counter N |
| `MmqScenarios.ResumeAfterDrain` | Bricks/mq/inmemory/test.cc:123-128 | after draining, one more push is stored with the counter as stamp and delivered with the counter one higher |
| `MmqScenarios.DropOnOverflowTest` | Bricks/mq/inmemory/test.cc:90-140 | the drop test: 10 of 25 pushes stored and 15 discarded; stamps 0 to 9 delivered; the next push is delivered with stamp 25 and counter 26, a gap of 15 |
| `MmqScenarios.RunPreservesInv` | Bricks/mq/inmemory/mq.h:91-187 | any interleaving of pushes, consumer passes and teardown keeps the invariant, and the history and the delivery log only grow |
| `MmqScenarios.BlockingLosesNothing` | Bricks/mq/inmemory/test.cc:142-180 | under the blocking policy before teardown nothing is discarded, stamps are distinct, at most one buffer's worth is undelivered, and an empty buffer means every call was delivered |
| `Mmq.MMQ.constructor` | Bricks/mq/inmemory/mq.h:71-76 | a new queue has `buffer_size` FREE slots, both cursors and the counter at 0 and the flag clear, and meets the invariant with an empty history and an empty delivery log |
| `Mmq.MMQ.PushMessageAllocateDrop` | Bricks/mq/inmemory/mq.h:190-204 | in place: takes the head slot exactly when it is FREE, advancing `head_`; otherwise returns the sentinel and changes nothing |
| `Mmq.MMQ.PushMessageAllocateBlock` | Bricks/mq/inmemory/mq.h:207-227 | in place: the sentinel once `destructing_` is set; otherwise takes the FREE head slot, or waits with nothing changed |
| `Mmq.MMQ.PushMessageAllocate` | Bricks/mq/inmemory/mq.h:189-227 | selects the allocation by the overflow policy |
| `Mmq.MMQ.WriteMessage` | Bricks/mq/inmemory/mq.h:95-96 | the allocated slot receives the counter as stamp and the payload |
| `Mmq.MMQ.PushMessageCommit` | Bricks/mq/inmemory/mq.h:229-235 | the written slot becomes READY |
| `Mmq.MMQ.PushMessage` | Bricks/mq/inmemory/mq.h:91-129 | performs exactly the `MmqState.PushMessage` step on the object and keeps the slot layout; a returned call adds one to the counter; a stored message sits READY in the old head slot with the old counter as stamp; otherwise the buffer is unchanged |
| `Mmq.MMQ.ConsumerStep` | Bricks/mq/inmemory/mq.h:147-185 | performs exactly one `MmqState.ConsumerStep` on the object: returns exactly when the flag is set, delivers exactly when a message is pending (the oldest, with the counter), otherwise changes nothing |
| `Mmq.MMQ.ConsumerThread` | Bricks/mq/inmemory/mq.h:142-187 | the consumer loop run until it waits or returns: without the flag it hands over every pending message, oldest first, each with the counter, and leaves the buffer empty; with the flag it returns at once and hands over nothing |
| `Mmq.MMQ.Destruct` | Bricks/mq/inmemory/mq.h:80-83 | sets `destructing_` and nothing else; the pending messages stay where they are |

## Left out

- Threads, the mutex and the condition variable are not modelled. A scenario is a sequence of
  whole pushes, whole consumer passes and teardowns (`MmqScenarios.Run`), not of locked regions.
  Notifications and spurious wake-ups have no counterpart.
- `MmqState.PushMessage`: modelled as one atomic step. In the source, the write, the commit and
  `++total_messages_` happen outside the allocation's lock. The model therefore does not capture
  two things:
  - a consumer that runs between a commit and the increment hands over a counter equal to the
    stamp rather than above it;
  - two producers that read `total_messages_` before either increments it stamp two messages
    with the same number.
  - two overlapping producers can also stamp in the opposite order. For example, P1 allocates
    slot 0 and P2 allocates slot 1; P2 stamps 0 and increments; then P1 stamps 1. The consumer
    then receives stamp 1 before stamp 0.

  These facts therefore hold only when no other step runs inside a push, which a single
  producer does not guarantee:
  - the counter bounds of `MmqInvariant.DeliveryOrder` and `MmqInvariant.Inv`;
  - `MmqInvariant.StampsIncrease` and `MmqInvariant.GapIsDiscards`;
  - the increasing stamps of `MmqInvariant.DeliveryOrder`;
  - the distinct stamps of `MmqScenarios.BlockingLosesNothing`.

  The counter of 26 that `Bricks/mq/inmemory/test.cc:134` expects relies on the same window
  not being hit, and so does the comparison at `Bricks/mq/inmemory/test.cc:175`. There, if the
  consumer hands over the 100th message before its producer increments the counter, the counter
  it hands over is 99.
- `MmqState.ConsumerStep`: one pass of the consumer loop is one step. It fuses three things: the
  locked region that marks the slot BEING_EXPORTED, the unlocked call of the consumer, and the
  locked region that frees the slot. So between steps no slot is BEING_EXPORTED. The model cannot
  show a push that is refused, or that waits, while the consumer is inside its callback with the
  slot still held. `MmqState.BeginExport` and `MmqState.FinishExport` model the two locked
  regions separately, but no scenario interleaves a push between them.
- `Mmq.MMQ.PushMessage`: a producer that would wait on the condition variable is the outcome
  `Blocked` with nothing changed; retrying is calling again. The source waits inside one call.
- `Mmq.MMQ.ConsumerThread`: runs the source's endless loop until it has to wait or returns. It
  does not model being woken again.
- The consumer callback, `blocks::ss::DispatchEntryByRValue` in `Blocks/SS/ss.h`, is not part of
  this model. Each call is recorded as a `Delivery` (payload, stamp, counter) in the class's
  `handed` output and in the delivery log of the invariant. The callback's own behaviour is not
  modelled, including a slow or blocking consumer.
- The copy, move and emplace overloads of `PushMessage` / `EmplaceMessage` differ only in how
  the payload is built, so there is one `PushMessage`. The moved-from payload left in a freed
  slot is not tracked: the slot keeps the value that was written.
- `Mmq.MMQ.constructor`: requires a buffer size above 0. The source accepts 0, and then its
  behaviour is undefined: `Increment` takes a remainder by zero, and the consumer reads slot 0 of
  an empty vector. The template defaults, a buffer of 1024 slots and the blocking policy
  (`DEFAULT_BUFFER_SIZE` and `DROP_ON_OVERFLOW`), are not modelled: both are explicit
  parameters of the constructor.
- `size_t` arithmetic is unbounded `nat` here. `Increment` cannot overflow for a valid index, and
  wrap-around of `total_messages_` after 2^64 calls is not modelled.
- The rest of the destructor: `notify_all`, the join on the consumer thread, and the release of
  the buffer.
- The other files of the repository (FnCAS, TypeSystem, the replication example, `is_tuple.h`)
  are not part of this model.
