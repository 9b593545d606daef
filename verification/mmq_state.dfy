/** The in-memory message queue MMQ as values: its slots, its cursors and counter, and
    each of its mutex-protected steps as a function from the old state to the new one. */
module MmqState {

  /** The four states of one slot of the circular buffer (mq.h:248). */
  datatype Status = Free | BeingImported | Ready | BeingExported

  /** The only status a slot may move to from `st`: the life cycle is
      FREE -> BEING_IMPORTED -> READY -> BEING_EXPORTED -> FREE. */
  function NextStatus(st: Status): Status
  {
    match st
    case Free => BeingImported
    case BeingImported => Ready
    case Ready => BeingExported
    case BeingExported => Free
  }

  /** One slot: the stamp (`absolute_index`), the payload (`message_body`) and the status. */
  datatype Entry<M> = Entry(absoluteIndex: nat, body: M, status: Status)

  /** Everything the queue keeps: the circular buffer, the producer cursor `head_`, the
      consumer cursor `tail`, the counter `total_messages_` and the flag `destructing_`. */
  datatype QueueState<M> = QueueState(slots: seq<Entry<M>>, head: nat, tail: nat, total: nat, destructing: bool)
  {
    /** A non-empty buffer with both cursors inside it. */
    predicate WellFormed()
    {
      0 < |slots| && head < |slots| && tail < |slots|
    }
  }

  /** What `PushMessageAllocate` yields: a slot index, the sentinel `size_t(-1)`, or, for the
      blocking policy, that the caller would now wait on the condition variable. */
  datatype Allocation = Index(i: nat) | Sentinel | WouldBlock

  /** What a `PushMessage` call yields: true, false, or still waiting (the call has not returned). */
  datatype PushOutcome = Accepted | Rejected | Blocked

  /** The arguments of one call of the consumer: payload, its stamp, and the running counter. */
  datatype Delivery<M> = Delivery(body: M, stamp: nat, total: nat)

  /** One pass of the consumer loop: a delivery, a wait for the tail slot, or the loop's return. */
  datatype ConsumerOutcome<M> = Delivered(d: Delivery<M>) | Waiting | Terminated

  /** `t` differs from `s` only in the status of slot `i`, which took one step of the life cycle. */
  ghost predicate MovesOne<M>(s: seq<Entry<M>>, t: seq<Entry<M>>, i: nat)
  {
    |t| == |s| && i < |s| &&
    t[i] == s[i].(status := NextStatus(s[i].status)) &&
    forall k :: 0 <= k < |s| && k != i ==> t[k] == s[k]
  }

  /** `Increment`: advance a cursor, wrapping around the end of the buffer. */
  function Increment(size: nat, i: nat): (r: nat)
    requires i < size
    ensures r < size
    ensures r == if i == size - 1 then 0 else i + 1
  {
    (i + 1) % size
  }

  function SetStatus<M>(s: QueueState<M>, i: nat, st: Status): QueueState<M>
    requires i < |s.slots|
  {
    s.(slots := s.slots[i := s.slots[i].(status := st)])
  }

  /** The locked region both allocation policies share: the FREE slot at `head_` becomes
      BEING_IMPORTED and `head_` advances. */
  function Acquire<M>(s: QueueState<M>): (t: QueueState<M>)
    requires s.WellFormed() && s.slots[s.head].status == Free
    ensures t.WellFormed() && MovesOne(s.slots, t.slots, s.head)
    ensures t.head == Increment(|s.slots|, s.head) && t.tail == s.tail && t.total == s.total && t.destructing == s.destructing
  {
    SetStatus(s, s.head, BeingImported).(head := Increment(|s.slots|, s.head))
  }

  /** `PushMessageAllocate` with DROP_ON_OVERFLOW: never waits; `destructing_` is not consulted. */
  function AllocateDrop<M>(s: QueueState<M>): (r: (Allocation, QueueState<M>))
    requires s.WellFormed()
    ensures r.1.WellFormed() && |r.1.slots| == |s.slots|
    ensures r.0 != WouldBlock
    ensures r.0.Index? <==> s.slots[s.head].status == Free
    ensures r.0.Index? ==> r.0.i == s.head && r.1.slots[s.head].status == BeingImported
    ensures r.0.Index? ==> MovesOne(s.slots, r.1.slots, s.head) && r.1.head == Increment(|s.slots|, s.head)
    ensures r.0.Index? ==> r.1.tail == s.tail && r.1.total == s.total && r.1.destructing == s.destructing
    ensures !r.0.Index? ==> r.1 == s
  {
    if s.slots[s.head].status == Free then (Index(s.head), Acquire(s)) else (Sentinel, s)
  }

  /** `PushMessageAllocate` without DROP_ON_OVERFLOW: the sentinel once `destructing_` is set,
      otherwise the head slot if it is FREE, otherwise the caller waits. */
  function AllocateBlock<M>(s: QueueState<M>): (r: (Allocation, QueueState<M>))
    requires s.WellFormed()
    ensures r.1.WellFormed() && |r.1.slots| == |s.slots|
    ensures s.destructing ==> r == (Sentinel, s)
    ensures r.0.Index? <==> !s.destructing && s.slots[s.head].status == Free
    ensures r.0 == WouldBlock <==> !s.destructing && s.slots[s.head].status != Free
    ensures r.0.Index? ==> r.0.i == s.head && r.1.slots[s.head].status == BeingImported
    ensures r.0.Index? ==> MovesOne(s.slots, r.1.slots, s.head) && r.1.head == Increment(|s.slots|, s.head)
    ensures r.0.Index? ==> r.1.tail == s.tail && r.1.total == s.total && r.1.destructing == s.destructing
    ensures !r.0.Index? ==> r.1 == s
  {
    if s.destructing then (Sentinel, s)
    else if s.slots[s.head].status == Free then (Index(s.head), Acquire(s))
    else (WouldBlock, s)
  }

  /** The unlocked write in `PushMessage`: stamp slot `i` with the running counter, store the payload. */
  function WriteEntry<M>(s: QueueState<M>, i: nat, body: M): (t: QueueState<M>)
    requires i < |s.slots|
    ensures |t.slots| == |s.slots| && t.slots[i] == Entry(s.total, body, s.slots[i].status)
    ensures forall k :: 0 <= k < |s.slots| && k != i ==> t.slots[k] == s.slots[k]
    ensures t.head == s.head && t.tail == s.tail && t.total == s.total && t.destructing == s.destructing
  {
    s.(slots := s.slots[i := s.slots[i].(absoluteIndex := s.total, body := body)])
  }

  /** `PushMessageCommit`: the written slot becomes READY. */
  function Commit<M>(s: QueueState<M>, i: nat): (t: QueueState<M>)
    requires i < |s.slots| && s.slots[i].status == BeingImported
    ensures MovesOne(s.slots, t.slots, i)
    ensures t.head == s.head && t.tail == s.tail && t.total == s.total && t.destructing == s.destructing
  {
    SetStatus(s, i, Ready)
  }

  /** `++total_messages_`, done by every push that returns. */
  function Bump<M>(s: QueueState<M>): (t: QueueState<M>)
    ensures t.total == s.total + 1
    ensures t.slots == s.slots && t.head == s.head && t.tail == s.tail && t.destructing == s.destructing
  {
    s.(total := s.total + 1)
  }

  /** `PushMessage` / `EmplaceMessage`: allocate by the configured policy; on success write and
      commit; whether or not the message was stored, count the call once it returns. */
  function PushMessage<M>(s: QueueState<M>, body: M, dropOnOverflow: bool): (r: (PushOutcome, QueueState<M>))
    requires s.WellFormed()
    ensures r.1.WellFormed() && |r.1.slots| == |s.slots|
    ensures r.0 == Blocked <==> !dropOnOverflow && !s.destructing && s.slots[s.head].status != Free
    ensures r.0 == Blocked ==> r.1 == s
    ensures r.0 != Blocked ==> r.1.total == s.total + 1
    ensures r.0 == Accepted ==> r.1.slots[s.head] == Entry(s.total, body, Ready)
    ensures r.1.tail == s.tail && r.1.destructing == s.destructing
  {
    var (a, s1) := if dropOnOverflow then AllocateDrop(s) else AllocateBlock(s);
    match a
    case Index(i) => (Accepted, Bump(Commit(WriteEntry(s1, i, body), i)))
    case Sentinel => (Rejected, Bump(s1))
    case WouldBlock => (Blocked, s)
  }

  /** First locked region of the consumer loop: the READY tail slot becomes BEING_EXPORTED. */
  function BeginExport<M>(s: QueueState<M>): (t: QueueState<M>)
    requires s.WellFormed() && s.slots[s.tail].status == Ready
    ensures t.WellFormed() && MovesOne(s.slots, t.slots, s.tail)
    ensures t.head == s.head && t.tail == s.tail && t.total == s.total && t.destructing == s.destructing
  {
    SetStatus(s, s.tail, BeingExported)
  }

  /** Last locked region of the consumer loop: the exported slot becomes FREE and `tail` advances. */
  function FinishExport<M>(s: QueueState<M>): (t: QueueState<M>)
    requires s.WellFormed() && s.slots[s.tail].status == BeingExported
    ensures t.WellFormed() && MovesOne(s.slots, t.slots, s.tail)
    ensures t.tail == Increment(|s.slots|, s.tail) && t.head == s.head && t.total == s.total && t.destructing == s.destructing
  {
    SetStatus(s, s.tail, Free).(tail := Increment(|s.slots|, s.tail))
  }

  /** One pass of `ConsumerThread`'s loop. Once `destructing_` is set it returns, READY or not;
      otherwise it waits until the tail slot is READY, then exports and frees it. */
  function ConsumerStep<M>(s: QueueState<M>): (r: (ConsumerOutcome<M>, QueueState<M>))
    requires s.WellFormed()
    ensures r.1.WellFormed() && |r.1.slots| == |s.slots|
    ensures r.0.Terminated? <==> s.destructing
    ensures r.0.Delivered? <==> !s.destructing && s.slots[s.tail].status == Ready
    ensures r.0.Delivered? ==> r.0.d == Delivery(s.slots[s.tail].body, s.slots[s.tail].absoluteIndex, s.total)
    ensures r.0.Delivered? ==> r.1.slots[s.tail].status == Free && r.1.tail == Increment(|s.slots|, s.tail)
    ensures !r.0.Delivered? ==> r.1 == s
    ensures r.1.head == s.head && r.1.total == s.total && r.1.destructing == s.destructing
  {
    if s.destructing then (Terminated, s)
    else if s.slots[s.tail].status != Ready then (Waiting, s)
    else
      var s1 := BeginExport(s);
      var e := s1.slots[s1.tail];
      (Delivered(Delivery(e.body, e.absoluteIndex, s1.total)), FinishExport(s1))
  }

  /** The locked region of `~MMQ`: set `destructing_`. */
  function Destruct<M>(s: QueueState<M>): (t: QueueState<M>)
    ensures t.destructing
    ensures t.slots == s.slots && t.head == s.head && t.tail == s.tail && t.total == s.total
  {
    s.(destructing := true)
  }
}
