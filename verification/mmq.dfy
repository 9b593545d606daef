/** The queue object: a fixed buffer of slots updated in place, the cursors, the counter and
    the flag its methods update. Each method except `ConsumerThread` performs exactly the
    corresponding MmqState function on the object's fields. `PushMessage`, `ConsumerStep` and
    `Destruct` also keep the slot layout of MmqInvariant. The allocation, write and commit
    methods keep only the buffer's size and the cursors' range, since the layout does not hold
    between the parts of a push. `ConsumerThread` runs passes until it waits or returns, and is
    proved against `Deliveries`. */
module Mmq {
  import opened MmqState
  import opened MmqInvariant

  /** The deliveries the consumer receives for the records `p`, all with counter `total`. */
  function Deliveries<M>(p: seq<Record<M>>, total: nat): (r: seq<Delivery<M>>)
    ensures |r| == |p|
  {
    seq(|p|, i requires 0 <= i < |p| => Delivery(p[i].body, p[i].stamp, total))
  }

  /** Delivering the first of the records still pending, `p0[k..]`, extends the deliveries of
      `p0[..k]` by one. */
  lemma DeliverNext<M>(handed: seq<Delivery<M>>, p0: seq<Record<M>>, k: nat, p: seq<Record<M>>, total: nat)
    requires k < |p0| && p == p0[k..] && handed == Deliveries(p0[..k], total)
    ensures |p| > 0 && p[0] == p0[k] && p[1..] == p0[k + 1..]
    ensures handed + [Delivery(p[0].body, p[0].stamp, total)] == Deliveries(p0[..k + 1], total)
  {
    assert Deliveries(p0[..k + 1], total) == Deliveries(p0[..k], total) + [Delivery(p0[k].body, p0[k].stamp, total)];
  }

  class MMQ<M(0)> {
    /** `circular_buffer_size_`. */
    const capacity: nat
    /** The DROP_ON_OVERFLOW template argument. */
    const dropOnOverflow: bool
    /** `circular_buffer_`: `capacity` slots, reused in place. */
    const buffer: array<Entry<M>>
    /** `head_`: the next slot a producer tries to fill. */
    var head: nat
    /** The consumer thread's `tail`: the next slot it tries to drain. */
    var tail: nat
    /** `total_messages_`: the number of push calls that have returned. */
    var totalMessages: nat
    /** `destructing_`. */
    var destructing: bool

    ghost function State(): QueueState<M>
      reads this, buffer
    {
      QueueState(buffer[..], head, tail, totalMessages, destructing)
    }

    /** The buffer has its fixed size and both cursors lie inside it. */
    ghost predicate Wf()
      reads this, buffer
    {
      buffer.Length == capacity && State().WellFormed()
    }

    /** The `Occupancy` slots from `tail` on are READY and all others FREE. */
    ghost predicate Valid()
      reads this, buffer
    {
      Wf() && Layout(State())
    }

    /** `MMQ(consumer, buffer_size)`: `buffer_size` FREE slots, both cursors and the counter at 0. */
    constructor (bufferSize: nat, dropOnOverflow: bool)
      requires bufferSize > 0
      ensures Valid() && fresh(buffer)
      ensures capacity == bufferSize && this.dropOnOverflow == dropOnOverflow
      ensures head == 0 && tail == 0 && totalMessages == 0 && !destructing
      ensures forall i :: 0 <= i < capacity ==> buffer[i].status == Free
      ensures Occupancy(State()) == 0 && Inv(State(), [], [])
    {
      var blank: M := *;
      capacity := bufferSize;
      this.dropOnOverflow := dropOnOverflow;
      buffer := new Entry<M>[bufferSize](_ => Entry(0, blank, Free));
      head, tail, totalMessages, destructing := 0, 0, 0, false;
      new;
      InitInv(buffer[..]);
    }

    /** `PushMessageAllocate` with DROP_ON_OVERFLOW: takes the head slot when it is FREE,
        otherwise returns the sentinel and changes nothing. */
    method PushMessageAllocateDrop() returns (a: Allocation)
      requires Wf()
      modifies this`head, buffer
      ensures Wf()
      ensures a.Index? <==> old(buffer[head].status) == Free
      ensures a.Index? ==> a.i == old(head) && head == Increment(capacity, old(head)) && buffer[a.i].status == BeingImported
      ensures !a.Index? ==> a == Sentinel && head == old(head) && buffer[..] == old(buffer[..])
      ensures (a, State()) == AllocateDrop(old(State()))
    {
      if buffer[head].status == Free {
        var index := head;
        head := Increment(capacity, head);
        buffer[index] := buffer[index].(status := BeingImported);
        a := Index(index);
      } else {
        a := Sentinel;
      }
    }

    /** `PushMessageAllocate` without DROP_ON_OVERFLOW: the sentinel once `destructing_` is set;
        otherwise the head slot when it is FREE; otherwise the caller would wait, and nothing
        changes. */
    method PushMessageAllocateBlock() returns (a: Allocation)
      requires Wf()
      modifies this`head, buffer
      ensures Wf()
      ensures old(destructing) ==> a == Sentinel
      ensures a.Index? ==> old(buffer[head].status) == Free && a.i == old(head) && buffer[a.i].status == BeingImported
      ensures !a.Index? ==> head == old(head) && buffer[..] == old(buffer[..])
      ensures (a, State()) == AllocateBlock(old(State()))
    {
      if destructing {
        return Sentinel;
      }
      if buffer[head].status != Free {
        return WouldBlock;
      }
      var index := head;
      head := Increment(capacity, head);
      buffer[index] := buffer[index].(status := BeingImported);
      a := Index(index);
    }

    /** `PushMessageAllocate`, specialised by the overflow policy. */
    method PushMessageAllocate() returns (a: Allocation)
      requires Wf()
      modifies this`head, buffer
      ensures Wf()
      ensures (a, State()) == if dropOnOverflow then AllocateDrop(old(State())) else AllocateBlock(old(State()))
    {
      if dropOnOverflow {
        a := PushMessageAllocateDrop();
      } else {
        a := PushMessageAllocateBlock();
      }
    }

    /** The unlocked write of `PushMessage`: stamp the allocated slot with the counter and store
        the payload. */
    method WriteMessage(index: nat, message: M)
      requires Wf() && index < capacity
      modifies buffer
      ensures Wf()
      ensures State() == WriteEntry(old(State()), index, message)
    {
      buffer[index] := buffer[index].(absoluteIndex := totalMessages, body := message);
    }

    /** `PushMessageCommit`: the written slot becomes READY. */
    method PushMessageCommit(index: nat)
      requires Wf() && index < capacity && buffer[index].status == BeingImported
      modifies buffer
      ensures Wf()
      ensures State() == Commit(old(State()), index)
    {
      buffer[index] := buffer[index].(status := Ready);
    }

    /** `PushMessage` / `EmplaceMessage`. A returned call advances the counter by one whether or
        not it stored the message; a stored message is stamped with the counter's old value and
        joins the pending messages behind the others. */
    method PushMessage(message: M) returns (outcome: PushOutcome)
      requires Valid()
      modifies this`head, this`totalMessages, buffer
      ensures Valid()
      ensures (outcome, State()) == MmqState.PushMessage(old(State()), message, dropOnOverflow)
      ensures outcome != Blocked ==> totalMessages == old(totalMessages) + 1
      ensures outcome == Accepted ==> buffer[old(head)] == Entry(old(totalMessages), message, Ready)
      ensures outcome != Accepted ==> buffer[..] == old(buffer[..]) && head == old(head)
    {
      ghost var s0 := State();
      PushMessageOutcome(s0, message, dropOnOverflow);
      var index := PushMessageAllocate();
      if index == WouldBlock {
        // The producer is still waiting on the condition variable: the call has not returned.
        return Blocked;
      }
      ghost var s1 := State();
      outcome := Rejected;
      if index.Index? {
        WriteMessage(index.i, message);
        PushMessageCommit(index.i);
        outcome := Accepted;
      }
      ghost var s2 := State();
      assert s2 == if index.Index? then Commit(WriteEntry(s1, index.i, message), index.i) else s1;
      totalMessages := totalMessages + 1;
      assert State() == Bump(s2);
    }

    /** One pass of `ConsumerThread`'s loop: return once `destructing_` is set, even with a READY
        tail slot; wait while the tail slot is not READY; otherwise hand the oldest pending
        message, its stamp and the counter to the consumer, free the slot and advance `tail`. */
    method ConsumerStep() returns (outcome: ConsumerOutcome<M>)
      requires Valid()
      modifies this`tail, buffer
      ensures Valid()
      ensures (outcome, State()) == MmqState.ConsumerStep(old(State()))
      ensures outcome.Terminated? <==> destructing
      ensures outcome.Delivered? <==> !destructing && old(Occupancy(State())) > 0
      ensures outcome.Delivered? ==>
        Record(outcome.d.body, outcome.d.stamp) == old(Pending(State()))[0] &&
        outcome.d.total == totalMessages &&
        Pending(State()) == old(Pending(State()))[1..]
      ensures !outcome.Delivered? ==> State() == old(State())
    {
      ghost var s0 := State();
      ConsumerStepOutcome(s0);
      if destructing {
        return Terminated;
      }
      if buffer[tail].status != Ready {
        return Waiting;
      }
      buffer[tail] := buffer[tail].(status := BeingExported);
      var e := buffer[tail];
      outcome := Delivered(Delivery(e.body, e.absoluteIndex, totalMessages));
      buffer[tail] := buffer[tail].(status := Free);
      tail := Increment(capacity, tail);
    }

    /** `ConsumerThread` run until it has to wait or returns; `handed` lists the calls of the
        consumer, in order. Unless `destructing_` is set it hands over every pending message,
        oldest first, and then waits on an empty buffer; with the flag set it returns at once
        and hands over nothing. */
    method ConsumerThread() returns (outcome: ConsumerOutcome<M>, handed: seq<Delivery<M>>)
      requires Valid()
      modifies this`tail, buffer
      ensures Valid()
      ensures outcome == (if destructing then Terminated else Waiting)
      ensures old(destructing) ==> State() == old(State()) && handed == []
      ensures !old(destructing) ==>
        Occupancy(State()) == 0 && handed == Deliveries(old(Pending(State())), totalMessages)
    {
      ghost var p0 := Pending(State());
      handed := [];
      while !destructing && buffer[tail].status == Ready
        invariant Valid()
        invariant destructing == old(destructing) && head == old(head) && totalMessages == old(totalMessages)
        invariant old(destructing) ==> State() == old(State()) && handed == []
        invariant |handed| <= |p0| && Occupancy(State()) == |p0| - |handed|
        invariant Pending(State()) == p0[|handed|..]
        invariant handed == Deliveries(p0[..|handed|], totalMessages)
        decreases |p0| - |handed|
      {
        ghost var s := State();
        FullEmptyResolution(s);
        ghost var p := Pending(s);
        var step := ConsumerStep();
        DeliverNext(handed, p0, |handed|, p, totalMessages);
        handed := handed + [step.d];
      }
      ghost var s := State();
      FullEmptyResolution(s);
      outcome := ConsumerStep();
      if !destructing {
        assert State() == s && Occupancy(s) == 0;
        assert p0[..|p0|] == p0;
      }
    }

    /** The locked region of `~MMQ`: set `destructing_`. Pending messages stay where they are. */
    method Destruct()
      requires Valid()
      modifies this`destructing
      ensures Valid()
      ensures State() == MmqState.Destruct(old(State()))
      ensures Pending(State()) == old(Pending(State()))
    {
      SameSlotsSamePending(State(), MmqState.Destruct(State()));
      destructing := true;
    }
  }
}
