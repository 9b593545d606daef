/** Runs of the queue: the situations exercised by the queue's tests, and arbitrary
    interleavings of pushes and consumer passes. */
module MmqScenarios {
  import opened MmqState
  import opened MmqInvariant

  function Min(a: nat, b: nat): nat
  {
    if a <= b then a else b
  }

  /** The first `n` of `msgs`, stamped consecutively from `from`. */
  function Stamped<M>(msgs: seq<M>, from: nat, n: nat): (r: seq<Record<M>>)
    requires n <= |msgs|
    ensures |r| == n
  {
    seq(n, i requires 0 <= i < n => Record(msgs[i], from + i))
  }

  lemma StampedCons<M>(msgs: seq<M>, from: nat, n: nat)
    requires 0 < n <= |msgs|
    ensures Stamped(msgs, from, n) == [Record(msgs[0], from)] + Stamped(msgs[1..], from + 1, n - 1)
  {
  }

  /** Pushes of `msgs` one after another, with no consumer pass in between. */
  function PushAll<M>(s: QueueState<M>, msgs: seq<M>, dropOnOverflow: bool): (r: (seq<PushOutcome>, QueueState<M>))
    requires s.WellFormed()
    ensures |r.0| == |msgs| && r.1.WellFormed() && |r.1.slots| == |s.slots|
    decreases |msgs|
  {
    if msgs == [] then ([], s)
    else
      var (o, s1) := PushMessage(s, msgs[0], dropOnOverflow);
      var (os, t) := PushAll(s1, msgs[1..], dropOnOverflow);
      ([o] + os, t)
  }

  /** `k` passes of the consumer loop, with no push in between. */
  function ConsumeN<M>(s: QueueState<M>, k: nat): (r: (seq<ConsumerOutcome<M>>, QueueState<M>))
    requires s.WellFormed()
    ensures |r.0| == k && r.1.WellFormed() && |r.1.slots| == |s.slots|
    decreases k
  {
    if k == 0 then ([], s)
    else
      var (o, s1) := ConsumerStep(s);
      var (os, t) := ConsumeN(s1, k - 1);
      ([o] + os, t)
  }

  /** The outcomes of one more push in front of a run of pushes, from those of its first
      call and of the rest. */
  lemma OutcomesInFront(count: nat, room: nat, o: PushOutcome, os: seq<PushOutcome>)
    requires count > 0 && o == (if room > 0 then Accepted else Rejected)
    requires var rest := if room > 0 then room - 1 else 0;
      |os| == count - 1 && forall i :: 0 <= i < |os| ==> os[i] == (if i < rest then Accepted else Rejected)
    ensures forall i :: 0 <= i < count ==> ([o] + os)[i] == (if i < room then Accepted else Rejected)
  {
  }

  /** Pushing without consuming: the first calls, as many as there are FREE slots, are stored;
      every later one is discarded under the drop policy. The counter advances by one per call
      either way. */
  lemma {:induction false} Fill<M>(s: QueueState<M>, msgs: seq<M>, dropOnOverflow: bool)
    requires Layout(s)
    requires dropOnOverflow || (!s.destructing && |msgs| <= |s.slots| - Occupancy(s))
    ensures var r := PushAll(s, msgs, dropOnOverflow);
      var room := |s.slots| - Occupancy(s);
      Layout(r.1) &&
      (forall i :: 0 <= i < |msgs| ==> r.0[i] == (if i < room then Accepted else Rejected)) &&
      r.1.total == s.total + |msgs| && r.1.destructing == s.destructing &&
      Occupancy(r.1) == Occupancy(s) + Min(room, |msgs|)
    decreases |msgs|
  {
    if msgs != [] {
      var room := |s.slots| - Occupancy(s);
      var r1 := PushMessage(s, msgs[0], dropOnOverflow);
      assert Layout(r1.1) && r1.1.total == s.total + 1 && r1.1.destructing == s.destructing &&
        Occupancy(r1.1) == Occupancy(s) + (if room > 0 then 1 else 0) &&
        r1.0 == (if room > 0 then Accepted else Rejected)
      by {
        PushMessageOutcome(s, msgs[0], dropOnOverflow);
      }
      Fill(r1.1, msgs[1..], dropOnOverflow);
      OutcomesInFront(|msgs|, room, r1.0, PushAll(r1.1, msgs[1..], dropOnOverflow).0);
    }
  }

  /** The records stored by one more push in front of a run of pushes, from those of its first
      call and of the rest. */
  lemma PendingInFront<M>(msgs: seq<M>, from: nat, from1: nat, room: nat, rest: nat,
                          p0: seq<Record<M>>, p1: seq<Record<M>>, pt: seq<Record<M>>)
    requires |msgs| > 0 && from1 == from + 1 && rest == (if room > 0 then room - 1 else 0)
    requires p1 == p0 + (if room > 0 then [Record(msgs[0], from)] else [])
    requires pt == p1 + Stamped(msgs[1..], from1, Min(rest, |msgs| - 1))
    ensures pt == p0 + Stamped(msgs, from, Min(room, |msgs|))
  {
    if room > 0 {
      StampedCons(msgs, from, Min(room, |msgs|));
    }
  }

  /** One push in front of a run of pushes extends the stored records of the run by its own. */
  lemma PendingStep<M>(s: QueueState<M>, msgs: seq<M>, dropOnOverflow: bool)
    requires Layout(s) && msgs != []
    requires dropOnOverflow || (!s.destructing && |msgs| <= |s.slots| - Occupancy(s))
    requires var s1 := PushMessage(s, msgs[0], dropOnOverflow).1;
      Pending(PushAll(s1, msgs[1..], dropOnOverflow).1) ==
        Pending(s1) + Stamped(msgs[1..], s1.total, Min(|s1.slots| - Occupancy(s1), |msgs| - 1))
    ensures Pending(PushAll(s, msgs, dropOnOverflow).1) ==
      Pending(s) + Stamped(msgs, s.total, Min(|s.slots| - Occupancy(s), |msgs|))
  {
    var room := |s.slots| - Occupancy(s);
    var s1 := PushMessage(s, msgs[0], dropOnOverflow).1;
    assert s1.total == s.total + 1 &&
      |s1.slots| - Occupancy(s1) == (if room > 0 then room - 1 else 0) &&
      Pending(s1) == Pending(s) + (if room > 0 then [Record(msgs[0], s.total)] else [])
    by {
      PushMessageOutcome(s, msgs[0], dropOnOverflow);
    }
    var t := PushAll(s1, msgs[1..], dropOnOverflow).1;
    assert PushAll(s, msgs, dropOnOverflow).1 == t;
    PendingInFront(msgs, s.total, s1.total, room, |s1.slots| - Occupancy(s1), Pending(s), Pending(s1), Pending(t));
  }

  /** Pushing without consuming, continued: the stored calls join the pending messages in the
      order they were made, with consecutive stamps from the counter's value. */
  lemma {:induction false} FillPending<M>(s: QueueState<M>, msgs: seq<M>, dropOnOverflow: bool)
    requires Layout(s)
    requires dropOnOverflow || (!s.destructing && |msgs| <= |s.slots| - Occupancy(s))
    ensures Pending(PushAll(s, msgs, dropOnOverflow).1) ==
      Pending(s) + Stamped(msgs, s.total, Min(|s.slots| - Occupancy(s), |msgs|))
    decreases |msgs|
  {
    if msgs != [] {
      var s1 := PushMessage(s, msgs[0], dropOnOverflow).1;
      PushMessageOutcome(s, msgs[0], dropOnOverflow);
      FillPending(s1, msgs[1..], dropOnOverflow);
      PendingStep(s, msgs, dropOnOverflow);
    }
  }

  /** Consuming without pushing: `k` passes deliver the first `k` pending messages, in order,
      each with the unchanged counter. */
  lemma {:induction false} Drain<M>(s: QueueState<M>, k: nat)
    requires Layout(s) && !s.destructing && k <= Occupancy(s)
    ensures var drained := ConsumeN(s, k);
      var t := drained.1;
      Layout(t) &&
      (forall i :: 0 <= i < k ==> drained.0[i] == Delivered(Delivery(Pending(s)[i].body, Pending(s)[i].stamp, s.total))) &&
      Occupancy(t) == Occupancy(s) - k && Pending(t) == Pending(s)[k..] &&
      t.total == s.total && !t.destructing
    decreases k
  {
    if k > 0 {
      ConsumerStepOutcome(s);
      var (o, s1) := ConsumerStep(s);
      Drain(s1, k - 1);
      assert Pending(s1)[k - 1..] == Pending(s)[k..];
    }
  }

  /** Pushes into an empty buffer: the first calls, up to its size, are stored with consecutive
      stamps from the counter's value. */
  lemma PushIntoEmpty<M>(s: QueueState<M>, msgs: seq<M>, dropOnOverflow: bool)
    requires Layout(s) && Occupancy(s) == 0
    requires dropOnOverflow || (!s.destructing && |msgs| <= |s.slots|)
    ensures var pushed := PushAll(s, msgs, dropOnOverflow);
      var kept := Min(|s.slots|, |msgs|);
      (forall i :: 0 <= i < |msgs| ==> pushed.0[i] == (if i < |s.slots| then Accepted else Rejected)) &&
      Layout(pushed.1) && Occupancy(pushed.1) == kept && Pending(pushed.1) == Stamped(msgs, s.total, kept) &&
      pushed.1.total == s.total + |msgs| && pushed.1.destructing == s.destructing
  {
    Fill(s, msgs, dropOnOverflow);
    FillPending(s, msgs, dropOnOverflow);
    assert Pending(s) == [];
  }

  /** Draining a buffer that holds consecutively stamped messages hands them over in order. */
  lemma DrainStamped<M>(s: QueueState<M>, msgs: seq<M>, from: nat, kept: nat)
    requires Layout(s) && !s.destructing && kept <= |msgs|
    requires Occupancy(s) == kept && Pending(s) == Stamped(msgs, from, kept)
    ensures var drained := ConsumeN(s, kept);
      (forall i :: 0 <= i < kept ==> drained.0[i] == Delivered(Delivery(msgs[i], from + i, s.total))) &&
      Layout(drained.1) && Occupancy(drained.1) == 0 && drained.1.total == s.total && !drained.1.destructing
  {
    Drain(s, kept);
    forall i | 0 <= i < kept
      ensures ConsumeN(s, kept).0[i] == Delivered(Delivery(msgs[i], from + i, s.total))
    {
      assert Pending(s)[i] == Record(msgs[i], from + i);
    }
  }

  /** With room for all of them, pushed messages reach the consumer unchanged, in the order they
      were pushed, with consecutive stamps: the consumer observes no discarded message. */
  lemma InOrderWithoutOverflow<M>(s: QueueState<M>, msgs: seq<M>, dropOnOverflow: bool)
    requires Layout(s) && Occupancy(s) == 0 && !s.destructing && |msgs| <= |s.slots|
    ensures var pushed := PushAll(s, msgs, dropOnOverflow);
      var drained := ConsumeN(pushed.1, |msgs|);
      (forall i :: 0 <= i < |msgs| ==> pushed.0[i] == Accepted) &&
      (forall i :: 0 <= i < |msgs| ==> drained.0[i] == Delivered(Delivery(msgs[i], s.total + i, s.total + |msgs|))) &&
      Occupancy(drained.1) == 0
  {
    PushIntoEmpty(s, msgs, dropOnOverflow);
    DrainStamped(PushAll(s, msgs, dropOnOverflow).1, msgs, s.total, |msgs|);
  }

  /** The drop policy with a paused consumer: of `N` pushes into an empty buffer of `C` slots,
      exactly the first min(N, C) are stored, and draining them delivers them in order with
      stamps 0 to min(N, C) - 1 and counter N; the buffer is then empty again. */
  lemma DropOnOverflowRun<M>(s: QueueState<M>, msgs: seq<M>)
    requires Layout(s) && Occupancy(s) == 0 && s.total == 0 && !s.destructing
    ensures var size, count := |s.slots|, |msgs|;
      var kept := Min(size, count);
      var pushed := PushAll(s, msgs, true);
      var drained := ConsumeN(pushed.1, kept);
      (forall i :: 0 <= i < count ==> pushed.0[i] == (if i < size then Accepted else Rejected)) &&
      (forall i :: 0 <= i < kept ==> drained.0[i] == Delivered(Delivery(msgs[i], i, count))) &&
      Layout(drained.1) && Occupancy(drained.1) == 0 && drained.1.total == count && !drained.1.destructing
  {
    PushIntoEmpty(s, msgs, true);
    DrainStamped(PushAll(s, msgs, true).1, msgs, 0, Min(|s.slots|, |msgs|));
  }

  /** From an empty buffer, one drop-policy push is stored with the counter's value as stamp,
      and the next consumer pass delivers it with the counter one higher. */
  lemma ResumeAfterDrain<M>(s: QueueState<M>, extra: M)
    requires Layout(s) && Occupancy(s) == 0 && !s.destructing
    ensures var (o, s1) := PushMessage(s, extra, true);
      var (last, s2) := ConsumerStep(s1);
      o == Accepted && last == Delivered(Delivery(extra, s.total, s.total + 1)) &&
      Occupancy(s2) == 0 && s2.total == s.total + 1
  {
    PushMessageOutcome(s, extra, true);
    var (o, s1) := PushMessage(s, extra, true);
    assert Pending(s) == [];
    assert Pending(s1) == [Record(extra, s.total)];
    ConsumerStepOutcome(s1);
  }

  function Count(outs: seq<PushOutcome>, o: PushOutcome): nat
  {
    if outs == [] then 0
    else Count(outs[..|outs| - 1], o) + (if outs[|outs| - 1] == o then 1 else 0)
  }

  lemma {:induction false} CountSplit(outs: seq<PushOutcome>, k: nat)
    requires k <= |outs|
    requires forall i :: 0 <= i < |outs| ==> outs[i] == (if i < k then Accepted else Rejected)
    ensures Count(outs, Accepted) == k && Count(outs, Rejected) == |outs| - k
  {
    if |outs| > 0 {
      var n := |outs| - 1;
      if k == |outs| {
        CountSplit(outs[..n], n);
      } else {
        CountSplit(outs[..n], k);
      }
    }
  }

  /** The drop test: a buffer of 10 slots, a paused consumer and 25 pushes. 10 are stored and
      15 discarded; the consumer then sees stamps 0 to 9 with no gap; one more push is
      delivered with stamp 25 and counter 26, a gap of 15 after stamp 9. */
  lemma DropOnOverflowTest<M>(s: QueueState<M>, msgs: seq<M>, extra: M)
    requires Layout(s) && Occupancy(s) == 0 && s.total == 0 && !s.destructing
    requires |s.slots| == 10 && |msgs| == 25
    ensures var (outs, s1) := PushAll(s, msgs, true);
      var (dels, s2) := ConsumeN(s1, 10);
      var (o, s3) := PushMessage(s2, extra, true);
      var (last, s4) := ConsumerStep(s3);
      Count(outs, Accepted) == 10 && Count(outs, Rejected) == 15 &&
      (forall i :: 0 <= i < 10 ==> dels[i].Delivered? && dels[i].d.stamp == i && dels[i].d.body == msgs[i]) &&
      last.Delivered? && last.d.stamp == 25 && last.d.total == 26 &&
      last.d.stamp - dels[9].d.stamp - 1 == 15
  {
    DropOnOverflowRun(s, msgs);
    var (outs, s1) := PushAll(s, msgs, true);
    var (dels, s2) := ConsumeN(s1, 10);
    CountSplit(outs, 10);
    ResumeAfterDrain(s2, extra);
  }

  /** A step of some thread: a producer's push, a pass of the consumer loop, or `~MMQ` setting
      its flag. */
  datatype Step<M> = Push(body: M) | Consume | Teardown

  /** The state, push history and delivery log after the steps `steps`, in that order. */
  function Run<M>(s: QueueState<M>, att: seq<Attempt<M>>, dl: seq<Delivery<M>>, steps: seq<Step<M>>, dropOnOverflow: bool)
    : (r: (QueueState<M>, seq<Attempt<M>>, seq<Delivery<M>>))
    requires s.WellFormed()
    ensures r.0.WellFormed()
    decreases |steps|
  {
    if steps == [] then (s, att, dl)
    else
      match steps[0]
      case Push(body) =>
        var (o, s1) := PushMessage(s, body, dropOnOverflow);
        Run(s1, Logged(att, o, body), dl, steps[1..], dropOnOverflow)
      case Consume =>
        var (o, s1) := ConsumerStep(s);
        Run(s1, att, Received(dl, o), steps[1..], dropOnOverflow)
      case Teardown =>
        Run(Destruct(s), att, dl, steps[1..], dropOnOverflow)
  }

  /** Whatever the interleaving of pushes, consumer passes and teardown, the invariant holds:
      deliveries are exactly the stored messages, in order, and the counter counts the calls. */
  lemma {:induction false} RunPreservesInv<M>(s: QueueState<M>, att: seq<Attempt<M>>, dl: seq<Delivery<M>>, steps: seq<Step<M>>, dropOnOverflow: bool)
    requires Inv(s, att, dl)
    ensures var (t, att', dl') := Run(s, att, dl, steps, dropOnOverflow);
      Inv(t, att', dl') && att <= att' && dl <= dl'
    decreases |steps|
  {
    if steps != [] {
      match steps[0]
      case Push(body) =>
        PushPreservesInv(s, att, dl, body, dropOnOverflow);
        var (o, s1) := PushMessage(s, body, dropOnOverflow);
        RunPreservesInv(s1, Logged(att, o, body), dl, steps[1..], dropOnOverflow);
      case Consume =>
        ConsumerStepPreservesInv(s, att, dl);
        var (o, s1) := ConsumerStep(s);
        RunPreservesInv(s1, att, Received(dl, o), steps[1..], dropOnOverflow);
      case Teardown =>
        DestructAbandonsReady(s, att, dl, s.slots[0].body);
        RunPreservesInv(Destruct(s), att, dl, steps[1..], dropOnOverflow);
    }
  }

  /** The blocking policy loses nothing before teardown: no push is discarded, every delivery
      carries a distinct stamp, and at most one buffer's worth of stored messages is still
      undelivered; once the buffer is empty the consumer has received every message pushed. */
  lemma {:induction false} BlockingLosesNothing<M>(s: QueueState<M>, att: seq<Attempt<M>>, dl: seq<Delivery<M>>, steps: seq<Step<M>>)
    requires Inv(s, att, dl) && !s.destructing && Discards(att) == 0
    requires forall i :: 0 <= i < |steps| ==> !steps[i].Teardown?
    ensures var (t, att', dl') := Run(s, att, dl, steps, false);
      Discards(att') == 0 && !t.destructing &&
      |dl'| + |t.slots| >= t.total &&
      (forall i, j :: 0 <= i < j < |dl'| ==> dl'[i].stamp < dl'[j].stamp) &&
      (Occupancy(t) == 0 ==> |dl'| == t.total)
    decreases |steps|
  {
    if steps == [] {
      AdmittedAccounting(att);
      DeliveryOrder(s, att, dl);
    } else {
      match steps[0]
      case Push(body) =>
        PushPreservesInv(s, att, dl, body, false);
        PushMessageOutcome(s, body, false);
        var (o, s1) := PushMessage(s, body, false);
        var att1 := Logged(att, o, body);
        assert Discards(att1) == 0 by {
          if o == Accepted {
            assert att1[..|att1| - 1] == att;
          }
        }
        BlockingLosesNothing(s1, att1, dl, steps[1..]);
      case Consume =>
        ConsumerStepPreservesInv(s, att, dl);
        var (o, s1) := ConsumerStep(s);
        BlockingLosesNothing(s1, att, Received(dl, o), steps[1..]);
    }
  }
}
