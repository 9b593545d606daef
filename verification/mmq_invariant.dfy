/** What the queue keeps true between its steps: the slot layout around the two cursors,
    and the bookkeeping that ties stamps, the counter and the consumer's deliveries to the
    history of push calls. */
module MmqInvariant {
  import opened MmqState

  /** A message as the consumer receives it: payload and stamp. */
  datatype Record<M> = Record(body: M, stamp: nat)

  /** One returned `PushMessage` call: the payload it stored, or a message it discarded. */
  datatype Attempt<M> = Stored(body: M) | Discarded

  /** The index of the slot `j` places after `tail`. */
  function SlotAt<M>(s: QueueState<M>, j: nat): (k: nat)
    requires s.WellFormed() && j < |s.slots|
    ensures k < |s.slots|
  {
    if s.tail + j < |s.slots| then s.tail + j else s.tail + j - |s.slots|
  }

  /** How many messages wait between `tail` and `head_`. When the cursors meet, the status of
      the slot there tells a full buffer from an empty one. */
  function Occupancy<M>(s: QueueState<M>): (n: nat)
    requires s.WellFormed()
    ensures n <= |s.slots|
  {
    if s.head == s.tail then (if s.slots[s.tail].status == Free then 0 else |s.slots|)
    else if s.tail < s.head then s.head - s.tail
    else s.head + |s.slots| - s.tail
  }

  /** Between steps, the `Occupancy` slots from `tail` on are READY and all others FREE. */
  ghost predicate Layout<M>(s: QueueState<M>)
  {
    s.WellFormed() &&
    forall j :: 0 <= j < |s.slots| ==> s.slots[SlotAt(s, j)].status == (if j < Occupancy(s) then Ready else Free)
  }

  function RecordOf<M>(e: Entry<M>): Record<M>
  {
    Record(e.body, e.absoluteIndex)
  }

  /** The messages waiting in the buffer, in the order the consumer will take them. */
  function Pending<M>(s: QueueState<M>): (p: seq<Record<M>>)
    requires s.WellFormed()
    ensures |p| == Occupancy(s)
  {
    seq(Occupancy(s), j requires 0 <= j < Occupancy(s) => RecordOf(s.slots[SlotAt(s, j)]))
  }

  /** The stored messages of a push history, each stamped with the number of calls before it. */
  function Admitted<M>(att: seq<Attempt<M>>): (r: seq<Record<M>>)
    ensures |r| <= |att|
  {
    if att == [] then []
    else
      var n := |att| - 1;
      Admitted(att[..n]) + (if att[n].Stored? then [Record(att[n].body, n)] else [])
  }

  /** The number of discarded messages in a push history. */
  function Discards<M>(att: seq<Attempt<M>>): nat
  {
    if att == [] then 0
    else
      var n := |att| - 1;
      Discards(att[..n]) + (if att[n].Discarded? then 1 else 0)
  }

  /** The history after one more `PushMessage` call with outcome `o`; a blocked call has not returned. */
  function Logged<M>(att: seq<Attempt<M>>, o: PushOutcome, body: M): seq<Attempt<M>>
  {
    match o
    case Accepted => att + [Stored(body)]
    case Rejected => att + [Discarded]
    case Blocked => att
  }

  /** The delivery log after one more pass of the consumer loop. */
  function Received<M>(dl: seq<Delivery<M>>, o: ConsumerOutcome<M>): seq<Delivery<M>>
  {
    if o.Delivered? then dl + [o.d] else dl
  }

  function Records<M>(dl: seq<Delivery<M>>): (r: seq<Record<M>>)
    ensures |r| == |dl|
  {
    seq(|dl|, i requires 0 <= i < |dl| => Record(dl[i].body, dl[i].stamp))
  }

  /** The queue's invariant, given the history `att` of push calls and the log `dl` of deliveries:
      the counter counts the calls, what was delivered followed by what is pending is exactly what
      was stored, and every delivery carried a counter above its stamp, never decreasing. */
  ghost predicate Inv<M>(s: QueueState<M>, att: seq<Attempt<M>>, dl: seq<Delivery<M>>)
  {
    Layout(s) &&
    |att| == s.total &&
    Records(dl) + Pending(s) == Admitted(att) &&
    (forall i :: 0 <= i < |dl| ==> dl[i].stamp < dl[i].total <= s.total) &&
    (forall i, j :: 0 <= i < j < |dl| ==> dl[i].total <= dl[j].total)
  }

  // ---------------------------------------------------------------------------------------
  // Stamps and drop accounting

  /** Every call is either stored or discarded. */
  lemma {:induction false} AdmittedAccounting<M>(att: seq<Attempt<M>>)
    ensures |Admitted(att)| + Discards(att) == |att|
  {
    if att != [] {
      AdmittedAccounting(att[..|att| - 1]);
    }
  }

  /** The k-th stored message carries the number of calls before it, which is k plus the
      number of messages discarded before it. */
  lemma {:induction false} AdmittedStamp<M>(att: seq<Attempt<M>>, k: nat)
    requires k < |Admitted(att)|
    ensures Admitted(att)[k].stamp < |att|
    ensures att[Admitted(att)[k].stamp] == Stored(Admitted(att)[k].body)
    ensures Admitted(att)[k].stamp == k + Discards(att[..Admitted(att)[k].stamp])
  {
    var n := |att| - 1;
    var pre := att[..n];
    if k < |Admitted(pre)| {
      AdmittedStamp(pre, k);
      var st := Admitted(pre)[k].stamp;
      assert pre[..st] == att[..st];
    } else {
      AdmittedAccounting(pre);
      assert att[..n] == pre;
    }
  }

  /** Stamps strictly increase along the stored messages. */
  lemma {:induction false} StampsIncrease<M>(att: seq<Attempt<M>>, k1: nat, k2: nat)
    requires k1 < k2 < |Admitted(att)|
    ensures Admitted(att)[k1].stamp < Admitted(att)[k2].stamp
  {
    var n := |att| - 1;
    var pre := att[..n];
    if k2 < |Admitted(pre)| {
      StampsIncrease(pre, k1, k2);
    } else {
      AdmittedStamp(pre, k1);
    }
  }

  lemma {:induction false} DiscardsAppend<M>(a: seq<Attempt<M>>, b: seq<Attempt<M>>)
    ensures Discards(a + b) == Discards(a) + Discards(b)
  {
    if b != [] {
      var n := |b| - 1;
      assert (a + b)[..|a + b| - 1] == a + b[..n];
      DiscardsAppend(a, b[..n]);
    } else {
      assert a + b == a;
    }
  }

  /** The gap between two consecutive stamps, less one, is the number of messages discarded
      between them. */
  lemma GapIsDiscards<M>(att: seq<Attempt<M>>, k: nat)
    requires k + 1 < |Admitted(att)|
    ensures var a, b := Admitted(att)[k].stamp, Admitted(att)[k + 1].stamp;
      a < b <= |att| && b - a - 1 == Discards(att[a + 1..b])
  {
    var a, b := Admitted(att)[k].stamp, Admitted(att)[k + 1].stamp;
    AdmittedStamp(att, k);
    AdmittedStamp(att, k + 1);
    StampsIncrease(att, k, k + 1);
    assert att[..b] == att[..a] + [att[a]] + att[a + 1..b];
    DiscardsAppend(att[..a] + [att[a]], att[a + 1..b]);
    DiscardsAppend(att[..a], [att[a]]);
    assert [att[a]][..0] == [];
  }

  // ---------------------------------------------------------------------------------------
  // The slot layout

  /** `head_` is the first slot after the pending ones. When `head_` and `tail` meet, the
      buffer is either empty or full, and the status of that one slot says which. */
  lemma FullEmptyResolution<M>(s: QueueState<M>)
    requires Layout(s)
    ensures s.slots[s.head].status == Free <==> Occupancy(s) < |s.slots|
    ensures s.slots[s.tail].status == Ready <==> Occupancy(s) > 0
    ensures s.head == s.tail ==> Occupancy(s) == 0 || Occupancy(s) == |s.slots|
    ensures Occupancy(s) < |s.slots| ==> s.head == SlotAt(s, Occupancy(s))
  {
    assert SlotAt(s, 0) == s.tail;
    if Occupancy(s) < |s.slots| {
      assert s.head == SlotAt(s, Occupancy(s));
    }
  }

  /** The layout and the pending messages depend only on the slots and the two cursors. */
  lemma SameSlotsSamePending<M>(s: QueueState<M>, t: QueueState<M>)
    requires Layout(s) && t.slots == s.slots && t.head == s.head && t.tail == s.tail
    ensures Layout(t) && Occupancy(t) == Occupancy(s) && Pending(t) == Pending(s)
  {
    assert forall j :: 0 <= j < |s.slots| ==> SlotAt(t, j) == SlotAt(s, j);
  }

  /** `t` is `s` with entry `e` put in the head slot and `head_` advanced. */
  ghost predicate Stores<M>(s: QueueState<M>, t: QueueState<M>, e: Entry<M>)
  {
    s.WellFormed() && t.slots == s.slots[s.head := e] &&
    t.head == Increment(|s.slots|, s.head) && t.tail == s.tail
  }

  lemma StoreOccupancy<M>(s: QueueState<M>, t: QueueState<M>, e: Entry<M>)
    requires Layout(s) && s.slots[s.head].status == Free && e.status == Ready && Stores(s, t, e)
    ensures t.WellFormed() && Occupancy(t) == Occupancy(s) + 1
  {
    FullEmptyResolution(s);
    var n := Occupancy(s);
    assert SlotAt(s, 0) == s.tail;
    if n + 1 == |s.slots| && n > 0 {
      assert t.slots[t.tail] == s.slots[SlotAt(s, 0)];
    }
  }

  lemma StoreLayout<M>(s: QueueState<M>, t: QueueState<M>, e: Entry<M>)
    requires Layout(s) && s.slots[s.head].status == Free && e.status == Ready && Stores(s, t, e)
    requires t.WellFormed() && Occupancy(t) == Occupancy(s) + 1
    ensures Layout(t)
  {
    FullEmptyResolution(s);
    forall j | 0 <= j < |t.slots|
      ensures t.slots[SlotAt(t, j)].status == (if j < Occupancy(t) then Ready else Free)
    {
      assert SlotAt(t, j) == SlotAt(s, j);
    }
  }

  lemma StorePending<M>(s: QueueState<M>, t: QueueState<M>, e: Entry<M>)
    requires Layout(s) && s.slots[s.head].status == Free && e.status == Ready && Stores(s, t, e)
    requires t.WellFormed() && Occupancy(t) == Occupancy(s) + 1
    ensures Pending(t) == Pending(s) + [RecordOf(e)]
  {
    FullEmptyResolution(s);
    var n := Occupancy(s);
    forall j | 0 <= j < n
      ensures Pending(t)[j] == Pending(s)[j]
    {
      assert SlotAt(t, j) == SlotAt(s, j) != s.head;
    }
    assert SlotAt(t, n) == s.head;
  }

  /** A stored push: the FREE head slot joins the pending messages, stamped with the counter. */
  lemma StoreExtendsPending<M>(s: QueueState<M>, body: M)
    requires Layout(s) && s.slots[s.head].status == Free
    ensures var t := Bump(Commit(WriteEntry(Acquire(s), s.head, body), s.head));
      Layout(t) && Occupancy(t) == Occupancy(s) + 1 &&
      Pending(t) == Pending(s) + [Record(body, s.total)] &&
      t.tail == s.tail && t.total == s.total + 1 && t.destructing == s.destructing
  {
    var t := Bump(Commit(WriteEntry(Acquire(s), s.head, body), s.head));
    var e := Entry(s.total, body, Ready);
    assert Stores(s, t, e) by {
      assert t.slots == s.slots[s.head := e];
    }
    StoreOccupancy(s, t, e);
    StoreLayout(s, t, e);
    StorePending(s, t, e);
  }

  /** `t` is `s` with the tail slot FREE and `tail` advanced. */
  ghost predicate Frees<M>(s: QueueState<M>, t: QueueState<M>)
  {
    s.WellFormed() && t.slots == s.slots[s.tail := s.slots[s.tail].(status := Free)] &&
    t.tail == Increment(|s.slots|, s.tail) && t.head == s.head
  }

  /** Advancing `tail` shifts the slot positions by one. */
  lemma FreesShifts<M>(s: QueueState<M>, t: QueueState<M>)
    requires Frees(s, t)
    ensures t.WellFormed() && SlotAt(s, 0) == s.tail && SlotAt(t, |s.slots| - 1) == s.tail
    ensures forall j :: 0 <= j < |s.slots| - 1 ==> SlotAt(t, j) == SlotAt(s, j + 1)
  {
  }

  lemma ExportOccupancy<M>(s: QueueState<M>, t: QueueState<M>)
    requires Layout(s) && s.slots[s.tail].status == Ready && Frees(s, t)
    ensures t.WellFormed() && Occupancy(s) > 0 && Occupancy(t) == Occupancy(s) - 1
  {
    FullEmptyResolution(s);
    FreesShifts(s, t);
    var n := Occupancy(s);
    if n == 1 {
      if |s.slots| > 1 {
        assert t.head == t.tail == SlotAt(s, 1);
      }
    } else {
      assert t.head != t.tail;
    }
  }

  lemma ExportLayout<M>(s: QueueState<M>, t: QueueState<M>)
    requires Layout(s) && s.slots[s.tail].status == Ready && Frees(s, t)
    requires t.WellFormed() && Occupancy(t) == Occupancy(s) - 1
    ensures Layout(t)
  {
    FreesShifts(s, t);
    var size := |s.slots|;
    forall j | 0 <= j < size
      ensures t.slots[SlotAt(t, j)].status == (if j < Occupancy(t) then Ready else Free)
    {
      if j < size - 1 {
        assert SlotAt(t, j) == SlotAt(s, j + 1) != s.tail;
      }
    }
  }

  lemma ExportPending<M>(s: QueueState<M>, t: QueueState<M>)
    requires Layout(s) && s.slots[s.tail].status == Ready && Frees(s, t)
    requires t.WellFormed() && Occupancy(s) > 0 && Occupancy(t) == Occupancy(s) - 1
    ensures Pending(s)[0] == RecordOf(s.slots[s.tail])
    ensures Pending(t) == Pending(s)[1..]
  {
    FreesShifts(s, t);
    forall j | 0 <= j < Occupancy(t)
      ensures Pending(t)[j] == Pending(s)[j + 1]
    {
      assert SlotAt(t, j) == SlotAt(s, j + 1) != s.tail;
    }
  }

  /** One delivery: the READY tail slot leaves the pending messages and becomes FREE. */
  lemma ExportShrinksPending<M>(s: QueueState<M>)
    requires Layout(s) && s.slots[s.tail].status == Ready
    ensures var t := FinishExport(BeginExport(s));
      Layout(t) && Occupancy(s) > 0 && Occupancy(t) == Occupancy(s) - 1 &&
      Pending(s)[0] == RecordOf(s.slots[s.tail]) &&
      Pending(t) == Pending(s)[1..] &&
      t.head == s.head && t.total == s.total && t.destructing == s.destructing
  {
    var t := FinishExport(BeginExport(s));
    assert Frees(s, t) by {
      assert t.slots == s.slots[s.tail := s.slots[s.tail].(status := Free)];
    }
    ExportOccupancy(s, t);
    ExportLayout(s, t);
    ExportPending(s, t);
  }

  // ---------------------------------------------------------------------------------------
  // The operations

  lemma AdmittedSnoc<M>(att: seq<Attempt<M>>, a: Attempt<M>)
    ensures Admitted(att + [a]) == Admitted(att) + (if a.Stored? then [Record(a.body, |att|)] else [])
  {
    assert (att + [a])[..|att|] == att;
  }

  /** Which outcome a push has. Under the drop policy it is stored exactly when the buffer is
      not full, whatever `destructing_` says; under the blocking policy it is refused once
      `destructing_` is set and otherwise stored, or waits while the buffer is full. A returned
      call advances the counter by one; a stored message joins the pending ones stamped with
      the counter's old value; nothing else changes. */
  lemma PushMessageOutcome<M>(s: QueueState<M>, body: M, dropOnOverflow: bool)
    requires Layout(s)
    ensures var (o, t) := PushMessage(s, body, dropOnOverflow);
      var room := Occupancy(s) < |s.slots|;
      Layout(t) &&
      (o == Accepted <==> room && (dropOnOverflow || !s.destructing)) &&
      (o == Blocked <==> !room && !dropOnOverflow && !s.destructing) &&
      (o == Blocked ==> t == s) &&
      (o != Blocked ==> t.total == s.total + 1 && t.tail == s.tail && t.destructing == s.destructing) &&
      (o == Accepted ==> Occupancy(t) == Occupancy(s) + 1 && Pending(t) == Pending(s) + [Record(body, s.total)]) &&
      (o == Rejected ==> t == s.(total := s.total + 1) && Occupancy(t) == Occupancy(s) && Pending(t) == Pending(s))
  {
    FullEmptyResolution(s);
    if s.slots[s.head].status == Free && (dropOnOverflow || !s.destructing) {
      StoreExtendsPending(s, body);
    } else {
      SameSlotsSamePending(s, s.(total := s.total + 1));
    }
  }

  /** Every push keeps the invariant, and the history records exactly the call that returned. */
  lemma PushPreservesInv<M>(s: QueueState<M>, att: seq<Attempt<M>>, dl: seq<Delivery<M>>, body: M, dropOnOverflow: bool)
    requires Inv(s, att, dl)
    ensures var (o, t) := PushMessage(s, body, dropOnOverflow);
      Inv(t, Logged(att, o, body), dl)
  {
    PushMessageOutcome(s, body, dropOnOverflow);
    var (o, t) := PushMessage(s, body, dropOnOverflow);
    match o
    case Accepted =>
      AdmittedSnoc(att, Stored(body));
      assert Records(dl) + Pending(t) == Admitted(att + [Stored(body)]);
    case Rejected =>
      AdmittedSnoc(att, Discarded);
      assert Pending(t) == Pending(s);
    case Blocked =>
  }

  /** One pass of the consumer loop. It returns exactly when `destructing_` is set, even with a
      READY tail slot; otherwise it delivers exactly when a message is pending, and then it hands
      over the oldest pending message with the current counter, which exceeds its stamp. */
  lemma ConsumerStepOutcome<M>(s: QueueState<M>)
    requires Layout(s)
    ensures var (o, t) := ConsumerStep(s);
      Layout(t) &&
      (o.Terminated? <==> s.destructing) &&
      (o.Delivered? <==> !s.destructing && Occupancy(s) > 0) &&
      (!o.Delivered? ==> t == s) &&
      (o.Delivered? ==>
        Record(o.d.body, o.d.stamp) == Pending(s)[0] && o.d.total == s.total &&
        Pending(t) == Pending(s)[1..] && t.head == s.head && t.total == s.total && t.destructing == s.destructing)
  {
    FullEmptyResolution(s);
    if !s.destructing && s.slots[s.tail].status == Ready {
      ExportShrinksPending(s);
    }
  }

  /** Every pass of the consumer loop keeps the invariant, the delivered message being the next
      stored one, in order. */
  lemma ConsumerStepPreservesInv<M>(s: QueueState<M>, att: seq<Attempt<M>>, dl: seq<Delivery<M>>)
    requires Inv(s, att, dl)
    ensures var (o, t) := ConsumerStep(s);
      Inv(t, att, Received(dl, o)) &&
      (o.Delivered? ==> |dl| < |Admitted(att)| && Record(o.d.body, o.d.stamp) == Admitted(att)[|dl|])
  {
    ConsumerStepOutcome(s);
    var (o, t) := ConsumerStep(s);
    if o.Delivered? {
      var p := Pending(s);
      assert Admitted(att)[|dl|] == p[0];
      AdmittedStamp(att, |dl|);
      assert Records(dl + [o.d]) == Records(dl) + [p[0]];
      assert Records(dl) + [p[0]] + p[1..] == Records(dl) + p;
    }
  }

  /** What the consumer has received is a prefix of what was stored, in order: no message
      skipped, none repeated, stamps strictly increasing, each stamp equal to its position plus
      the number of messages discarded before it. The counter handed over with a message
      exceeds its stamp, never decreases from one delivery to the next, and never exceeds the
      number of calls so far. */
  lemma DeliveryOrder<M>(s: QueueState<M>, att: seq<Attempt<M>>, dl: seq<Delivery<M>>)
    requires Inv(s, att, dl)
    ensures Records(dl) == Admitted(att)[..|dl|]
    ensures forall i, j :: 0 <= i < j < |dl| ==> dl[i].stamp < dl[j].stamp
    ensures forall k :: 0 <= k < |dl| ==> dl[k].stamp == k + Discards(att[..dl[k].stamp])
    ensures forall k :: 0 <= k < |dl| ==> dl[k].stamp + 1 <= dl[k].total <= |att|
    ensures forall i, j :: 0 <= i < j < |dl| ==> dl[i].total <= dl[j].total
  {
    var adm := Admitted(att);
    assert Records(dl) == adm[..|dl|];
    forall i, j | 0 <= i < j < |dl|
      ensures dl[i].stamp < dl[j].stamp
    {
      assert Records(dl)[i] == adm[i] && Records(dl)[j] == adm[j];
      StampsIncrease(att, i, j);
    }
    forall k | 0 <= k < |dl|
      ensures dl[k].stamp == k + Discards(att[..dl[k].stamp])
    {
      assert Records(dl)[k] == adm[k];
      AdmittedStamp(att, k);
    }
  }

  /** With nothing pending, everything stored has been delivered. When nothing was discarded,
      the counter handed over with the last delivery equals the number of deliveries. */
  lemma DrainedMeansAllDelivered<M>(s: QueueState<M>, att: seq<Attempt<M>>, dl: seq<Delivery<M>>)
    requires Inv(s, att, dl) && Occupancy(s) == 0
    ensures Records(dl) == Admitted(att)
    ensures |dl| + Discards(att) == s.total
    ensures Discards(att) == 0 && |dl| > 0 ==> dl[|dl| - 1].total == |dl|
  {
    DeliveryOrder(s, att, dl);
    assert Records(dl) + Pending(s) == Records(dl);
    AdmittedAccounting(att);
  }

  /** After `~MMQ` sets the flag, the consumer returns at once: READY messages stay in the
      buffer undelivered, and blocking pushes are refused; drop-policy pushes still store while
      there is room, since that allocation never looks at the flag. */
  lemma DestructAbandonsReady<M>(s: QueueState<M>, att: seq<Attempt<M>>, dl: seq<Delivery<M>>, body: M)
    requires Inv(s, att, dl)
    ensures var d := Destruct(s);
      Inv(d, att, dl) && Pending(d) == Pending(s) &&
      ConsumerStep(d) == (Terminated, d) &&
      PushMessage(d, body, false).0 == Rejected &&
      (PushMessage(d, body, true).0 == Accepted <==> Occupancy(s) < |s.slots|)
  {
    var d := Destruct(s);
    SameSlotsSamePending(s, d);
    PushMessageOutcome(d, body, true);
  }

  /** A producer blocked on a full buffer is not stuck: one pass of the consumer frees the head
      slot, after which the same push is stored. */
  lemma BlockedPushProgresses<M>(s: QueueState<M>, att: seq<Attempt<M>>, dl: seq<Delivery<M>>, body: M)
    requires Inv(s, att, dl) && PushMessage(s, body, false).0 == Blocked
    ensures ConsumerStep(s).0.Delivered?
    ensures PushMessage(ConsumerStep(s).1, body, false).0 == Accepted
  {
    PushMessageOutcome(s, body, false);
    ConsumerStepOutcome(s);
    PushMessageOutcome(ConsumerStep(s).1, body, false);
  }

  /** A freshly built queue (all slots FREE, both cursors and the counter at 0, the flag clear)
      meets the invariant with an empty push history and an empty delivery log, so every
      property proved from `Inv` applies to the queues the constructor builds. */
  lemma InitInv<M>(slots: seq<Entry<M>>)
    requires 0 < |slots| && forall i :: 0 <= i < |slots| ==> slots[i].status == Free
    ensures var s := QueueState(slots, 0, 0, 0, false);
      Inv(s, [], []) && Occupancy(s) == 0 && Pending(s) == []
  {
  }
}
