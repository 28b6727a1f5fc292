/**
 What a completion reports for a WR that no frame answers. Recording a WR does not clear the
 status of its ring slot, so the WR reports what the last one in that slot left behind.
 */
module StaleStatus {
  import opened Words
  import opened SideChannel
  import opened Rings
  import opened Provider
  import opened ProviderQueues

  /** Acks answer WRITEs and responses answer READs; nothing answers these. */
  predicate Silent(op: Op) {
    op != Write && op != Read
  }

  /** The status of a WR nobody answers. */
  function Unanswered(n: Node, i: nat): U32
    requires i < |n.stale|
  {
    if i in n.timedOut then ACK_TIMEOUT_ERR else n.stale[i]
  }

  /** What a completed WR leaves in its slot. */
  function Left(n: Node, i: nat): U32
    requires i < |n.done|
  {
    if i in n.late then ACK_TIMEOUT_ERR else n.done[i].status
  }

  /** The i-th WR posted, completed or outstanding, and its slot; a negative i is a slot not used yet. */
  ghost predicate SlotTrue(n: Node, i: int)
    requires NodeOk(n) && |n.done| <= |n.posted| == |n.stale| && i < |n.posted|
  {
    var status := n.out.slots[i % MAX_OUT].status;
    if i < 0 then status == 0
    else if i < |n.done| then status == Left(n, i)
    else Silent(n.posted[i].wr.op) ==> status == Unanswered(n, i)
  }

  ghost predicate Slots(n: Node)
    requires NodeOk(n) && |n.done| <= |n.posted| == |n.stale|
  {
    forall i :: |n.posted| - MAX_OUT <= i < |n.posted| ==> SlotTrue(n, i)
  }

  /** What the j-th WR found in its slot: what the WR 4096 before it left there, at first zero. */
  ghost predicate StaleTrue(n: Node)
    requires |n.posted| < |n.done| + MAX_OUT && |n.posted| == |n.stale|
  {
    forall j :: 0 <= j < |n.posted| ==> n.stale[j] == if j < MAX_OUT then 0 else Left(n, j - MAX_OUT)
  }

  ghost predicate DoneSilent(n: Node)
    requires |n.done| <= |n.posted| == |n.stale|
  {
    forall j :: 0 <= j < |n.done| && Silent(n.posted[j].wr.op) ==> n.done[j].status == Unanswered(n, j)
  }

  ghost predicate Marks(n: Node) {
    (forall i :: i in n.timedOut ==> i < |n.posted|) && (forall i :: i in n.late ==> i < |n.done|)
  }

  ghost predicate Places(n: Node) {
    && |n.done| <= |n.posted| == |n.stale| && |n.posted| < |n.done| + MAX_OUT
    && n.out.head == |n.done| % MAX_OUT && n.out.tail == |n.posted| % MAX_OUT
    && (n.poster.Recorded? ==> n.posted != [])
  }

  ghost predicate Stale(n: Node)
    requires NodeOk(n)
  {
    Places(n) && Slots(n) && StaleTrue(n) && DoneSilent(n) && Marks(n)
  }

  /** Neighbouring WRs of a window of 4096 have slots of their own. */
  lemma OwnSlot(i: int, j: int)
    requires i - MAX_OUT < j < i + MAX_OUT && i != j
    ensures i % MAX_OUT != j % MAX_OUT
  {
  }

  /** One slot changes, the one of WR i0; what that slot must say is given. */
  lemma OneSlot(n: Node, n': Node, i0: int)
    requires NodeOk(n) && NodeOk(n') && Places(n) && Slots(n)
    requires n'.posted == n.posted && n'.stale == n.stale && n'.done == n.done
    requires |n.posted| - MAX_OUT <= i0 < |n.posted| && SlotTrue(n', i0)
    requires n'.out.slots == n.out.slots[i0 % MAX_OUT := n'.out.slots[i0 % MAX_OUT]]
    requires n'.timedOut == n.timedOut || (i0 >= |n.done| && n'.timedOut == n.timedOut + {i0})
    requires n'.late == n.late || (i0 >= 0 && n'.late == n.late + {i0})
    ensures Slots(n')
  {
    forall i | |n'.posted| - MAX_OUT <= i < |n'.posted| ensures SlotTrue(n', i) {
      if i != i0 {
        OwnSlot(i, i0);
        assert SlotTrue(n, i);
      }
    }
  }

  /** The k-th outstanding entry is in the slot of WR |done| + k, with the op of that WR. */
  lemma LiveSlot(n: Node, k: nat)
    requires NodeOk(n) && InOrder(n) && Places(n) && k < Count(n.out)
    ensures |n.done| + k < |n.posted|
    ensures Slot(n.out, k) == (|n.done| + k) % MAX_OUT
    ensures n.out.slots[Slot(n.out, k)].op == n.posted[|n.done| + k].wr.op
    ensures n.out.slots[Slot(n.out, k)].lva == JobDest(n.posted[|n.done| + k].wr)
  {
    hide Queues;
    assert Matches(Live(n.out)[k], n.posted[|n.done| + k]);
  }

  lemma RingCount(n: Node)
    requires NodeOk(n) && InOrder(n)
    ensures |n.done| + Count(n.out) == |n.posted| && |n.posted| < |n.done| + MAX_OUT
  {
    hide Queues;
  }

  /** Steps that change no entry, no posting and no completion. */
  lemma Kept(n: Node, n': Node)
    requires NodeOk(n) && NodeOk(n') && Stale(n)
    requires n'.out == n.out && n'.posted == n.posted && n'.done == n.done && n'.stale == n.stale
    requires n'.timedOut == n.timedOut && n'.late == n.late && (n'.poster.Recorded? ==> n.poster.Recorded?)
    ensures Stale(n')
  {
    hide Left, Unanswered, Silent;
    UnansweredSame(n, n');
    LeftSame(n, n');
    forall i | |n'.posted| - MAX_OUT <= i < |n'.posted| ensures SlotTrue(n', i) {
      assert SlotTrue(n, i);
    }
  }

  lemma UnansweredSame(n: Node, n': Node)
    requires n'.stale == n.stale && n'.timedOut == n.timedOut
    ensures forall j :: 0 <= j < |n.stale| ==> Unanswered(n', j) == Unanswered(n, j)
  {
  }

  lemma LeftSame(n: Node, n': Node)
    requires n'.done == n.done && n'.late == n.late
    ensures forall j :: 0 <= j < |n.done| ==> Left(n', j) == Left(n, j)
  {
  }

  // ---- polling ----

  /** The oldest outstanding entry changes: WR |done|. */
  lemma HeadStale(n: Node, n': Node)
    requires NodeOk(n) && NodeOk(n') && Stale(n) && |n.done| < |n.posted|
    requires n'.posted == n.posted && n'.stale == n.stale && n'.done == n.done && n'.late == n.late && n'.poster == n.poster
    requires n'.timedOut == n.timedOut || n'.timedOut == n.timedOut + {|n.done|}
    requires n'.out == Set(n.out, n.out.head, n'.out.slots[n.out.head])
    requires Silent(n.posted[|n.done|].wr.op) ==> n'.out.slots[n.out.head].status == Unanswered(n', |n.done|)
    ensures Stale(n')
  {
    OneSlot(n, n', |n.done|);
    LeftSame(n, n');
    hide Slots;
  }

  lemma SettleStale(n: Node, wireErr: bool)
    requires NodeOk(n) && InOrder(n) && Stale(n) && n.out.head != n.out.tail
    ensures Stale(Settle(n, wireErr))
  {
    RingCount(n);
    LiveSlot(n, 0);
    assert SlotTrue(n, |n.done|);
    hide InOrder, Slots, StaleTrue, DoneSilent;
    HeadStale(n, Settle(n, wireErr));
  }

  lemma WaitedStale(n: Node)
    requires NodeOk(n) && InOrder(n) && Stale(n) && n.out.head != n.out.tail
    ensures Stale(Waited(n))
  {
    RingCount(n);
    assert SlotTrue(n, |n.done|);
    hide InOrder, Slots, StaleTrue, DoneSilent;
    HeadStale(n, Waited(n));
  }

  lemma RetireStale(n: Node)
    requires NodeOk(n) && InOrder(n) && Stale(n) && n.out.head != n.out.tail
    ensures Stale(Retire(n))
  {
    hide InOrder, Slots, StaleTrue, DoneSilent, Live;
    RingCount(n);
    RetiredStale(n, Retire(n));
  }

  /** The oldest outstanding WR completes with what is in its slot. */
  lemma RetiredStale(n: Node, n': Node)
    requires NodeOk(n) && NodeOk(n') && Stale(n) && Places(n') && |n.done| < |n.posted|
    requires n'.posted == n.posted && n'.stale == n.stale && n'.timedOut == n.timedOut && n'.late == n.late
    requires n'.out.slots == n.out.slots && |n'.done| == |n.done| + 1 && n'.done[..|n.done|] == n.done
    requires n'.done[|n.done|].status == n.out.slots[|n.done| % MAX_OUT].status
    ensures Stale(n')
  {
    hide NodeOk, Silent;
    assert SlotTrue(n, |n.done|);
    assert forall j :: 0 <= j < |n.done| ==> n'.done[j] == n.done[j];
    assert forall j :: 0 <= j < |n.done| ==> Left(n', j) == Left(n, j);
    assert forall j :: 0 <= j < |n.stale| ==> Unanswered(n', j) == Unanswered(n, j);
    hide Unanswered;
    forall i | |n'.posted| - MAX_OUT <= i < |n'.posted| ensures SlotTrue(n', i) {
      assert SlotTrue(n, i);
    }
    hide SlotTrue;
  }

  lemma {:induction false} HarvestStale(n: Node, wireErr: bool, flits: nat, backstop: nat)
    requires NodeOk(n) && InOrder(n) && Stale(n)
    ensures Stale(Harvest(n, wireErr, flits, backstop))
    decreases Count(n.out)
  {
    hide InOrder, Stale, Settle, Waited;
    if n.out.head == n.out.tail {
    } else {
      var n1 := Settle(n, wireErr);
      SettleInOrder(n, wireErr);
      SettleStale(n, wireErr);
      if !Provider.Unanswered(n1.out.slots[n1.out.head]) {
        var waits := !wireErr && flits == 0;
        var n2 := if waits then Waited(n1) else n1;
        if waits {
          WaitedInOrder(n1);
          WaitedStale(n1);
        }
        if !(waits && n2.out.slots[n2.out.head].waited <= backstop) && !Full(n2.jfcs[n2.sendJfc].ring) {
          RetireInOrder(n2);
          RetireStale(n2);
          HarvestStale(Retire(n2), wireErr, if flits > 0 then flits - 1 else 0, backstop);
        }
      }
    }
  }

  lemma PollStale(n: Node, jfc: nat, count: int, wireErr: bool, flits: nat, backstop: nat)
    requires NodeOk(n) && InOrder(n) && Stale(n) && jfc < |n.jfcs|
    ensures Stale(Poll(n, jfc, count, wireErr, flits, backstop))
  {
    hide Harvest, Take, InOrder, Stale;
    HarvestStale(n, wireErr, flits, backstop);
    Kept(Harvest(n, wireErr, flits, backstop), Poll(n, jfc, count, wireErr, flits, backstop));
  }

  // ---- frames and posting ----

  /** An answer goes to a WRITE or a READ, never to a WR nobody answers. */
  lemma AnsweredStale(n: Node, n': Node, k: nat, status: U32)
    requires NodeOk(n) && NodeOk(n') && InOrder(n) && Stale(n) && k < Count(n.out)
    requires n.out.slots[Slot(n.out, k)].op == Write || n.out.slots[Slot(n.out, k)].lva != 0
    requires n'.out == Answered(n.out, k, status) && n'.posted == n.posted && n'.done == n.done
    requires n'.stale == n.stale && n'.timedOut == n.timedOut && n'.late == n.late && n'.poster == n.poster
    ensures Stale(n')
  {
    RingCount(n);
    LiveSlot(n, k);
    hide InOrder;
    OneSlot(n, n', |n.done| + k);
    UnansweredSame(n, n');
    LeftSame(n, n');
    hide Slots;
  }

  lemma FrameStale(n: Node, f: Frame, alloc: Alloc)
    requires NodeOk(n) && InOrder(n) && Stale(n) && (f.SendMsg? ==> f.len <= |f.data|)
    ensures Stale(OnFrame(n, f, alloc))
  {
    hide InOrder, Stale, First, Placed, RegionValid;
    var n' := OnFrame(n, f, alloc);
    match f
    case WriteAck(req, status) =>
      var k := First(Live(n.out), (e: Entry) => AwaitsAck(e, req));
      if k < Count(n.out) {
        AnsweredStale(n, n', k, status);
      } else {
        Kept(n, n');
      }
    case ReadRsp(req, len, status, data) =>
      var k := First(Live(n.out), (e: Entry) => AwaitsData(e, req));
      if k < Count(n.out) {
        AnsweredStale(n, n', k, n'.out.slots[Slot(n.out, k)].status);
      } else {
        Kept(n, n');
      }
    case _ => Kept(n, n');
  }

  /** A WR is recorded over the oldest slot of the window and finds what is there. */
  lemma RecordStale(n: Node, submitted: bool)
    requires NodeOk(n) && InOrder(n) && Stale(n) && n.poster.Built?
    ensures Stale(Record(n, submitted))
  {
    hide InOrder, Slots, StaleTrue, DoneSilent, Left, Unanswered;
    if !submitted {
      Kept(n, Record(n, submitted));
    } else {
      RingCount(n);
      var n' := Record(n, submitted);
      RecordInOrder(n, submitted);
      RingCount(n');
      hide Record;
      RecordedSlots(n, n');
      FoundInSlot(n);
      RecordedStale(n, n');
    }
  }

  /** The slot at the tail has what the WR 4096 earlier left, at first zero. */
  lemma FoundInSlot(n: Node)
    requires NodeOk(n) && Places(n) && Slots(n)
    ensures var p := |n.posted|;
      n.out.slots[p % MAX_OUT].status == if p < MAX_OUT then 0 else Left(n, p - MAX_OUT)
  {
    hide Left;
    var p := |n.posted|;
    assert SlotTrue(n, p - MAX_OUT);
    assert (p - MAX_OUT) % MAX_OUT == p % MAX_OUT;
  }

  lemma RecordedStale(n: Node, n': Node)
    requires NodeOk(n) && NodeOk(n') && Places(n) && Places(n') && StaleTrue(n) && DoneSilent(n) && Marks(n)
    requires |n'.posted| == |n.posted| + 1 && n'.posted[..|n.posted|] == n.posted && n'.done == n.done
    requires n'.stale == n.stale + [if |n.posted| < MAX_OUT then 0 else Left(n, |n.posted| - MAX_OUT)]
    requires n'.timedOut == n.timedOut && n'.late == n.late
    ensures StaleTrue(n') && DoneSilent(n')
  {
    hide Left, NodeOk;
    LeftSame(n, n');
    forall j | 0 <= j < |n.done| && Silent(n'.posted[j].wr.op) ensures n'.done[j].status == Unanswered(n', j) {
      assert n'.posted[j] == n'.posted[..|n.posted|][j];
    }
  }

  lemma RecordedSlots(n: Node, n': Node)
    requires NodeOk(n) && NodeOk(n') && Places(n) && Slots(n) && Marks(n)
    requires |n'.posted| == |n.posted| + 1 && n'.posted[..|n.posted|] == n.posted && n'.done == n.done
    requires n'.stale == n.stale + [n.out.slots[|n.posted| % MAX_OUT].status]
    requires n'.timedOut == n.timedOut && n'.late == n.late
    requires n'.out.slots == n.out.slots[|n.posted| % MAX_OUT := n'.out.slots[|n.posted| % MAX_OUT]]
    requires n'.out.slots[|n.posted| % MAX_OUT].status == n.out.slots[|n.posted| % MAX_OUT].status
    ensures Slots(n')
  {
    forall i | |n'.posted| - MAX_OUT <= i < |n'.posted| ensures SlotTrue(n', i) {
      if i != |n.posted| {
        OwnSlot(i, |n.posted|);
        assert SlotTrue(n, i);
        assert i >= 0 ==> n'.posted[i] == n'.posted[..|n.posted|][i];
      }
    }
  }

  /** The WR just recorded is failed, outstanding or already completed. */
  lemma RefusedStale(n: Node)
    requires NodeOk(n) && InOrder(n) && Stale(n) && n.poster.Recorded?
    ensures Stale(SendRefused(n))
  {
    hide InOrder, Slots, Live;
    RingCount(n);
    var n', p := SendRefused(n), |n.posted| - 1;
    assert LastSlot(n.out) == p % MAX_OUT;
    OneSlot(n, n', p);
    assert forall j :: 0 <= j < |n.done| && j != p ==> Left(n', j) == Left(n, j);
    assert forall j :: 0 <= j < |n.done| ==> Unanswered(n', j) == Unanswered(n, j);
  }

  lemma StepStale(s: Side, step: Step)
    requires Enabled(s, step) && InOrder(s.node) && Stale(s.node)
    ensures Stale(Do(s, step).node)
  {
    hide InOrder, Stale, OnFrame, Poll, SendRefused, Record, Parse, PlanWr;
    var n, n' := s.node, Do(s, step).node;
    match step
    case RecordStep(submitted) => RecordStale(n, submitted);
    case SendStep(sent) =>
      if n.poster.frame.Some? && sent == Refused {
        RefusedStale(n);
      } else {
        Kept(n, n');
      }
    case DeliverStep(alloc) =>
      var p := Parse(Tag(s.rx[0]), Body(s.rx[0]));
      if p.Some? {
        FrameStale(n, p.value, alloc);
      } else {
        Kept(n, n');
      }
    case PollStep(jfc, count, wireErr, flits, backstop) => PollStale(n, jfc, count, wireErr, flits, backstop);
    case BuildStep(dst, cna, room) =>
      NotRecorded(n, dst, cna, room);
      Kept(n, n');
    case _ => Kept(n, n');
  }

  lemma NotRecorded(n: Node, dst: U32, cna: U32, room: bool)
    requires NodeOk(n) && n.poster.Checked?
    ensures !Build(n, dst, cna, room).poster.Recorded?
  {
  }
}
