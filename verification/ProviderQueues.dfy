/**
 Exactly-once, in-order completion on one node, whatever frames arrive and however post, poll,
 receive and wire failure interleave.
 */
module ProviderQueues {
  import opened Words
  import opened GuestMemory
  import opened SideChannel
  import opened Rings
  import opened Provider

  /** An outstanding entry carries its WR. */
  predicate Matches(e: Entry, job: Job) {
    && e.uctx == job.wr.uctx && e.op == job.wr.op
    && e.len == JobLen(job.wr) && e.lva == JobDest(job.wr)
  }

  /** A completion is the one of its WR. */
  predicate Completes(cr: Cr, job: Job) {
    cr.uctx == job.wr.uctx && cr.len == JobLen(job.wr) && cr.send == (job.wr.op == Send)
  }

  /** The outstanding ring holds exactly the posted WRs that have not completed, in order. */
  ghost predicate Outstanding(out: Ring<Entry>, posted: seq<Job>, done: seq<Cr>)
    requires Ok(out)
  {
    && |done| + Count(out) == |posted|
    && (forall k :: 0 <= k < Count(out) ==> Matches(Live(out)[k], posted[|done| + k]))
    && (forall k :: 0 <= k < |done| ==> Completes(done[k], posted[k]))
  }

  /** Between its full test and its record step the posting thread has a slot to itself. */
  predicate Reserved(poster: Poster, out: Ring<Entry>)
    requires Ok(out)
  {
    poster.Checked? || poster.Built? ==> !Full(out)
  }

  function Records(placed: seq<(bool, Cr)>): seq<Cr> {
    seq(|placed|, i requires 0 <= i < |placed| => placed[i].1)
  }

  /** The send completions among the records a JFC was given. */
  function Sends(placed: seq<(bool, Cr)>): seq<Cr> {
    if placed == [] then []
    else
      var last := placed[|placed| - 1];
      Sends(placed[..|placed| - 1]) + if last.0 then [] else [last.1]
  }

  /** The ring holds what was placed and not yet polled. */
  ghost predicate Lossless(j: Jfc)
    requires JfcOk(j)
  {
    Records(j.placed) == j.polled + Live(j.ring)
  }

  predicate JfcsOk(jfcs: seq<Jfc>) {
    forall i :: 0 <= i < |jfcs| ==> JfcOk(jfcs[i])
  }

  ghost predicate Queues(jfcs: seq<Jfc>, sendJfc: nat, done: seq<Cr>)
    requires JfcsOk(jfcs)
  {
    && (forall i :: 0 <= i < |jfcs| ==> Lossless(jfcs[i]))
    && (forall i :: 0 <= i < |jfcs| ==> Sends(jfcs[i].placed) == if i == sendJfc then done else [])
  }

  ghost predicate InOrder(n: Node)
    requires NodeOk(n)
  {
    && Outstanding(n.out, n.posted, n.done) && Reserved(n.poster, n.out)
    && Queues(n.jfcs, n.sendJfc, n.done)
  }

  // ---- the completion rings ----

  lemma PlacedLossless(j: Jfc, recv: bool, cr: Cr)
    requires JfcOk(j) && Lossless(j) && !Full(j.ring)
    ensures Lossless(Placed(j, recv, cr))
    ensures Sends(Placed(j, recv, cr).placed) == Sends(j.placed) + if recv then [] else [cr]
  {
    PushLive(j.ring, cr);
    var j' := Placed(j, recv, cr);
    assert j'.placed[..|j'.placed| - 1] == j.placed;
    assert Records(j'.placed) == Records(j.placed) + [cr];
  }

  lemma {:induction false} TakeLossless(j: Jfc, count: int)
    requires JfcOk(j) && Lossless(j)
    ensures Lossless(Take(j, count)) && Take(j, count).placed == j.placed
    decreases Count(j.ring)
  {
    if count > 0 && j.ring.head != j.ring.tail {
      PopLive(j.ring);
      var x := j.ring.slots[j.ring.head];
      assert Live(j.ring)[0] == x;
      var j' := j.(ring := Pop(j.ring), polled := j.polled + [x]);
      assert Lossless(j') by {
        assert Live(j.ring) == [x] + Live(j'.ring);
        assert j.polled + ([x] + Live(j'.ring)) == (j.polled + [x]) + Live(j'.ring);
      }
      TakeLossless(j', count - 1);
    }
  }

  lemma JfcPlaced(jfcs: seq<Jfc>, sendJfc: nat, done: seq<Cr>, i: nat, recv: bool, cr: Cr)
    requires JfcsOk(jfcs) && i < |jfcs| && Queues(jfcs, sendJfc, done)
    requires !Full(jfcs[i].ring) && (recv || i == sendJfc)
    ensures Queues(jfcs[i := Placed(jfcs[i], recv, cr)], sendJfc, if recv then done else done + [cr])
  {
    PlacedLossless(jfcs[i], recv, cr);
    if recv {
      assert Sends(jfcs[i].placed) + [] == Sends(jfcs[i].placed);
    }
  }

  lemma JfcTaken(jfcs: seq<Jfc>, sendJfc: nat, done: seq<Cr>, i: nat, count: int)
    requires JfcsOk(jfcs) && i < |jfcs| && Queues(jfcs, sendJfc, done)
    ensures Queues(jfcs[i := Take(jfcs[i], count)], sendJfc, done)
  {
    hide Take;
    TakeLossless(jfcs[i], count);
  }

  // ---- the outstanding ring ----

  /** Overwriting the k-th live entry without touching its WR keeps the books. */
  lemma EntryKept(out: Ring<Entry>, posted: seq<Job>, done: seq<Cr>, k: nat, e: Entry)
    requires Ok(out) && Outstanding(out, posted, done) && k < Count(out)
    requires Matches(e, posted[|done| + k])
    ensures Outstanding(Set(out, Slot(out, k), e), posted, done)
  {
    SetLive(out, k, e);
  }

  lemma HeadKept(out: Ring<Entry>, posted: seq<Job>, done: seq<Cr>, e: Entry)
    requires Ok(out) && Outstanding(out, posted, done) && out.head != out.tail
    requires var e0 := out.slots[out.head]; e == e0.(req := e.req, status := e.status, waited := e.waited)
    ensures Outstanding(Set(out, out.head, e), posted, done)
  {
    assert Slot(out, 0) == out.head && Live(out)[0] == out.slots[out.head];
    assert Matches(Live(out)[0], posted[|done| + 0]);
    EntryKept(out, posted, done, 0, e);
  }

  lemma Retired(out: Ring<Entry>, posted: seq<Job>, done: seq<Cr>)
    requires Ok(out) && Outstanding(out, posted, done) && out.head != out.tail
    ensures Outstanding(Pop(out), posted, done + [Completion(out.slots[out.head])])
    ensures !Full(Pop(out))
  {
    PopLive(out);
    assert Live(out)[0] == out.slots[out.head];
    assert Matches(Live(out)[0], posted[|done| + 0]);
    var done' := done + [Completion(out.slots[out.head])];
    forall k | 0 <= k < Count(Pop(out)) ensures Matches(Live(Pop(out))[k], posted[|done'| + k]) {
      assert Matches(Live(out)[k + 1], posted[|done| + (k + 1)]);
    }
  }

  lemma AnswerKept(out: Ring<Entry>, posted: seq<Job>, done: seq<Cr>, k: nat, status: U32)
    requires Ok(out) && Outstanding(out, posted, done) && k < Count(out)
    ensures Outstanding(Answered(out, k, status), posted, done)
  {
    assert Matches(Live(out)[k], posted[|done| + k]);
    EntryKept(out, posted, done, k, out.slots[Slot(out, k)].(status := status, req := 0));
  }

  lemma Pushed(out: Ring<Entry>, posted: seq<Job>, done: seq<Cr>, job: Job, e: Entry)
    requires Ok(out) && Outstanding(out, posted, done) && !Full(out) && Matches(e, job)
    ensures Outstanding(Push(out, e), posted + [job], done)
  {
    PushLive(out, e);
  }

  lemma LastSlotIs(out: Ring<Entry>, i: nat)
    requires Ok(out) && Live(out) != [] && i < |out.slots| && Next(i, |out.slots|) == out.tail
    ensures Live(out)[Count(out) - 1] == out.slots[i]
  {
    assert i == Slot(out, Count(out) - 1);
  }

  lemma LastKept(out: Ring<Entry>, posted: seq<Job>, done: seq<Cr>, i: nat, e: Entry)
    requires Ok(out) && Outstanding(out, posted, done) && i < |out.slots| && Next(i, |out.slots|) == out.tail
    requires var e0 := out.slots[i]; e == e0.(req := e.req, status := e.status)
    ensures Outstanding(Set(out, i, e), posted, done)
  {
    hide Live;
    SetLast(out, i, e);
    if Live(out) != [] {
      LastSlotIs(out, i);
      assert Matches(Live(out)[Count(out) - 1], posted[|done| + (Count(out) - 1)]);
    }
  }

  // ---- polling ----

  lemma SettleInOrder(n: Node, wireErr: bool)
    requires NodeOk(n) && InOrder(n) && n.out.head != n.out.tail
    ensures InOrder(Settle(n, wireErr))
  {
    hide Outstanding, Queues;
    HeadKept(n.out, n.posted, n.done, Settle(n, wireErr).out.slots[n.out.head]);
  }

  lemma WaitedInOrder(n: Node)
    requires NodeOk(n) && InOrder(n) && n.out.head != n.out.tail
    ensures InOrder(Waited(n))
  {
    hide Outstanding, Queues;
    HeadKept(n.out, n.posted, n.done, Waited(n).out.slots[n.out.head]);
  }

  lemma RetireInOrder(n: Node)
    requires NodeOk(n) && InOrder(n) && n.out.head != n.out.tail && !Full(n.jfcs[n.sendJfc].ring)
    ensures InOrder(Retire(n))
  {
    hide Outstanding, Queues;
    Retired(n.out, n.posted, n.done);
    JfcPlaced(n.jfcs, n.sendJfc, n.done, n.sendJfc, false, Completion(n.out.slots[n.out.head]));
  }

  lemma {:induction false} HarvestInOrder(n: Node, wireErr: bool, flits: nat, backstop: nat)
    requires NodeOk(n) && InOrder(n)
    ensures InOrder(Harvest(n, wireErr, flits, backstop))
    decreases Count(n.out)
  {
    hide InOrder, Settle, Waited;
    if n.out.head != n.out.tail {
      var n1 := Settle(n, wireErr);
      SettleInOrder(n, wireErr);
      if !Unanswered(n1.out.slots[n1.out.head]) {
        var waits := !wireErr && flits == 0;
        var n2 := if waits then Waited(n1) else n1;
        WaitedInOrder(n1);
        if !(waits && n2.out.slots[n2.out.head].waited <= backstop) && !Full(n2.jfcs[n2.sendJfc].ring) {
          RetireInOrder(n2);
          HarvestInOrder(Retire(n2), wireErr, if flits > 0 then flits - 1 else 0, backstop);
        }
      }
    }
  }

  lemma PollInOrder(n: Node, jfc: nat, count: int, wireErr: bool, flits: nat, backstop: nat)
    requires NodeOk(n) && InOrder(n) && jfc < |n.jfcs|
    ensures InOrder(Poll(n, jfc, count, wireErr, flits, backstop))
  {
    hide Outstanding, Queues, Harvest, Take;
    HarvestInOrder(n, wireErr, flits, backstop);
    var n1 := Harvest(n, wireErr, flits, backstop);
    JfcTaken(n1.jfcs, n1.sendJfc, n1.done, jfc, count);
  }

  // ---- frames and posting ----

  lemma AckInOrder(n: Node, req: U32, status: U32)
    requires NodeOk(n) && InOrder(n)
    ensures InOrder(OnWriteAck(n, req, status))
  {
    hide Outstanding, Queues, First;
    var k := First(Live(n.out), (e: Entry) => AwaitsAck(e, req));
    if k < Count(n.out) {
      AnswerKept(n.out, n.posted, n.done, k, status);
    }
  }

  lemma DataInOrder(n: Node, req: U32, len: U32, status: U32, data: seq<Byte>)
    requires NodeOk(n) && InOrder(n)
    ensures InOrder(OnReadRsp(n, req, len, status, data))
  {
    hide Outstanding, Queues, First;
    var k := First(Live(n.out), (e: Entry) => AwaitsData(e, req));
    if k < Count(n.out) {
      AnswerKept(n.out, n.posted, n.done, k, status);
      AnswerKept(n.out, n.posted, n.done, k, REM_RESP_LEN_ERR);
    }
  }

  lemma SendInOrder(n: Node, len: U32, data: seq<Byte>)
    requires NodeOk(n) && InOrder(n) && len <= |data|
    ensures InOrder(OnSend(n, len, data))
  {
    hide Outstanding, Queues;
    if n.rq.head != n.rq.tail && !Full(n.jfcs[n.recvJfc].ring) {
      var b := n.rq.slots[n.rq.head];
      var cp: U32 := if len < b.len then len else b.len;
      JfcPlaced(n.jfcs, n.sendJfc, n.done, n.recvJfc, true, Cr(0, true, cp, b.uctx));
    }
  }

  lemma FrameInOrder(n: Node, f: Frame, alloc: Alloc)
    requires NodeOk(n) && InOrder(n) && (f.SendMsg? ==> f.len <= |f.data|)
    ensures InOrder(OnFrame(n, f, alloc))
  {
    hide OnWriteAck, OnReadRsp, OnSend, Outstanding, Queues;
    match f
    case WriteAck(req, status) => AckInOrder(n, req, status);
    case SendMsg(_, len, data) => SendInOrder(n, len, data);
    case ReadRsp(req, len, status, data) => DataInOrder(n, req, len, status, data);
    case _ =>
  }

  lemma RecordInOrder(n: Node, submitted: bool)
    requires NodeOk(n) && InOrder(n) && n.poster.Built?
    ensures InOrder(Record(n, submitted))
  {
    hide Outstanding, Queues;
    if submitted {
      var e := Record(n, true).out.slots[n.out.tail];
      Pushed(n.out, n.posted, n.done, n.poster.job, e);
    }
  }

  lemma RefusedInOrder(n: Node)
    requires NodeOk(n) && InOrder(n)
    ensures InOrder(SendRefused(n))
  {
    hide Outstanding, Queues;
    var i := LastSlot(n.out);
    LastKept(n.out, n.posted, n.done, i, n.out.slots[i].(status := ACK_TIMEOUT_ERR, req := 0));
  }

  /** Every step keeps the books, whatever frame arrives. */
  lemma StepInOrder(s: Side, step: Step)
    requires Enabled(s, step) && InOrder(s.node)
    ensures InOrder(Do(s, step).node)
  {
    hide Outstanding, Queues, OnFrame, Poll, SendRefused, Record, Parse;
    var n := s.node;
    match step
    case RecordStep(submitted) => RecordInOrder(n, submitted);
    case SendStep(sent) =>
      if n.poster.frame.Some? && sent == Refused {
        RefusedInOrder(n);
      }
    case DeliverStep(alloc) =>
      var p := Parse(Tag(s.rx[0]), Body(s.rx[0]));
      if p.Some? {
        FrameInOrder(n, p.value, alloc);
      }
    case PollStep(jfc, count, wireErr, flits, backstop) => PollInOrder(n, jfc, count, wireErr, flits, backstop);
    case _ =>
  }

  // ---- history only grows ----

  predicate JfcExtends(j: Jfc, j': Jfc) {
    j.placed <= j'.placed && j.polled <= j'.polled
  }

  predicate Extends(n: Node, n': Node) {
    && n.posted <= n'.posted && n.done <= n'.done && n'.sendJfc == n.sendJfc && |n'.jfcs| == |n.jfcs|
    && forall i :: 0 <= i < |n.jfcs| ==> JfcExtends(n.jfcs[i], n'.jfcs[i])
  }

  lemma ExtendsSelf(n: Node)
    ensures Extends(n, n)
  {
  }

  lemma ExtendsTwice(n0: Node, n1: Node, n2: Node)
    requires Extends(n0, n1) && Extends(n1, n2)
    ensures Extends(n0, n2)
  {
    assert forall i :: 0 <= i < |n0.jfcs| ==> JfcExtends(n0.jfcs[i], n1.jfcs[i]) && JfcExtends(n1.jfcs[i], n2.jfcs[i]);
  }

  lemma {:induction false} TakeExtends(j: Jfc, count: int)
    requires JfcOk(j)
    ensures JfcExtends(j, Take(j, count))
    decreases Count(j.ring)
  {
    if count > 0 && j.ring.head != j.ring.tail {
      TakeExtends(j.(ring := Pop(j.ring), polled := j.polled + [j.ring.slots[j.ring.head]]), count - 1);
    }
  }

  lemma RoundExtends(n: Node, wireErr: bool)
    requires NodeOk(n)
    ensures Extends(n, Settle(n, wireErr)) && Extends(n, Waited(n)) && Extends(n, Retire(n))
  {
  }

  lemma {:induction false} HarvestExtends(n: Node, wireErr: bool, flits: nat, backstop: nat)
    requires NodeOk(n)
    ensures Extends(n, Harvest(n, wireErr, flits, backstop))
    decreases Count(n.out)
  {
    hide Settle, Waited, Extends;
    ExtendsSelf(n);
    if n.out.head != n.out.tail {
      var n1 := Settle(n, wireErr);
      RoundExtends(n, wireErr);
      if !Unanswered(n1.out.slots[n1.out.head]) {
        var waits := !wireErr && flits == 0;
        var n2 := if waits then Waited(n1) else n1;
        RoundExtends(n1, wireErr);
        if waits {
          ExtendsTwice(n, n1, n2);
        }
        if !(waits && n2.out.slots[n2.out.head].waited <= backstop) && !Full(n2.jfcs[n2.sendJfc].ring) {
          RoundExtends(n2, wireErr);
          ExtendsTwice(n, n2, Retire(n2));
          HarvestExtends(Retire(n2), wireErr, if flits > 0 then flits - 1 else 0, backstop);
          ExtendsTwice(n, Retire(n2), Harvest(n, wireErr, flits, backstop));
        }
      }
    }
  }

  lemma PollExtends(n: Node, jfc: nat, count: int, wireErr: bool, flits: nat, backstop: nat)
    requires NodeOk(n) && jfc < |n.jfcs|
    ensures Extends(n, Poll(n, jfc, count, wireErr, flits, backstop))
  {
    hide Harvest, Take;
    HarvestExtends(n, wireErr, flits, backstop);
    var n1 := Harvest(n, wireErr, flits, backstop);
    TakeExtends(n1.jfcs[jfc], count);
    ExtendsTwice(n, n1, Poll(n, jfc, count, wireErr, flits, backstop));
  }

  lemma FrameExtends(n: Node, f: Frame, alloc: Alloc)
    requires NodeOk(n) && (f.SendMsg? ==> f.len <= |f.data|)
    ensures Extends(n, OnFrame(n, f, alloc))
  {
    hide Scatter, Gather, Span, Live, First, RegionValid;
  }

  lemma StepExtends(s: Side, step: Step)
    requires Enabled(s, step)
    ensures Extends(s.node, Do(s, step).node)
  {
    hide OnFrame, Poll, Parse;
    match step
    case DeliverStep(alloc) =>
      var p := Parse(Tag(s.rx[0]), Body(s.rx[0]));
      if p.Some? {
        FrameExtends(s.node, p.value, alloc);
      }
    case PollStep(jfc, count, wireErr, flits, backstop) => PollExtends(s.node, jfc, count, wireErr, flits, backstop);
    case _ =>
  }
}
